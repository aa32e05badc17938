/**
 * Relation resolution (backend/src/ingestion/resolvers/relation-resolver.ts):
 * collect the distinct human-readable values each relation column carries,
 * look them up in the store, and overwrite the cells of the rows with the ids
 * found, rejecting every row with a reference that does not resolve. Also the
 * reference check the CRUD services run before a write (`validateRefs`).
 */
module RelationResolver {

  import opened Wrappers
  import opened Text
  import opened IngestionTypes

  /** A cell holds a value unless it is absent or empty. */
  predicate Present(data: Data, column: string) {
    column in data && data[column] != ""
  }

  /** The trimmed pieces, with the empty ones dropped, in order. */
  function TrimmedNonEmpty(pieces: seq<string>): (r: seq<string>)
    ensures forall k | 0 <= k < |r| :: r[k] != ""
    ensures forall v :: v in r <==> v != "" && exists k | 0 <= k < |pieces| :: v == Trim(pieces[k])
  {
    if pieces == [] then []
    else
      var rest := TrimmedNonEmpty(pieces[..|pieces| - 1]);
      var t := Trim(pieces[|pieces| - 1]);
      assert forall k | 0 <= k < |pieces| - 1 :: pieces[..|pieces| - 1][k] == pieces[k];
      if t != "" then rest + [t] else rest
  }

  /** The parts of a multi-valued cell: split on '|', each trimmed, the empty ones dropped. */
  function Parts(cell: string): seq<string> {
    TrimmedNonEmpty(Split(cell, '|'))
  }

  /** The lookup values a row contributes to a column. */
  function CellValues(data: Data, column: string): seq<string> {
    if !Present(data, column) then []
    else if '|' in data[column] then Parts(data[column])
    else [data[column]]
  }

  /** The distinct lookup values of a column over the rows, in first-seen order. */
  function LookupValues(rows: seq<ParsedRow>, column: string): (vs: seq<string>)
    ensures NoDup(vs)
    ensures forall v :: v in vs <==> exists k | 0 <= k < |rows| :: v in CellValues(rows[k].data, column)
  {
    if rows == [] then []
    else
      var prefix := rows[..|rows| - 1];
      assert forall k | 0 <= k < |prefix| :: prefix[k] == rows[k];
      AddAllFacts(LookupValues(prefix, column), CellValues(rows[|rows| - 1].data, column));
      AddAll(LookupValues(prefix, column), CellValues(rows[|rows| - 1].data, column))
  }

  /** Absent and empty cells contribute no lookup value; a cell without '|' contributes itself, untrimmed. */
  lemma CellValuesCases(data: Data, column: string)
    ensures !Present(data, column) ==> CellValues(data, column) == []
    ensures Present(data, column) && '|' !in data[column] ==> CellValues(data, column) == [data[column]]
    ensures Present(data, column) && '|' in data[column]
            ==> forall v | v in CellValues(data, column) :: v != "" && '|' !in v
  {
    if Present(data, column) && '|' in data[column] {
      var pieces := Split(data[column], '|');
      forall v | v in CellValues(data, column) ensures v != "" && '|' !in v {
        var k :| 0 <= k < |pieces| && v == Trim(pieces[k]);
        TrimKeepsNoNewChars(pieces[k]);
      }
    }
  }

  /** The body of `extractUniqueLookupValues`' inner loop: add one cell's lookup values to a column's set. */
  method AddCellValues(acc: seq<string>, data: Data, column: string) returns (r: seq<string>)
    ensures r == AddAll(acc, CellValues(data, column))
  {
    r := acc;
    if column in data && data[column] != "" {
      var s := data[column];
      if '|' in s {
        var pieces := Split(s, '|');
        for p := 0 to |pieces|
          invariant r == AddAll(acc, TrimmedNonEmpty(pieces[..p]))
        {
          assert pieces[..p + 1][..p] == pieces[..p];
          var t := Trim(pieces[p]);
          if t != "" {
            assert TrimmedNonEmpty(pieces[..p + 1]) == TrimmedNonEmpty(pieces[..p]) + [t];
            AddAllSnoc(acc, TrimmedNonEmpty(pieces[..p]), t);
            if t !in r {
              r := r + [t];
            }
          }
        }
        assert pieces[..|pieces|] == pieces;
      } else {
        assert [s] == [] + [s];
        AddAllSnoc(acc, [], s);
        if s !in r {
          r := r + [s];
        }
      }
    }
  }

  /** The inner loop of `extractUniqueLookupValues`: add one row's values to every relation column. */
  method AddRowValues(out: map<string, seq<string>>, data: Data, cols: seq<string>) returns (r: map<string, seq<string>>)
    requires forall i, j | 0 <= i < j < |cols| :: cols[i] != cols[j]
    requires forall l | 0 <= l < |cols| :: cols[l] in out
    ensures r.Keys == out.Keys
    ensures forall l | 0 <= l < |cols| :: r[cols[l]] == AddAll(out[cols[l]], CellValues(data, cols[l]))
  {
    r := out;
    for j := 0 to |cols|
      invariant r.Keys == out.Keys
      invariant forall l | 0 <= l < j :: r[cols[l]] == AddAll(out[cols[l]], CellValues(data, cols[l]))
      invariant forall l | j <= l < |cols| :: r[cols[l]] == out[cols[l]]
    {
      var column := cols[j];
      var acc := AddCellValues(r[column], data, column);
      ghost var prev := r;
      r := r[column := acc];
      assert forall l | 0 <= l < |cols| && l != j :: r[cols[l]] == prev[cols[l]];
    }
  }

  /**
   * `extractUniqueLookupValues`: every relation column gets an entry, possibly
   * empty, holding the column's distinct lookup values in first-seen order.
   */
  method ExtractUniqueLookupValues(rows: seq<ParsedRow>, relations: Relations) returns (out: map<string, seq<string>>)
    requires DistinctColumns(relations)
    ensures forall c :: c in out <==> c in Columns(relations)
    ensures forall c | c in out :: out[c] == LookupValues(rows, c)
  {
    var cols := Columns(relations);
    out := map[];
    for k := 0 to |relations|
      invariant forall c :: c in out <==> c in cols[..k]
      invariant forall c | c in out :: out[c] == []
    {
      assert cols[..k + 1] == cols[..k] + [cols[k]];
      out := out[cols[k] := []];
    }
    assert cols[..|relations|] == cols;
    for i := 0 to |rows|
      invariant forall c :: c in out <==> c in cols
      invariant forall c | c in out :: out[c] == LookupValues(rows[..i], c)
    {
      assert rows[..i + 1][..i] == rows[..i];
      out := AddRowValues(out, rows[i].data, cols);
      forall c | c in out ensures out[c] == LookupValues(rows[..i + 1], c) {
        var l :| 0 <= l < |cols| && cols[l] == c;
      }
    }
    assert rows[..|rows|] == rows;
  }

  /** Filling a map from the documents in order: a later document with the same key wins. */
  function LookupMap(docs: seq<Doc>, field: string): (m: map<string, string>)
    ensures forall k :: k in m <==> exists i | 0 <= i < |docs| :: FieldText(docs[i], field) == k
  {
    if docs == [] then map[]
    else
      var prefix := docs[..|docs| - 1];
      assert forall i | 0 <= i < |prefix| :: prefix[i] == docs[i];
      LookupMap(prefix, field)[FieldText(docs[|docs| - 1], field) := docs[|docs| - 1].id]
  }

  /** Each key maps to the id of the last document carrying it. */
  lemma {:induction false} LookupMapLastWins(docs: seq<Doc>, field: string, k: string)
    requires k in LookupMap(docs, field)
    ensures exists i | 0 <= i < |docs| :: FieldText(docs[i], field) == k && LookupMap(docs, field)[k] == docs[i].id
                                         && forall j | i < j < |docs| :: FieldText(docs[j], field) != k
  {
    var n := |docs| - 1;
    var prefix := docs[..n];
    if FieldText(docs[n], field) != k {
      LookupMapLastWins(prefix, field, k);
      var i :| 0 <= i < |prefix| && FieldText(prefix[i], field) == k && LookupMap(prefix, field)[k] == prefix[i].id
               && forall j | i < j < |prefix| :: FieldText(prefix[j], field) != k;
      LastWinsExtend(docs, field, k, i);
    }
  }

  /** A last occurrence among all but the final document stays the last when the final one carries another key. */
  lemma LastWinsExtend(docs: seq<Doc>, field: string, k: string, i: int)
    requires docs != [] && FieldText(docs[|docs| - 1], field) != k
    requires var prefix := docs[..|docs| - 1];
             && 0 <= i < |prefix| && FieldText(prefix[i], field) == k
             && k in LookupMap(prefix, field) && LookupMap(prefix, field)[k] == prefix[i].id
             && forall j | i < j < |prefix| :: FieldText(prefix[j], field) != k
    ensures FieldText(docs[i], field) == k && LookupMap(docs, field)[k] == docs[i].id
    ensures forall j | i < j < |docs| :: FieldText(docs[j], field) != k
  {
    var n := |docs| - 1;
    var prefix := docs[..n];
    assert docs[i] == prefix[i];
    NoLaterKey(docs, field, k, i);
  }

  /** No document after `i` carries `k` when none in the prefix does and the final one carries another key. */
  lemma NoLaterKey(docs: seq<Doc>, field: string, k: string, i: nat)
    requires docs != [] && FieldText(docs[|docs| - 1], field) != k
    requires var prefix := docs[..|docs| - 1]; forall j | i < j < |prefix| :: FieldText(prefix[j], field) != k
    ensures forall j | i < j < |docs| :: FieldText(docs[j], field) != k
  {
    var n := |docs| - 1;
    var prefix := docs[..n];
    forall j | i < j < |docs| ensures FieldText(docs[j], field) != k {
      if j < n {
        assert docs[j] == prefix[j];
      }
    }
  }

  /** The map `buildRelationMaps` builds for one relation column from the values it looks up. */
  function RelationMapFor(config: RelationConfig, values: seq<string>, store: Store): map<string, string> {
    if values == [] then map[]
    else LookupMap(FindIn(DocsOf(store, config.modelName), config.lookupField, set v | v in values), config.lookupField)
  }

  /**
   * A relation map holds exactly the looked-up values that some document of
   * the related model carries in its lookup field, each mapped to the id of
   * such a document.
   */
  lemma RelationMapContents(config: RelationConfig, values: seq<string>, store: Store, k: string)
    ensures k in RelationMapFor(config, values, store)
            <==> k in values && exists d | d in DocsOf(store, config.modelName) :: config.lookupField in d.fields && d.fields[config.lookupField] == k
    ensures k in RelationMapFor(config, values, store)
            ==> exists d | d in DocsOf(store, config.modelName) :: FieldText(d, config.lookupField) == k && RelationMapFor(config, values, store)[k] == d.id
  {
    if k in RelationMapFor(config, values, store) {
      RelationMapSound(config, values, store, k);
    }
    if k in values && exists d | d in DocsOf(store, config.modelName) :: config.lookupField in d.fields && d.fields[config.lookupField] == k {
      RelationMapComplete(config, values, store, k);
    }
  }

  lemma RelationMapSound(config: RelationConfig, values: seq<string>, store: Store, k: string)
    requires k in RelationMapFor(config, values, store)
    ensures k in values
    ensures exists d | d in DocsOf(store, config.modelName) ::
              && config.lookupField in d.fields && d.fields[config.lookupField] == k
              && RelationMapFor(config, values, store)[k] == d.id
  {
    var field := config.lookupField;
    var docs := DocsOf(store, config.modelName);
    var found := FindIn(docs, field, set v | v in values);
    LookupMapLastWins(found, field, k);
    var i :| 0 <= i < |found| && FieldText(found[i], field) == k && LookupMap(found, field)[k] == found[i].id;
    var d := found[i];
    assert d in found;
    assert d in docs && field in d.fields && d.fields[field] == k;
  }

  lemma RelationMapComplete(config: RelationConfig, values: seq<string>, store: Store, k: string)
    requires k in values
    requires exists d | d in DocsOf(store, config.modelName) :: config.lookupField in d.fields && d.fields[config.lookupField] == k
    ensures k in RelationMapFor(config, values, store)
  {
    var field := config.lookupField;
    var docs := DocsOf(store, config.modelName);
    var found := FindIn(docs, field, set v | v in values);
    var d :| d in docs && field in d.fields && d.fields[field] == k;
    assert d in found;
    var i :| 0 <= i < |found| && found[i] == d;
    assert FieldText(found[i], field) == k;
  }

  /** Fill one relation column's map from the matching documents. */
  method FillRelationMap(docs: seq<Doc>, field: string) returns (m: map<string, string>)
    ensures m == LookupMap(docs, field)
  {
    m := map[];
    for p := 0 to |docs|
      invariant m == LookupMap(docs[..p], field)
    {
      assert docs[..p + 1][..p] == docs[..p];
      m := m[FieldText(docs[p], field) := docs[p].id];
    }
    assert docs[..|docs|] == docs;
  }

  /**
   * `buildRelationMaps`: one map per relation column; a column without lookup
   * values gets an empty map without consulting the store.
   */
  method BuildRelationMaps(relations: Relations, rows: seq<ParsedRow>, store: Store) returns (maps: map<string, map<string, string>>)
    requires DistinctColumns(relations)
    ensures forall c :: c in maps <==> c in Columns(relations)
    ensures forall k | 0 <= k < |relations| :: relations[k].0 in maps && maps[relations[k].0] == RelationMapFor(relations[k].1, LookupValues(rows, relations[k].0), store)
  {
    var lookupValues := ExtractUniqueLookupValues(rows, relations);
    ghost var targets := seq(|relations|, l requires 0 <= l < |relations| => RelationMapFor(relations[l].1, LookupValues(rows, relations[l].0), store));
    maps := map[];
    for k := 0 to |relations|
      invariant forall c :: c in maps <==> c in Columns(relations)[..k]
      invariant forall l | 0 <= l < k :: relations[l].0 in maps && maps[relations[l].0] == targets[l]
    {
      var (column, config) := relations[k];
      assert column in Columns(relations);
      var m := RelationMap(config, lookupValues[column], store);
      MapsStepKeys(relations, maps, k, m);
      MapsStepValues(relations, targets, maps, k, m);
      maps := maps[column := m];
    }
    assert Columns(relations)[..|relations|] == Columns(relations);
  }

  /** One relation column's map: empty without values, otherwise filled from the matching documents. */
  method RelationMap(config: RelationConfig, valuesToFind: seq<string>, store: Store) returns (m: map<string, string>)
    ensures m == RelationMapFor(config, valuesToFind, store)
  {
    if |valuesToFind| == 0 {
      m := map[];
    } else {
      var docs := FindIn(DocsOf(store, config.modelName), config.lookupField, set v | v in valuesToFind);
      m := FillRelationMap(docs, config.lookupField);
    }
  }

  /** Adding column `k`'s map covers one more column. */
  lemma MapsStepKeys<V>(relations: Relations, maps: map<string, V>, k: int, m: V)
    requires 0 <= k < |relations|
    requires forall c :: c in maps <==> c in Columns(relations)[..k]
    ensures var next := maps[relations[k].0 := m];
            forall c :: c in next <==> c in Columns(relations)[..k + 1]
  {
    assert Columns(relations)[..k + 1] == Columns(relations)[..k] + [relations[k].0];
  }

  /** Adding column `k`'s map keeps the maps of the earlier columns, since the columns are distinct. */
  lemma MapsStepValues<V>(relations: Relations, targets: seq<V>, maps: map<string, V>, k: int, m: V)
    requires DistinctColumns(relations) && 0 <= k < |relations| == |targets|
    requires forall l | 0 <= l < k :: relations[l].0 in maps && maps[relations[l].0] == targets[l]
    requires m == targets[k]
    ensures var next := maps[relations[k].0 := m];
            forall l | 0 <= l < k + 1 :: relations[l].0 in next && next[relations[l].0] == targets[l]
  {
  }

  /** `map.get(k)` yields an id: the key is present with a non-empty id. */
  predicate Resolves(m: map<string, string>, k: string) {
    k in m && m[k] != ""
  }

  function NotFoundError(rowNumber: int, column: string, config: RelationConfig, value: string): IngestionError {
    IngestionError(rowNumber, column, RelationNotFound,
      "Referenced " + config.modelName + " '" + value + "' (matched by " + config.lookupField + ") does not exist")
  }

  function NoMapError(rowNumber: int, column: string): IngestionError {
    IngestionError(rowNumber, column, RelationNotFound, "No relation map for column '" + column + "'")
  }

  /** The parts that do not resolve, in order. */
  function Unresolved(m: map<string, string>, parts: seq<string>): (r: seq<string>)
    ensures forall v :: v in r <==> v in parts && !Resolves(m, v)
  {
    if parts == [] then []
    else
      var rest := Unresolved(m, parts[..|parts| - 1]);
      var p := parts[|parts| - 1];
      assert parts == parts[..|parts| - 1] + [p];
      if Resolves(m, p) then rest else rest + [p]
  }

  /** The ids of the parts that resolve, in order. */
  function ResolvedIds(m: map<string, string>, parts: seq<string>): (ids: seq<string>)
    ensures |ids| <= |parts|
  {
    if parts == [] then []
    else
      var rest := ResolvedIds(m, parts[..|parts| - 1]);
      var p := parts[|parts| - 1];
      if Resolves(m, p) then rest + [m[p]] else rest
  }

  function PartErrors(rowNumber: int, column: string, config: RelationConfig, missing: seq<string>): (errs: seq<IngestionError>)
    ensures |errs| == |missing|
    ensures forall k | 0 <= k < |missing| :: errs[k] == NotFoundError(rowNumber, column, config, missing[k])
  {
    seq(|missing|, k requires 0 <= k < |missing| => NotFoundError(rowNumber, column, config, missing[k]))
  }

  /** What resolving one relation column does to a row's record, and the errors it reports. */
  function ResolveColumn(data: Data, rowNumber: int, column: string, config: RelationConfig,
                         maps: map<string, map<string, string>>): (Data, seq<IngestionError>)
  {
    if !Present(data, column) then (data, [])
    else if column !in maps then (data, [NoMapError(rowNumber, column)])
    else
      var s := data[column];
      var m := maps[column];
      if '|' in s then
        var parts := Parts(s);
        var missing := Unresolved(m, parts);
        if missing != [] then (data, PartErrors(rowNumber, column, config, missing))
        else (data[column := Join(ResolvedIds(m, parts), '|')], [])
      else if Resolves(m, s) then (data[column := m[s]], [])
      else (data, [NotFoundError(rowNumber, column, config, s)])
  }

  /** The relation columns resolved one after another, each on the record the previous ones left. */
  function ResolveColumns(data: Data, rowNumber: int, relations: Relations, maps: map<string, map<string, string>>): (Data, seq<IngestionError>)
  {
    if relations == [] then (data, [])
    else
      var (d, errs) := ResolveColumns(data, rowNumber, relations[..|relations| - 1], maps);
      var (column, config) := relations[|relations| - 1];
      var (d2, errs2) := ResolveColumn(d, rowNumber, column, config, maps);
      (d2, errs + errs2)
  }

  /** One row after resolution, and its errors. */
  function ResolveRow(row: ParsedRow, relations: Relations, maps: map<string, map<string, string>>): (ParsedRow, seq<IngestionError>) {
    var (d, errs) := ResolveColumns(row.data, row.rowNumber, relations, maps);
    (ParsedRow(row.rowNumber, d), errs)
  }

  /** `resolveRelations` over all rows: the rows as rewritten, those kept, and all errors in row order. */
  function ResolveAll(rows: seq<ParsedRow>, relations: Relations, maps: map<string, map<string, string>>)
    : (r: (seq<ParsedRow>, seq<ParsedRow>, seq<IngestionError>))
    ensures |r.0| == |rows| && |r.1| <= |rows|
  {
    if rows == [] then ([], [], [])
    else
      var (rewritten, resolved, errors) := ResolveAll(rows[..|rows| - 1], relations, maps);
      var (row, errs) := ResolveRow(rows[|rows| - 1], relations, maps);
      (rewritten + [row], if errs == [] then resolved + [row] else resolved, errors + errs)
  }

  /** The loop over the parts of a multi-valued cell. */
  method ResolveParts(m: map<string, string>, parts: seq<string>, rowNumber: int, column: string, config: RelationConfig)
    returns (ids: seq<string>, errs: seq<IngestionError>, partError: bool)
    ensures ids == ResolvedIds(m, parts)
    ensures errs == PartErrors(rowNumber, column, config, Unresolved(m, parts))
    ensures partError <==> Unresolved(m, parts) != []
  {
    ids, errs, partError := [], [], false;
    for p := 0 to |parts|
      invariant ids == ResolvedIds(m, parts[..p])
      invariant errs == PartErrors(rowNumber, column, config, Unresolved(m, parts[..p]))
      invariant partError <==> Unresolved(m, parts[..p]) != []
    {
      assert parts[..p + 1][..p] == parts[..p];
      var part := parts[p];
      if !(part in m && m[part] != "") {
        errs := errs + [NotFoundError(rowNumber, column, config, part)];
        partError := true;
      } else {
        ids := ids + [m[part]];
      }
    }
    assert parts[..|parts|] == parts;
  }

  /** The inner loop of `resolveRelations`: resolve every relation column of row `i`, writing ids into it in place. */
  method ResolveRowInPlace(rows: array<ParsedRow>, i: nat, relations: Relations, maps: map<string, map<string, string>>)
    returns (errors: seq<IngestionError>, hasError: bool)
    requires i < rows.Length
    modifies rows
    ensures rows[i] == ResolveRow(old(rows[i]), relations, maps).0
    ensures errors == ResolveRow(old(rows[i]), relations, maps).1
    ensures hasError <==> errors != []
    ensures forall k | 0 <= k < rows.Length && k != i :: rows[k] == old(rows[k])
  {
    ghost var row0 := rows[i];
    errors, hasError := [], false;
    for j := 0 to |relations|
      invariant rows[i] == ParsedRow(row0.rowNumber, ResolveColumns(row0.data, row0.rowNumber, relations[..j], maps).0)
      invariant errors == ResolveColumns(row0.data, row0.rowNumber, relations[..j], maps).1
      invariant hasError <==> errors != []
      invariant forall k | 0 <= k < rows.Length && k != i :: rows[k] == old(rows[k])
    {
      assert relations[..j + 1][..j] == relations[..j];
      var (column, config) := relations[j];
      var data := rows[i].data;
      if column in data && data[column] != "" {
        if column !in maps {
          errors := errors + [NoMapError(rows[i].rowNumber, column)];
          hasError := true;
        } else {
          var s := data[column];
          var m := maps[column];
          if '|' in s {
            var ids, partErrors, partError := ResolveParts(m, Parts(s), rows[i].rowNumber, column, config);
            errors := errors + partErrors;
            if partError {
              hasError := true;
            } else {
              rows[i] := ParsedRow(rows[i].rowNumber, data[column := Join(ids, '|')]);
            }
          } else if !(s in m && m[s] != "") {
            errors := errors + [NotFoundError(rows[i].rowNumber, column, config, s)];
            hasError := true;
          } else {
            rows[i] := ParsedRow(rows[i].rowNumber, data[column := m[s]]);
          }
        }
      }
    }
    assert relations[..|relations|] == relations;
  }

  /**
   * `resolveRelations`: every row's relation cells are overwritten in place
   * with the ids found; the rows without errors are returned in order.
   */
  method ResolveRelations(rows: array<ParsedRow>, relations: Relations, maps: map<string, map<string, string>>)
    returns (resolved: seq<ParsedRow>, errors: seq<IngestionError>)
    modifies rows
    ensures (rows[..], resolved, errors) == ResolveAll(old(rows[..]), relations, maps)
  {
    resolved, errors := [], [];
    ghost var input := rows[..];
    for i := 0 to rows.Length
      invariant rows[..i] == ResolveAll(input[..i], relations, maps).0
      invariant forall k | i <= k < rows.Length :: rows[k] == input[k]
      invariant resolved == ResolveAll(input[..i], relations, maps).1
      invariant errors == ResolveAll(input[..i], relations, maps).2
    {
      ResolveAllStep(input, i, relations, maps);
      ghost var done := rows[..i];
      var rowErrors, hasError := ResolveRowInPlace(rows, i, relations, maps);
      assert rows[..i] == done;
      errors := errors + rowErrors;
      if !hasError {
        resolved := resolved + [rows[i]];
      }
      assert rows[..i + 1] == rows[..i] + [rows[i]];
    }
    assert input[..rows.Length] == input;
    assert rows[..] == rows[..rows.Length];
  }

  /** One more row for `ResolveAll`: its rewritten form, kept when it reports nothing, and its errors appended. */
  lemma ResolveAllStep(input: seq<ParsedRow>, i: int, relations: Relations, maps: map<string, map<string, string>>)
    requires 0 <= i < |input|
    ensures var (row, errs) := ResolveRow(input[i], relations, maps);
            var before := ResolveAll(input[..i], relations, maps);
            ResolveAll(input[..i + 1], relations, maps) == (before.0 + [row], if errs == [] then before.1 + [row] else before.1, before.2 + errs)
  {
    assert input[..i + 1][..i] == input[..i];
  }

  /** An absent or empty relation cell is left as it is and reports nothing. */
  lemma ResolveColumnAbsent(data: Data, rowNumber: int, column: string, config: RelationConfig, maps: map<string, map<string, string>>)
    requires !Present(data, column)
    ensures ResolveColumn(data, rowNumber, column, config, maps) == (data, [])
  {
  }

  /** Resolving a column never touches another column. */
  lemma ResolveColumnFrame(data: Data, rowNumber: int, column: string, config: RelationConfig, maps: map<string, map<string, string>>, other: string)
    requires other != column
    ensures var d := ResolveColumn(data, rowNumber, column, config, maps).0;
            (other in d <==> other in data) && (other in data ==> d[other] == data[other])
  {
  }

  /**
   * A single-valued cell either resolves, and is overwritten with the id, or
   * reports exactly one RELATION_NOT_FOUND naming its value and stays as it was.
   */
  lemma ResolveColumnScalar(data: Data, rowNumber: int, column: string, config: RelationConfig, maps: map<string, map<string, string>>)
    requires Present(data, column) && '|' !in data[column] && column in maps
    ensures var (d, errs) := ResolveColumn(data, rowNumber, column, config, maps);
            var s := data[column];
            && (errs == [] <==> Resolves(maps[column], s))
            && (errs == [] ==> d == data[column := maps[column][s]])
            && (errs != [] ==> d == data && errs == [NotFoundError(rowNumber, column, config, s)])
  {
  }

  /** When every part resolves, the ids are the parts' ids in part order. */
  lemma {:induction false} AllResolvedIds(m: map<string, string>, parts: seq<string>)
    requires Unresolved(m, parts) == []
    ensures |ResolvedIds(m, parts)| == |parts|
    ensures forall k | 0 <= k < |parts| :: Resolves(m, parts[k]) && ResolvedIds(m, parts)[k] == m[parts[k]]
  {
    if parts != [] {
      var prefix := parts[..|parts| - 1];
      assert parts[|parts| - 1] in parts;
      assert forall v | v in prefix :: v in parts;
      AllResolvedIds(m, prefix);
    }
  }

  /**
   * A multi-valued cell reports one RELATION_NOT_FOUND per part that does not
   * resolve and then stays as it was; when all parts resolve it becomes their
   * ids joined with '|', in part order.
   */
  lemma ResolveColumnMulti(data: Data, rowNumber: int, column: string, config: RelationConfig, maps: map<string, map<string, string>>)
    requires Present(data, column) && '|' in data[column] && column in maps
    ensures var (d, errs) := ResolveColumn(data, rowNumber, column, config, maps);
            var m := maps[column];
            var parts := Parts(data[column]);
            && (forall v | v in parts && !Resolves(m, v) :: NotFoundError(rowNumber, column, config, v) in errs)
            && (forall e | e in errs :: exists v | v in parts && !Resolves(m, v) :: e == NotFoundError(rowNumber, column, config, v))
            && (errs != [] ==> d == data)
            && (errs == [] ==> exists ids: seq<string> ::
                  && |ids| == |parts|
                  && (forall k | 0 <= k < |parts| :: Resolves(m, parts[k]) && ids[k] == m[parts[k]])
                  && d == data[column := Join(ids, '|')])
  {
    var m := maps[column];
    var parts := Parts(data[column]);
    var missing := Unresolved(m, parts);
    var errs := PartErrors(rowNumber, column, config, missing);
    forall v | v in parts && !Resolves(m, v) ensures NotFoundError(rowNumber, column, config, v) in errs {
      var k :| 0 <= k < |missing| && missing[k] == v;
      assert errs[k] == NotFoundError(rowNumber, column, config, v);
    }
    forall e | e in errs ensures exists v | v in parts && !Resolves(m, v) :: e == NotFoundError(rowNumber, column, config, v) {
      var k :| 0 <= k < |errs| && errs[k] == e;
      assert missing[k] in missing;
    }
    if missing == [] {
      AllResolvedIds(m, parts);
    }
  }

  /** A cell holding only separators has no parts: it becomes empty and reports nothing. */
  lemma SeparatorOnlyCellBecomesEmpty(data: Data, rowNumber: int, column: string, config: RelationConfig, maps: map<string, map<string, string>>)
    requires column in data && data[column] == "|" && column in maps
    ensures ResolveColumn(data, rowNumber, column, config, maps) == (data[column := ""], [])
  {
    var s := data[column];
    assert s[0] == '|';
    assert IndexOf(s, '|') == 0;
    assert Split(s, '|') == [""] + Split("", '|');
    assert Split(s, '|') == ["", ""];
    assert Trim("") == "";
    var pieces := ["", ""];
    assert pieces[..1] == [""] && [""][..0] == [];
    assert TrimmedNonEmpty([""]) == [];
    var r := Parts(s);
    assert Join(ResolvedIds(maps[column], r), '|') == "";
  }

  /** Every error of a row is a RELATION_NOT_FOUND on that row, in one of the relation columns. */
  lemma {:induction false} ResolveColumnsErrors(data: Data, rowNumber: int, relations: Relations, maps: map<string, map<string, string>>)
    ensures forall e | e in ResolveColumns(data, rowNumber, relations, maps).1
              :: e.row == rowNumber && e.code == RelationNotFound && e.column in Columns(relations)
  {
    if relations != [] {
      var prefix := relations[..|relations| - 1];
      ResolveColumnsErrors(data, rowNumber, prefix, maps);
      assert forall c | c in Columns(prefix) :: c in Columns(relations) by {
        forall c | c in Columns(prefix) ensures c in Columns(relations) {
          var k :| 0 <= k < |prefix| && Columns(prefix)[k] == c;
          assert Columns(relations)[k] == c;
        }
      }
      assert Columns(relations)[|relations| - 1] == relations[|relations| - 1].0;
    }
  }

  /**
   * A row is kept exactly when it reported no error; the kept rows are the
   * rewritten rows, in input order, and the errors are those of the rows in
   * row order.
   */
  lemma {:induction false} ResolveAllKeepsErrorFreeRows(rows: seq<ParsedRow>, relations: Relations, maps: map<string, map<string, string>>)
    ensures var (rewritten, resolved, errors) := ResolveAll(rows, relations, maps);
            && (forall k | 0 <= k < |rows| :: rewritten[k] == ResolveRow(rows[k], relations, maps).0)
            && (forall k | 0 <= k < |rows| :: ResolveRow(rows[k], relations, maps).1 == [] ==> rewritten[k] in resolved)
            && (forall r | r in resolved :: exists k | 0 <= k < |rows| :: r == rewritten[k] && ResolveRow(rows[k], relations, maps).1 == [])
            && (forall e | e in errors :: exists k | 0 <= k < |rows| :: e in ResolveRow(rows[k], relations, maps).1)
  {
    ResolveAllRewrites(rows, relations, maps);
    ResolveAllKeepsClean(rows, relations, maps);
    ResolveAllKeepsOnlyClean(rows, relations, maps);
    ResolveAllErrorsFromRows(rows, relations, maps);
  }

  lemma {:induction false} ResolveAllRewrites(rows: seq<ParsedRow>, relations: Relations, maps: map<string, map<string, string>>)
    ensures var rewritten := ResolveAll(rows, relations, maps).0;
            forall k | 0 <= k < |rows| :: rewritten[k] == ResolveRow(rows[k], relations, maps).0
  {
    if rows != [] {
      var prefix := rows[..|rows| - 1];
      ResolveAllRewrites(prefix, relations, maps);
      assert forall k | 0 <= k < |prefix| :: prefix[k] == rows[k];
    }
  }

  lemma {:induction false} ResolveAllKeepsClean(rows: seq<ParsedRow>, relations: Relations, maps: map<string, map<string, string>>)
    ensures var r := ResolveAll(rows, relations, maps); var rewritten, resolved := r.0, r.1;
            forall k | 0 <= k < |rows| :: ResolveRow(rows[k], relations, maps).1 == [] ==> rewritten[k] in resolved
  {
    if rows != [] {
      var prefix := rows[..|rows| - 1];
      ResolveAllKeepsClean(prefix, relations, maps);
      assert forall k | 0 <= k < |prefix| :: prefix[k] == rows[k];
    }
  }

  lemma {:induction false} ResolveAllKeepsOnlyClean(rows: seq<ParsedRow>, relations: Relations, maps: map<string, map<string, string>>)
    ensures var r := ResolveAll(rows, relations, maps); var rewritten, resolved := r.0, r.1;
            forall r | r in resolved :: exists k | 0 <= k < |rows| :: r == rewritten[k] && ResolveRow(rows[k], relations, maps).1 == []
  {
    if rows != [] {
      var prefix := rows[..|rows| - 1];
      ResolveAllKeepsOnlyClean(prefix, relations, maps);
      assert var r := ResolveAll(prefix, relations, maps); var rewritten, resolved := r.0, r.1;
             forall r | r in resolved :: exists k | 0 <= k < |prefix| :: r == rewritten[k] && ResolveRow(prefix[k], relations, maps).1 == [];
      var rewritten0, resolved0 := ResolveAll(prefix, relations, maps).0, ResolveAll(prefix, relations, maps).1;
      var rewritten, resolved := ResolveAll(rows, relations, maps).0, ResolveAll(rows, relations, maps).1;
      var n := |prefix|;
      assert rewritten == rewritten0 + [ResolveRow(rows[n], relations, maps).0];
      forall r | r in resolved
        ensures exists k | 0 <= k < |rows| :: r == rewritten[k] && ResolveRow(rows[k], relations, maps).1 == []
      {
        if r in resolved0 {
          var k :| 0 <= k < n && r == rewritten0[k] && ResolveRow(prefix[k], relations, maps).1 == [];
          assert prefix[k] == rows[k] && rewritten[k] == rewritten0[k];
        } else {
          assert r == rewritten[n];
        }
      }
    }
  }

  lemma {:induction false} ResolveAllErrorsFromRows(rows: seq<ParsedRow>, relations: Relations, maps: map<string, map<string, string>>)
    ensures var errors := ResolveAll(rows, relations, maps).2;
            forall e | e in errors :: exists k | 0 <= k < |rows| :: e in ResolveRow(rows[k], relations, maps).1
  {
    if rows != [] {
      var prefix := rows[..|rows| - 1];
      ResolveAllErrorsFromRows(prefix, relations, maps);
      var errors0 := ResolveAll(prefix, relations, maps).2;
      assert var errors := ResolveAll(prefix, relations, maps).2;
            forall e | e in errors :: exists k | 0 <= k < |prefix| :: e in ResolveRow(prefix[k], relations, maps).1;
      var n := |prefix|;
      assert ResolveAll(rows, relations, maps).2 == errors0 + ResolveRow(rows[n], relations, maps).1;
      forall e | e in ResolveAll(rows, relations, maps).2
        ensures exists k | 0 <= k < |rows| :: e in ResolveRow(rows[k], relations, maps).1
      {
        if e in errors0 {
          var k :| 0 <= k < n && e in ResolveRow(prefix[k], relations, maps).1;
          assert prefix[k] == rows[k];
        }
      }
    }
  }

  /** Rows keep their numbers, so rows numbered in increasing order stay in increasing order once filtered. */
  lemma {:induction false} ResolveAllKeepsOrder(rows: seq<ParsedRow>, relations: Relations, maps: map<string, map<string, string>>)
    requires forall i, j | 0 <= i < j < |rows| :: rows[i].rowNumber < rows[j].rowNumber
    ensures var resolved := ResolveAll(rows, relations, maps).1;
            && (forall i, j | 0 <= i < j < |resolved| :: resolved[i].rowNumber < resolved[j].rowNumber)
            && (forall r | r in resolved :: exists k | 0 <= k < |rows| :: r.rowNumber == rows[k].rowNumber)
  {
    if rows != [] {
      var prefix := rows[..|rows| - 1];
      ResolveAllKeepsOrder(prefix, relations, maps);
      assert forall k | 0 <= k < |prefix| :: prefix[k] == rows[k];
    }
  }

  /** Resolution rewrites cells in place and never adds or removes a column. */
  lemma {:induction false} ResolveColumnsKeepsColumns(data: Data, rowNumber: int, relations: Relations, maps: map<string, map<string, string>>)
    ensures ResolveColumns(data, rowNumber, relations, maps).0.Keys == data.Keys
  {
    if relations != [] {
      ResolveColumnsKeepsColumns(data, rowNumber, relations[..|relations| - 1], maps);
    }
  }

  /** Resolution leaves every column other than the relation columns as it was. */
  lemma {:induction false} ResolveColumnsFrame(data: Data, rowNumber: int, relations: Relations, maps: map<string, map<string, string>>, other: string)
    requires other !in Columns(relations)
    ensures var d := ResolveColumns(data, rowNumber, relations, maps).0;
            (other in d <==> other in data) && (other in data ==> d[other] == data[other])
  {
    if relations != [] {
      var prefix := relations[..|relations| - 1];
      assert forall k | 0 <= k < |prefix| :: Columns(prefix)[k] == Columns(relations)[k];
      ResolveColumnsFrame(data, rowNumber, prefix, maps, other);
      assert Columns(relations)[|relations| - 1] == relations[|relations| - 1].0;
      var d := ResolveColumns(data, rowNumber, prefix, maps).0;
      ResolveColumnFrame(d, rowNumber, relations[|relations| - 1].0, relations[|relations| - 1].1, maps, other);
    }
  }

  /** A reference value in a request body: one id, or an array of ids. */
  datatype RefValue = RefId(id: string) | RefIds(ids: seq<string>)

  /** `RefCheck`: the field holding the reference, the model it points into, and whether it holds an array. */
  datatype RefCheck = RefCheck(field: string, modelName: string, isArray: bool)

  datatype FieldError = FieldError(field: string, message: string, code: string)

  /** The ids of a model's documents. */
  function IdSet(docs: seq<Doc>): set<string> {
    set d | d in docs :: d.id
  }

  /** Document ids are unique within a model. */
  predicate UniqueIds(docs: seq<Doc>) {
    forall i, j | 0 <= i < j < |docs| :: docs[i].id != docs[j].id
  }

  /** `countDocuments({ _id: { $in: ids } })`. */
  function CountMatching(docs: seq<Doc>, ids: set<string>): (n: nat)
    ensures n <= |docs|
  {
    if docs == [] then 0
    else CountMatching(docs[..|docs| - 1], ids) + (if docs[|docs| - 1].id in ids then 1 else 0)
  }

  /** The error one reference check contributes, if any; a field that is absent is skipped. */
  function RefError(data: map<string, RefValue>, check: RefCheck, store: Store): Option<FieldError> {
    if check.field !in data then None
    else
      var docs := DocsOf(store, check.modelName);
      if check.isArray then
        match data[check.field]
        case RefIds(ids) =>
          if ids == [] || CountMatching(docs, set x | x in ids) == |ids| then None
          else Some(FieldError(check.field, "One or more referenced " + check.modelName + "(s) not found", "RELATION_NOT_FOUND"))
        case RefId(_) => None
      else
        match data[check.field]
        case RefId(id) =>
          if id in IdSet(docs) then None
          else Some(FieldError(check.field, "Referenced " + check.modelName + " not found", "RELATION_NOT_FOUND"))
        case RefIds(_) => Some(FieldError(check.field, "Referenced " + check.modelName + " not found", "RELATION_NOT_FOUND"))
  }

  function RefErrors(data: map<string, RefValue>, checks: seq<RefCheck>, store: Store): (errs: seq<FieldError>)
    ensures errs == [] <==> forall k | 0 <= k < |checks| :: RefError(data, checks[k], store).None?
  {
    if checks == [] then []
    else
      var rest := RefErrors(data, checks[..|checks| - 1], store);
      var last := RefError(data, checks[|checks| - 1], store);
      assert forall k | 0 <= k < |checks| - 1 :: checks[..|checks| - 1][k] == checks[k];
      if last.Some? then rest + [last.value] else rest
  }

  /**
   * `validateRefs`: `Some(errors)` when it throws the bad-request error
   * 'Referenced entities do not exist' carrying `errors`, `None` when it
   * returns normally.
   */
  function ValidateRefs(data: map<string, RefValue>, checks: seq<RefCheck>, store: Store): (r: Option<seq<FieldError>>)
    ensures r.Some? <==> exists k | 0 <= k < |checks| :: RefError(data, checks[k], store).Some?
    ensures r.Some? ==> r.value != [] && forall e | e in r.value :: e.code == "RELATION_NOT_FOUND"
  {
    var errs := RefErrors(data, checks, store);
    RefErrorsCode(data, checks, store);
    if |errs| > 0 then Some(errs) else None
  }

  lemma {:induction false} RefErrorsCode(data: map<string, RefValue>, checks: seq<RefCheck>, store: Store)
    ensures forall e | e in RefErrors(data, checks, store) :: e.code == "RELATION_NOT_FOUND"
  {
    if checks != [] {
      RefErrorsCode(data, checks[..|checks| - 1], store);
    }
  }

  /** With unique document ids, the count is the number of requested ids that exist. */
  lemma {:induction false} CountIsExistingIds(docs: seq<Doc>, ids: set<string>)
    requires UniqueIds(docs)
    ensures CountMatching(docs, ids) == |ids * IdSet(docs)|
  {
    if docs != [] {
      var prefix := docs[..|docs| - 1];
      var x := docs[|docs| - 1].id;
      LastIdFresh(docs);
      CountIsExistingIds(prefix, ids);
      IntersectWithFresh(ids, IdSet(prefix), x);
    }
  }

  /** The last document's id is new to the documents before it, and those have unique ids too. */
  lemma LastIdFresh(docs: seq<Doc>)
    requires UniqueIds(docs) && docs != []
    ensures var prefix := docs[..|docs| - 1];
            && UniqueIds(prefix)
            && docs[|docs| - 1].id !in IdSet(prefix)
            && IdSet(docs) == IdSet(prefix) + {docs[|docs| - 1].id}
  {
    var prefix := docs[..|docs| - 1];
    assert docs == prefix + [docs[|docs| - 1]];
    forall d | d in prefix ensures d.id != docs[|docs| - 1].id {
      var i :| 0 <= i < |prefix| && prefix[i] == d;
      assert docs[i] == d;
    }
  }

  /** Adding a fresh element to one side of an intersection adds at most that element. */
  lemma IntersectWithFresh(a: set<string>, b: set<string>, x: string)
    requires x !in b
    ensures |a * (b + {x})| == |a * b| + (if x in a then 1 else 0)
  {
    if x in a {
      assert a * (b + {x}) == (a * b) + {x};
    } else {
      assert a * (b + {x}) == a * b;
    }
  }

  /** A subset missing an element of the whole is strictly smaller. */
  lemma StrictSubsetSmaller(a: set<string>, b: set<string>, x: string)
    requires a <= b && x in b && x !in a
    ensures |a| < |b|
  {
    var c := b - a;
    assert b == a + c && a * c == {};
    assert x in c;
  }

  /** A sequence has as many distinct elements as entries exactly when it has no repeats. */
  lemma {:induction false} DistinctCount(ids: seq<string>)
    ensures |set x | x in ids| <= |ids|
    ensures |set x | x in ids| == |ids| <==> NoDup(ids)
  {
    if ids != [] {
      var prefix := ids[..|ids| - 1];
      var x := ids[|ids| - 1];
      DistinctCount(prefix);
      assert ids == prefix + [x];
      var sp := set y | y in prefix;
      assert (set y | y in ids) == sp + {x};
      if x in prefix {
        var i :| 0 <= i < |prefix| && prefix[i] == x;
        assert ids[i] == ids[|ids| - 1];
        assert (set y | y in ids) == sp;
      } else {
        assert NoDup(prefix) ==> NoDup(ids);
      }
      assert NoDup(ids) ==> NoDup(prefix);
    }
  }

  /**
   * An array reference is reported exactly when one of its ids does not
   * exist or an id is repeated: the distinct-match count is compared with
   * the array's length.
   */
  lemma ArrayRefMissingIff(docs: seq<Doc>, ids: seq<string>)
    requires UniqueIds(docs) && ids != []
    ensures CountMatching(docs, set x | x in ids) != |ids|
            <==> !NoDup(ids) || exists x | x in ids :: x !in IdSet(docs)
  {
    var s := set x | x in ids;
    CountIsExistingIds(docs, s);
    DistinctCount(ids);
    if forall x | x in ids :: x in IdSet(docs) {
      assert s * IdSet(docs) == s;
    } else {
      var x :| x in ids && x !in IdSet(docs);
      StrictSubsetSmaller(s * IdSet(docs), s, x);
    }
  }

  /** A repeated id in an array reference is reported even when the document exists. */
  lemma RepeatedIdIsReported(field: string, modelName: string, store: Store, id: string)
    requires UniqueIds(DocsOf(store, modelName)) && id in IdSet(DocsOf(store, modelName))
    ensures ValidateRefs(map[field := RefIds([id, id])], [RefCheck(field, modelName, true)], store).Some?
  {
    ArrayRefMissingIff(DocsOf(store, modelName), [id, id]);
    var ids := [id, id];
    assert ids[0] == ids[1];
  }
}
