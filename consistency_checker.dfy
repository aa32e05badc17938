/**
 * Cross-row consistency checks (backend/src/ingestion/validators/consistency-checker.ts):
 * duplicate unique values inside the file, duplicate unique values against
 * the store, and double-booked rooms and teachers in a timetable file.
 */
module ConsistencyChecker {

  import opened Wrappers
  import opened Text
  import opened IngestionTypes

  // ---------------------------------------------------------------------------
  // Duplicates inside the file
  // ---------------------------------------------------------------------------

  /** `String(row.data[field] ?? '').toLowerCase().trim()`. */
  function InFileKey(data: Data, field: string): string {
    Trim(Lower(if field in data then data[field] else ""))
  }

  function InFileDupError(rowNumber: int, field: string, value: string, firstRow: int): IngestionError {
    IngestionError(rowNumber, field, DuplicateInFile,
      "Duplicate '" + field + "' value '" + value + "' — first seen at row " + IntToString(firstRow))
  }

  /** A row reduced to what the in-file check looks at: its key for the field and its number. */
  datatype Keyed = Keyed(key: string, rowNumber: int)

  function KeyedRows(rows: seq<ParsedRow>, field: string): (ks: seq<Keyed>)
    ensures |ks| == |rows|
    ensures forall k | 0 <= k < |rows| :: ks[k] == Keyed(InFileKey(rows[k].data, field), rows[k].rowNumber)
  {
    seq(|rows|, k requires 0 <= k < |rows| => Keyed(InFileKey(rows[k].data, field), rows[k].rowNumber))
  }

  /** The `seen` table after the rows: each non-empty key to the number of the first row carrying it. */
  function Seen(ks: seq<Keyed>): map<string, int> {
    if ks == [] then map[]
    else
      var prefix := ks[..|ks| - 1];
      var last := ks[|ks| - 1];
      var seen := Seen(prefix);
      if last.key == "" || last.key in seen then seen else seen[last.key := last.rowNumber]
  }

  /** The `seen` table holds exactly the non-empty keys of the rows. */
  lemma {:induction false} SeenKeys(ks: seq<Keyed>)
    ensures forall v :: v in Seen(ks) <==> v != "" && exists k | 0 <= k < |ks| :: ks[k].key == v
  {
    if ks != [] {
      var prefix := ks[..|ks| - 1];
      SeenKeys(prefix);
      assert forall k | 0 <= k < |prefix| :: prefix[k] == ks[k];
    }
  }

  /** The DUPLICATE_IN_FILE errors of one field, in row order. */
  function DupErrors(ks: seq<Keyed>, field: string): seq<IngestionError> {
    if ks == [] then []
    else
      var prefix := ks[..|ks| - 1];
      var last := ks[|ks| - 1];
      var seen := Seen(prefix);
      DupErrors(prefix, field)
      + (if last.key != "" && last.key in seen then [InFileDupError(last.rowNumber, field, last.key, seen[last.key])] else [])
  }

  function FieldDupErrors(rows: seq<ParsedRow>, field: string): seq<IngestionError> {
    DupErrors(KeyedRows(rows, field), field)
  }

  /** `checkInFileDuplicates`: each unique field on its own, in field order. */
  function InFileDuplicates(rows: seq<ParsedRow>, fields: seq<string>): seq<IngestionError> {
    if fields == [] then []
    else InFileDuplicates(rows, fields[..|fields| - 1]) + FieldDupErrors(rows, fields[|fields| - 1])
  }

  /** The number of rows whose key is non-empty. */
  function NonEmptyCount(ks: seq<Keyed>): nat {
    if ks == [] then 0
    else NonEmptyCount(ks[..|ks| - 1]) + (if ks[|ks| - 1].key != "" then 1 else 0)
  }

  /** How the `seen` table and the errors grow by one row. */
  lemma SeenStep(ks: seq<Keyed>, field: string, i: nat)
    requires i < |ks|
    ensures var seen := Seen(ks[..i]);
            var last := ks[i];
            && Seen(ks[..i + 1]) == (if last.key == "" || last.key in seen then seen else seen[last.key := last.rowNumber])
            && DupErrors(ks[..i + 1], field)
               == DupErrors(ks[..i], field)
                  + (if last.key != "" && last.key in seen then [InFileDupError(last.rowNumber, field, last.key, seen[last.key])] else [])
  {
    assert ks[..i + 1][..i] == ks[..i];
    assert ks[..i + 1][i] == ks[i];
  }

  /** `SeenStep` in terms of the row itself. */
  lemma InFileStep(rows: seq<ParsedRow>, field: string, i: nat)
    requires i < |rows|
    ensures var ks := KeyedRows(rows, field);
            var value := InFileKey(rows[i].data, field);
            var seen := Seen(ks[..i]);
            && Seen(ks[..i + 1]) == (if value == "" || value in seen then seen else seen[value := rows[i].rowNumber])
            && DupErrors(ks[..i + 1], field)
               == DupErrors(ks[..i], field)
                  + (if value != "" && value in seen then [InFileDupError(rows[i].rowNumber, field, value, seen[value])] else [])
  {
    SeenStep(KeyedRows(rows, field), field, i);
  }

  /** The inner loop of `checkInFileDuplicates` for one field, with its own `seen` table. */
  method FieldInFileDuplicates(rows: seq<ParsedRow>, field: string) returns (errors: seq<IngestionError>)
    ensures errors == FieldDupErrors(rows, field)
  {
    ghost var ks := KeyedRows(rows, field);
    errors := [];
    var seen: map<string, int> := map[];
    for i := 0 to |rows|
      invariant seen == Seen(ks[..i])
      invariant errors == DupErrors(ks[..i], field)
    {
      InFileStep(rows, field, i);
      var row := rows[i];
      var value := InFileKey(row.data, field);
      if value != "" {
        if value in seen {
          errors := errors + [InFileDupError(row.rowNumber, field, value, seen[value])];
        } else {
          seen := seen[value := row.rowNumber];
        }
      }
    }
    assert ks[..|rows|] == ks;
  }

  /** `checkInFileDuplicates`. */
  method CheckInFileDuplicates(rows: seq<ParsedRow>, uniqueFields: seq<string>) returns (errors: seq<IngestionError>)
    ensures errors == InFileDuplicates(rows, uniqueFields)
  {
    errors := [];
    for f := 0 to |uniqueFields|
      invariant errors == InFileDuplicates(rows, uniqueFields[..f])
    {
      assert uniqueFields[..f + 1][..f] == uniqueFields[..f];
      var fieldErrors := FieldInFileDuplicates(rows, uniqueFields[f]);
      errors := errors + fieldErrors;
    }
    assert uniqueFields[..|uniqueFields|] == uniqueFields;
  }

  /** Per field, the duplicates reported are the non-empty rows less the distinct non-empty keys. */
  lemma {:induction false} DupCount(ks: seq<Keyed>, field: string)
    ensures |DupErrors(ks, field)| + |Seen(ks).Keys| == NonEmptyCount(ks)
  {
    if ks != [] {
      var prefix := ks[..|ks| - 1];
      DupCount(prefix, field);
      var last := ks[|ks| - 1];
      var seen := Seen(prefix);
      if last.key != "" && last.key !in seen {
        assert Seen(ks).Keys == seen.Keys + {last.key};
      }
    }
  }

  /** The row the `seen` table cites for a key is the first row carrying it. */
  lemma {:induction false} SeenIsFirstRow(ks: seq<Keyed>, v: string)
    requires v in Seen(ks)
    ensures exists j | 0 <= j < |ks| :: ks[j].key == v && Seen(ks)[v] == ks[j].rowNumber
                                        && forall i | 0 <= i < j :: ks[i].key != v
  {
    var prefix := ks[..|ks| - 1];
    assert forall k | 0 <= k < |prefix| :: prefix[k] == ks[k];
    SeenKeys(prefix);
    if v in Seen(prefix) {
      SeenIsFirstRow(prefix, v);
    } else {
      var j := |ks| - 1;
      assert forall i | 0 <= i < j :: ks[i].key != v;
    }
  }

  /** The errors of a prefix of the rows are a prefix of the errors. */
  lemma {:induction false} DupErrorsPrefix(ks: seq<Keyed>, field: string, n: nat)
    requires n <= |ks|
    ensures DupErrors(ks[..n], field) <= DupErrors(ks, field)
    decreases |ks|
  {
    if n < |ks| {
      var prefix := ks[..|ks| - 1];
      DupErrorsPrefix(prefix, field, n);
      assert prefix[..n] == ks[..n];
      PrefixOfLonger(DupErrors(ks[..n], field), DupErrors(prefix, field), DupErrors(ks, field));
    } else {
      assert ks[..n] == ks;
    }
  }

  /** Being a prefix is transitive. */
  lemma PrefixOfLonger(a: seq<IngestionError>, b: seq<IngestionError>, c: seq<IngestionError>)
    requires a <= b && b <= c
    ensures a <= c
  {
    assert c[..|a|] == c[..|b|][..|a|];
  }

  /** A row's key is in the `seen` table of the rows before it exactly when an earlier row carries it. */
  lemma SeenBefore(ks: seq<Keyed>, k: nat)
    requires k < |ks| && ks[k].key != ""
    ensures (exists j | 0 <= j < k :: ks[j].key == ks[k].key) <==> ks[k].key in Seen(ks[..k])
  {
    SeenKeys(ks[..k]);
    assert forall j | 0 <= j < k :: ks[..k][j] == ks[j];
  }

  /**
   * A row whose non-empty key an earlier row carries is reported for the
   * field, citing the row the `seen` table holds for the key, which is the
   * first row carrying it (`SeenIsFirstRow`).
   */
  lemma DupReported(ks: seq<Keyed>, field: string, k: nat)
    requires k < |ks| && ks[k].key != ""
    requires exists j | 0 <= j < k :: ks[j].key == ks[k].key
    ensures ks[k].key in Seen(ks[..k])
    ensures InFileDupError(ks[k].rowNumber, field, ks[k].key, Seen(ks[..k])[ks[k].key]) in DupErrors(ks, field)
  {
    SeenBefore(ks, k);
    SeenKeyReported(ks, field, k);
  }

  /** A row whose key is already in the `seen` table is among the errors of the whole file. */
  lemma SeenKeyReported(ks: seq<Keyed>, field: string, k: nat)
    requires k < |ks| && ks[k].key != "" && ks[k].key in Seen(ks[..k])
    ensures InFileDupError(ks[k].rowNumber, field, ks[k].key, Seen(ks[..k])[ks[k].key]) in DupErrors(ks, field)
  {
    var e := InFileDupError(ks[k].rowNumber, field, ks[k].key, Seen(ks[..k])[ks[k].key]);
    ReportedAtStep(ks, field, k);
    DupErrorsPrefix(ks, field, k + 1);
    InPrefix(e, DupErrors(ks[..k + 1], field), DupErrors(ks, field));
  }

  /** A row whose key is already in the `seen` table is reported by its own step. */
  lemma ReportedAtStep(ks: seq<Keyed>, field: string, k: nat)
    requires k < |ks| && ks[k].key != "" && ks[k].key in Seen(ks[..k])
    ensures InFileDupError(ks[k].rowNumber, field, ks[k].key, Seen(ks[..k])[ks[k].key]) in DupErrors(ks[..k + 1], field)
  {
    SeenStep(ks, field, k);
  }

  lemma InPrefix(e: IngestionError, a: seq<IngestionError>, b: seq<IngestionError>)
    requires e in a && a <= b
    ensures e in b
  {
    var i :| 0 <= i < |a| && a[i] == e;
    assert b[i] == e;
  }

  /** The first row carrying a key is never reported. */
  lemma FirstNotReported(ks: seq<Keyed>, field: string, k: nat)
    requires k < |ks| && forall j | 0 <= j < k :: ks[j].key != ks[k].key
    ensures DupErrors(ks[..k + 1], field) == DupErrors(ks[..k], field)
  {
    SeenKeys(ks[..k]);
    SeenStep(ks, field, k);
    assert forall j | 0 <= j < k :: ks[..k][j] == ks[j];
  }

  /** Every DUPLICATE_IN_FILE error reports a row whose non-empty key an earlier row carries. */
  lemma {:induction false} DupErrorsSound(ks: seq<Keyed>, field: string)
    ensures forall e | e in DupErrors(ks, field) ::
              && e.code == DuplicateInFile && e.column == field
              && exists k | 0 <= k < |ks| :: e.row == ks[k].rowNumber && ks[k].key != ""
                                            && exists j | 0 <= j < k :: ks[j].key == ks[k].key
  {
    if ks != [] {
      var prefix := ks[..|ks| - 1];
      DupErrorsSound(prefix, field);
      assert forall k | 0 <= k < |prefix| :: prefix[k] == ks[k];
      var last := ks[|ks| - 1];
      if last.key != "" && last.key in Seen(prefix) {
        SeenKeys(prefix);
        var j :| 0 <= j < |prefix| && prefix[j].key == last.key;
      }
    }
  }

  // ---------------------------------------------------------------------------
  // Duplicates against the store
  // ---------------------------------------------------------------------------

  /** A row with a value for the field, as the store check sees it: trimmed, and lower-cased. */
  datatype DbEntry = DbEntry(original: string, normalised: string, rowNumber: int)

  /** The rows with a value for the field (absent and empty cells are skipped), in order. */
  function DbEntries(rows: seq<ParsedRow>, field: string): (es: seq<DbEntry>)
    ensures |es| <= |rows|
    ensures forall k | 0 <= k < |es| :: Trim(es[k].original) == es[k].original && es[k].normalised == Lower(es[k].original)
  {
    if rows == [] then []
    else
      var rest := DbEntries(rows[..|rows| - 1], field);
      var row := rows[|rows| - 1];
      if field in row.data && row.data[field] != "" then
        var original := Trim(row.data[field]);
        TrimIdempotent(row.data[field]);
        rest + [DbEntry(original, Lower(original), row.rowNumber)]
      else rest
  }

  /** Every entry's normalised value is its own spelling lower-cased and trimmed. */
  predicate Normalised(es: seq<DbEntry>) {
    forall k | 0 <= k < |es| :: Trim(es[k].original) == es[k].original && es[k].normalised == Lower(es[k].original)
  }

  /** `normalToOriginal`: each normalised value to its first-seen trimmed spelling. */
  function FirstSpelling(es: seq<DbEntry>): (m: map<string, string>)
    ensures forall v :: v in m <==> exists k | 0 <= k < |es| :: es[k].normalised == v
    ensures forall v | v in m :: exists k | 0 <= k < |es| :: es[k].normalised == v && es[k].original == m[v]
  {
    if es == [] then map[]
    else
      var prefix := es[..|es| - 1];
      var e := es[|es| - 1];
      assert forall k | 0 <= k < |prefix| :: prefix[k] == es[k];
      var m := FirstSpelling(prefix);
      if e.normalised in m then m else m[e.normalised := e.original]
  }

  /** `normalToRows`: each normalised value to the numbers of the rows carrying it, in order. */
  function RowsOf(es: seq<DbEntry>): (m: map<string, seq<int>>)
    ensures forall v :: v in m <==> exists k | 0 <= k < |es| :: es[k].normalised == v
  {
    if es == [] then map[]
    else
      var prefix := es[..|es| - 1];
      var e := es[|es| - 1];
      assert forall k | 0 <= k < |prefix| :: prefix[k] == es[k];
      var m := RowsOf(prefix);
      m[e.normalised := (if e.normalised in m then m[e.normalised] else []) + [e.rowNumber]]
  }

  /** Every entry's row is listed under its normalised value, and only those rows are. */
  lemma RowsOfExact(es: seq<DbEntry>)
    ensures forall k | 0 <= k < |es| :: es[k].normalised in RowsOf(es) && es[k].rowNumber in RowsOf(es)[es[k].normalised]
    ensures forall v, rn | v in RowsOf(es) && rn in RowsOf(es)[v] :: exists k | 0 <= k < |es| :: es[k].normalised == v && es[k].rowNumber == rn
  {
    RowsOfComplete(es);
    RowsOfSound(es);
  }

  /** Every entry's row is listed under its normalised value. */
  lemma {:induction false} RowsOfComplete(es: seq<DbEntry>)
    ensures forall k | 0 <= k < |es| :: es[k].normalised in RowsOf(es) && es[k].rowNumber in RowsOf(es)[es[k].normalised]
  {
    if es != [] {
      var prefix := es[..|es| - 1];
      var e := es[|es| - 1];
      RowsOfComplete(prefix);
      var m := RowsOf(prefix);
      var previous := if e.normalised in m then m[e.normalised] else [];
      assert RowsOf(es) == m[e.normalised := previous + [e.rowNumber]];
      forall k | 0 <= k < |es| ensures es[k].normalised in RowsOf(es) && es[k].rowNumber in RowsOf(es)[es[k].normalised] {
        if k < |prefix| {
          assert prefix[k] == es[k];
        }
      }
    }
  }

  /** Only the entries' rows are listed, each under its own normalised value. */
  lemma {:induction false} RowsOfSound(es: seq<DbEntry>)
    ensures forall v, rn | v in RowsOf(es) && rn in RowsOf(es)[v] :: exists k | 0 <= k < |es| :: es[k].normalised == v && es[k].rowNumber == rn
  {
    if es != [] {
      var prefix := es[..|es| - 1];
      var e := es[|es| - 1];
      RowsOfSound(prefix);
      var m := RowsOf(prefix);
      var previous := if e.normalised in m then m[e.normalised] else [];
      assert RowsOf(es) == m[e.normalised := previous + [e.rowNumber]];
      forall v, rn | v in RowsOf(es) && rn in RowsOf(es)[v]
        ensures exists k | 0 <= k < |es| :: es[k].normalised == v && es[k].rowNumber == rn
      {
        if v == e.normalised && rn !in previous {
          assert es[|es| - 1].normalised == v && es[|es| - 1].rowNumber == rn;
        } else {
          var k :| 0 <= k < |prefix| && prefix[k].normalised == v && prefix[k].rowNumber == rn;
          assert es[k] == prefix[k];
        }
      }
    }
  }

  /** The key the store check compares a stored document by. */
  function StoredKey(d: Doc, field: string): string {
    Trim(Lower(FieldText(d, field)))
  }

  function StoredKeys(found: seq<Doc>, field: string): (keys: seq<string>)
    ensures |keys| == |found|
    ensures forall i | 0 <= i < |found| :: keys[i] == StoredKey(found[i], field)
  {
    seq(|found|, i requires 0 <= i < |found| => StoredKey(found[i], field))
  }

  /** `existingNormalised`: the found documents' keys without repeats, in document order. */
  function ExistingNormalised(found: seq<Doc>, field: string): (r: seq<string>)
    ensures NoDup(r)
    ensures forall v :: v in r <==> exists d | d in found :: StoredKey(d, field) == v
  {
    var keys := StoredKeys(found, field);
    assert forall v :: v in keys <==> exists d | d in found :: StoredKey(d, field) == v by {
      forall v | v in keys ensures exists d | d in found :: StoredKey(d, field) == v {
        var i :| 0 <= i < |keys| && keys[i] == v;
        assert found[i] in found;
      }
      forall v | exists d | d in found :: StoredKey(d, field) == v ensures v in keys {
        var d :| d in found && StoredKey(d, field) == v;
        var i :| 0 <= i < |found| && found[i] == d;
        assert keys[i] == v;
      }
    }
    AddAllFacts([], keys);
    AddAll([], keys)
  }

  function DbDupError(rowNumber: int, field: string, value: string): IngestionError {
    IngestionError(rowNumber, field, DuplicateInDb, "'" + field + "' value '" + value + "' already exists in database")
  }

  /** The value a DUPLICATE_IN_DB error names can be read back from its message. */
  lemma DbDupErrorInjective(r1: int, r2: int, field: string, v: string, w: string)
    requires DbDupError(r1, field, v) == DbDupError(r2, field, w)
    ensures r1 == r2 && v == w
  {
    var head := "'" + field + "' value '";
    var tail := "' already exists in database";
    var m1, m2 := head + v + tail, head + w + tail;
    assert m1 == m2;
    assert |v| == |w|;
    assert m1[|head|..|head| + |v|] == v;
    assert m2[|head|..|head| + |w|] == w;
  }

  /** One DUPLICATE_IN_DB per row carrying each existing value, value by value. */
  function DbErrorsFor(values: seq<string>, rowsOf: map<string, seq<int>>, field: string): (errs: seq<IngestionError>)
    ensures forall e | e in errs :: exists v | v in values && v in rowsOf :: exists rn | rn in rowsOf[v] :: e == DbDupError(rn, field, v)
    ensures forall v, rn | v in values && v in rowsOf && rn in rowsOf[v] :: DbDupError(rn, field, v) in errs
  {
    if values == [] then []
    else
      var v := values[|values| - 1];
      var rns := if v in rowsOf then rowsOf[v] else [];
      var rest := DbErrorsFor(values[..|values| - 1], rowsOf, field);
      var here := seq(|rns|, k requires 0 <= k < |rns| => DbDupError(rns[k], field, v));
      assert values == values[..|values| - 1] + [v];
      assert forall rn | rn in rns :: DbDupError(rn, field, v) in here by {
        forall rn | rn in rns ensures DbDupError(rn, field, v) in here {
          var k :| 0 <= k < |rns| && rns[k] == rn;
          assert here[k] == DbDupError(rn, field, v);
        }
      }
      rest + here
  }
  /** The model a field is checked against: its override, or the entity's own model. */
  function EffectiveModel(field: string, modelName: string, overrides: map<string, string>): string {
    if field in overrides then overrides[field] else modelName
  }

  /** The documents the store returns for a field: those whose value is one of the first-seen spellings. */
  function DbFound(es: seq<DbEntry>, field: string, model: string, store: Store): seq<Doc> {
    FindIn(DocsOf(store, model), field, FirstSpelling(es).Values)
  }

  /** The store check of one field; a field without values is not looked up. */
  function FieldDbErrors(rows: seq<ParsedRow>, field: string, model: string, store: Store): seq<IngestionError> {
    var es := DbEntries(rows, field);
    if |RowsOf(es)| == 0 then []
    else DbErrorsFor(ExistingNormalised(DbFound(es, field, model, store), field), RowsOf(es), field)
  }

  /** `checkDbDuplicates`: each unique field on its own, in field order. */
  function DbDuplicates(rows: seq<ParsedRow>, fields: seq<string>, modelName: string, overrides: map<string, string>, store: Store)
    : seq<IngestionError>
  {
    if fields == [] then []
    else
      var field := fields[|fields| - 1];
      DbDuplicates(rows, fields[..|fields| - 1], modelName, overrides, store)
      + FieldDbErrors(rows, field, EffectiveModel(field, modelName, overrides), store)
  }

  /** A first-seen spelling is found again by the store's key: lower-casing and trimming it gives its own normalised value. */
  lemma FirstSpellingKey(es: seq<DbEntry>, v: string, d: Doc, field: string)
    requires Normalised(es) && v in FirstSpelling(es)
    requires field in d.fields && d.fields[field] == FirstSpelling(es)[v]
    ensures StoredKey(d, field) == v
  {
    var k :| 0 <= k < |es| && es[k].normalised == v && es[k].original == FirstSpelling(es)[v];
    TrimLowerCommute(es[k].original);
  }

  /** The store holds a document whose field is exactly the first-seen spelling of `v`. */
  predicate SpellingStored(es: seq<DbEntry>, v: string, docs: seq<Doc>, field: string)
    requires v in FirstSpelling(es)
  {
    exists d | d in docs :: field in d.fields && d.fields[field] == FirstSpelling(es)[v]
  }

  /**
   * A row with a value is reported as already in the store exactly when the
   * store holds a document whose field is, character for character, the
   * first-seen trimmed spelling of that row's lower-cased value.
   */
  lemma DbDuplicateIff(rows: seq<ParsedRow>, field: string, model: string, store: Store, k: nat)
    requires k < |DbEntries(rows, field)|
    ensures var es := DbEntries(rows, field);
            var e := es[k];
            DbDupError(e.rowNumber, field, e.normalised) in FieldDbErrors(rows, field, model, store)
            <==> SpellingStored(es, e.normalised, DocsOf(store, model), field)
  {
    var es := DbEntries(rows, field);
    var e := es[k];
    if DbDupError(e.rowNumber, field, e.normalised) in FieldDbErrors(rows, field, model, store) {
      ReportedOnlyIfStored(rows, field, model, store, k);
    }
    if SpellingStored(es, e.normalised, DocsOf(store, model), field) {
      ReportedIfStored(rows, field, model, store, k);
    }
  }

  lemma ReportedOnlyIfStored(rows: seq<ParsedRow>, field: string, model: string, store: Store, k: nat)
    requires k < |DbEntries(rows, field)|
    requires var e := DbEntries(rows, field)[k];
             DbDupError(e.rowNumber, field, e.normalised) in FieldDbErrors(rows, field, model, store)
    ensures var es := DbEntries(rows, field);
            es[k].normalised in FirstSpelling(es) && SpellingStored(es, es[k].normalised, DocsOf(store, model), field)
  {
    var e := DbEntries(rows, field)[k];
    ReportedValueExists(rows, field, model, store, e.rowNumber, e.normalised);
    ExistingIsStored(DbEntries(rows, field), field, model, store, e.normalised);
  }

  /** A reported value is one of the keys the store returned, and the reported row carries it. */
  lemma ReportedValueExists(rows: seq<ParsedRow>, field: string, model: string, store: Store, rn: int, v: string)
    requires DbDupError(rn, field, v) in FieldDbErrors(rows, field, model, store)
    ensures var es := DbEntries(rows, field);
            && v in ExistingNormalised(DbFound(es, field, model, store), field)
            && v in RowsOf(es) && rn in RowsOf(es)[v]
  {
    var es := DbEntries(rows, field);
    var rowsOf := RowsOf(es);
    assert |rowsOf| != 0;
    var existing := ExistingNormalised(DbFound(es, field, model, store), field);
    assert DbDupError(rn, field, v) in DbErrorsFor(existing, rowsOf, field);
    var w :| w in existing && w in rowsOf && exists rn' | rn' in rowsOf[w] :: DbDupError(rn, field, v) == DbDupError(rn', field, w);
    var rn' :| rn' in rowsOf[w] && DbDupError(rn, field, v) == DbDupError(rn', field, w);
    DbDupErrorInjective(rn, rn', field, v, w);
  }

  /** A key the store returned is the key of a first-seen spelling stored character for character. */
  lemma ExistingIsStored(es: seq<DbEntry>, field: string, model: string, store: Store, v: string)
    requires Normalised(es)
    requires v in ExistingNormalised(DbFound(es, field, model, store), field)
    ensures v in FirstSpelling(es) && SpellingStored(es, v, DocsOf(store, model), field)
  {
    var spelling := FirstSpelling(es);
    var found := DbFound(es, field, model, store);
    var d :| d in found && StoredKey(d, field) == v;
    var w :| w in spelling && spelling[w] == d.fields[field];
    FirstSpellingKey(es, w, d, field);
    assert d in DocsOf(store, model);
  }

  lemma ReportedIfStored(rows: seq<ParsedRow>, field: string, model: string, store: Store, k: nat)
    requires k < |DbEntries(rows, field)|
    requires var es := DbEntries(rows, field);
             es[k].normalised in FirstSpelling(es) && SpellingStored(es, es[k].normalised, DocsOf(store, model), field)
    ensures var e := DbEntries(rows, field)[k];
            DbDupError(e.rowNumber, field, e.normalised) in FieldDbErrors(rows, field, model, store)
  {
    var es := DbEntries(rows, field);
    var e := es[k];
    var spelling := FirstSpelling(es);
    var rowsOf := RowsOf(es);
    RowsOfExact(es);
    assert e.normalised in rowsOf && e.rowNumber in rowsOf[e.normalised];
    assert |rowsOf| != 0;
    var found := DbFound(es, field, model, store);
    var d :| d in DocsOf(store, model) && field in d.fields && d.fields[field] == spelling[e.normalised];
    assert d in found;
    FirstSpellingKey(es, e.normalised, d, field);
    var existing := ExistingNormalised(found, field);
    assert e.normalised in existing;
    assert FieldDbErrors(rows, field, model, store) == DbErrorsFor(existing, rowsOf, field);
  }

  /** The error is for an entry whose key some stored document also has. */
  predicate DbErrorJustified(es: seq<DbEntry>, docs: seq<Doc>, field: string, err: IngestionError) {
    exists k | 0 <= k < |es| :: EntryJustifies(es[k], docs, field, err)
  }

  predicate EntryJustifies(e: DbEntry, docs: seq<Doc>, field: string, err: IngestionError) {
    && err == DbDupError(e.rowNumber, field, e.normalised)
    && exists d | d in docs :: StoredKey(d, field) == e.normalised
  }

  /** Every DUPLICATE_IN_DB error names a row with a value and a stored document with the same key. */
  lemma DbDuplicateSound(rows: seq<ParsedRow>, field: string, model: string, store: Store, err: IngestionError)
    requires err in FieldDbErrors(rows, field, model, store)
    ensures DbErrorJustified(DbEntries(rows, field), DocsOf(store, model), field, err)
  {
    var es := DbEntries(rows, field);
    assert |RowsOf(es)| != 0;
    var existing := ExistingNormalised(DbFound(es, field, model, store), field);
    assert err in DbErrorsFor(existing, RowsOf(es), field);
    var v :| v in existing && v in RowsOf(es) && exists rn | rn in RowsOf(es)[v] :: err == DbDupError(rn, field, v);
    var rn :| rn in RowsOf(es)[v] && err == DbDupError(rn, field, v);
    ExistingJustifies(es, field, model, store, v, rn);
  }

  /** A stored key and a row listed under it justify that row's error. */
  lemma ExistingJustifies(es: seq<DbEntry>, field: string, model: string, store: Store, v: string, rn: int)
    requires v in ExistingNormalised(DbFound(es, field, model, store), field)
    requires v in RowsOf(es) && rn in RowsOf(es)[v]
    ensures DbErrorJustified(es, DocsOf(store, model), field, DbDupError(rn, field, v))
  {
    var k: nat :| k < |es| && es[k].normalised == v && es[k].rowNumber == rn by {
      RowsOfExact(es);
    }
    var d :| d in DbFound(es, field, model, store) && StoredKey(d, field) == v;
    assert d in DocsOf(store, model);
    assert EntryJustifies(es[k], DocsOf(store, model), field, DbDupError(rn, field, v));
  }

  /**
   * The store is queried with the file's own spelling, case and all: a stored
   * `ABC` does not make a row `abc` a duplicate, although both have the same key.
   */
  lemma CaseVariantNotDetected()
    ensures var rows := [ParsedRow(2, map["code" := "abc"])];
            var store := map["Subject" := [Doc("s1", map["code" := "ABC"])]];
            && InFileKey(rows[0].data, "code") == StoredKey(store["Subject"][0], "code")
            && FieldDbErrors(rows, "code", "Subject", store) == []
  {
    var rows := [ParsedRow(2, map["code" := "abc"])];
    var store := map["Subject" := [Doc("s1", map["code" := "ABC"])]];
    var es := DbEntries(rows, "code");
    assert rows[..0] == [];
    assert es == [DbEntry(Trim("abc"), Lower(Trim("abc")), 2)];
    assert Trim("abc") == "abc";
    assert Lower("abc") == "abc";
    assert Lower("ABC") == "abc";
    assert Trim("abc") == "abc";
    assert FirstSpelling(es) == map["abc" := "abc"];
    assert DbFound(es, "code", "Subject", store) == [];
  }

  /** How the entries grow by one row. */
  lemma CollectStep(rows: seq<ParsedRow>, field: string, i: nat)
    requires i < |rows|
    ensures var row := rows[i];
            if field in row.data && row.data[field] != "" then
              DbEntries(rows[..i + 1], field)
              == DbEntries(rows[..i], field) + [DbEntry(Trim(row.data[field]), Lower(Trim(row.data[field])), row.rowNumber)]
            else DbEntries(rows[..i + 1], field) == DbEntries(rows[..i], field)
  {
    assert rows[..i + 1][..i] == rows[..i];
  }

  /** How `normalToRows` grows by one entry. */
  lemma RowsOfSnoc(es: seq<DbEntry>, e: DbEntry)
    ensures var m := RowsOf(es);
            RowsOf(es + [e]) == m[e.normalised := (if e.normalised in m then m[e.normalised] else []) + [e.rowNumber]]
  {
    assert (es + [e])[..|es|] == es;
  }

  /** How `normalToOriginal` grows by one entry. */
  lemma FirstSpellingSnoc(es: seq<DbEntry>, e: DbEntry)
    ensures var m := FirstSpelling(es);
            FirstSpelling(es + [e]) == if e.normalised in m then m else m[e.normalised := e.original]
  {
    assert (es + [e])[..|es|] == es;
  }

  /** The first loop of `checkDbDuplicates` for one field: `normalToRows` and `normalToOriginal`. */
  method CollectValues(rows: seq<ParsedRow>, field: string) returns (rowsOf: map<string, seq<int>>, spelling: map<string, string>)
    ensures rowsOf == RowsOf(DbEntries(rows, field))
    ensures spelling == FirstSpelling(DbEntries(rows, field))
  {
    rowsOf, spelling := map[], map[];
    for i := 0 to |rows|
      invariant rowsOf == RowsOf(DbEntries(rows[..i], field))
      invariant spelling == FirstSpelling(DbEntries(rows[..i], field))
    {
      CollectStep(rows, field, i);
      var row := rows[i];
      if field in row.data && row.data[field] != "" {
        var original := Trim(row.data[field]);
        var normalised := Lower(original);
        RowsOfSnoc(DbEntries(rows[..i], field), DbEntry(original, normalised, row.rowNumber));
        FirstSpellingSnoc(DbEntries(rows[..i], field), DbEntry(original, normalised, row.rowNumber));
        if normalised !in spelling {
          spelling := spelling[normalised := original];
        }
        var existing := if normalised in rowsOf then rowsOf[normalised] else [];
        rowsOf := rowsOf[normalised := existing + [row.rowNumber]];
      }
    }
    assert rows[..|rows|] == rows;
  }

  /** How the insertion-ordered set of stored keys grows by one document. */
  lemma ExistingStep(found: seq<Doc>, field: string, i: nat)
    requires i < |found|
    ensures var keys := StoredKeys(found, field);
            var acc := AddAll([], keys[..i]);
            var key := StoredKey(found[i], field);
            AddAll([], keys[..i + 1]) == if key in acc then acc else acc + [key]
  {
    var keys := StoredKeys(found, field);
    assert keys[..i + 1][..i] == keys[..i];
  }

  /** After the last document, the set is the one `existingNormalised` holds. */
  lemma ExistingDone(found: seq<Doc>, field: string)
    ensures AddAll([], StoredKeys(found, field)[..|found|]) == ExistingNormalised(found, field)
  {
    assert StoredKeys(found, field)[..|found|] == StoredKeys(found, field);
  }

  /** The lower-cased, trimmed values of the documents found, as a set that keeps insertion order. */
  method CollectExisting(found: seq<Doc>, field: string) returns (existing: seq<string>)
    ensures existing == ExistingNormalised(found, field)
  {
    existing := [];
    for i := 0 to |found|
      invariant existing == AddAll([], StoredKeys(found, field)[..i])
    {
      ExistingStep(found, field, i);
      var key := StoredKey(found[i], field);
      if key !in existing {
        existing := existing + [key];
      }
    }
    ExistingDone(found, field);
  }

  /** The last loop of `checkDbDuplicates` for one field: an error per affected row of each existing value. */
  method ReportExisting(existing: seq<string>, rowsOf: map<string, seq<int>>, field: string) returns (errors: seq<IngestionError>)
    ensures errors == DbErrorsFor(existing, rowsOf, field)
  {
    errors := [];
    for i := 0 to |existing|
      invariant errors == DbErrorsFor(existing[..i], rowsOf, field)
    {
      assert existing[..i + 1][..i] == existing[..i];
      ghost var before := errors;
      var v := existing[i];
      var affected := if v in rowsOf then rowsOf[v] else [];
      for j := 0 to |affected|
        invariant errors == before + seq(j, k requires 0 <= k < j => DbDupError(affected[k], field, v))
      {
        errors := errors + [DbDupError(affected[j], field, v)];
      }
    }
    assert existing[..|existing|] == existing;
  }

  /** The body of `checkDbDuplicates` for one field against the documents of `model`. */
  method FieldDbDuplicates(rows: seq<ParsedRow>, field: string, model: string, store: Store) returns (errors: seq<IngestionError>)
    ensures errors == FieldDbErrors(rows, field, model, store)
  {
    var rowsOf, spelling := CollectValues(rows, field);
    if |rowsOf| == 0 {
      return [];
    }
    var found := FindIn(DocsOf(store, model), field, spelling.Values);
    var existing := CollectExisting(found, field);
    errors := ReportExisting(existing, rowsOf, field);
  }

  /** `checkDbDuplicates`, with the store's `find` as a query on `store`. */
  method CheckDbDuplicates(rows: seq<ParsedRow>, uniqueFields: seq<string>, modelName: string,
                           overrides: map<string, string>, store: Store)
    returns (errors: seq<IngestionError>)
    ensures errors == DbDuplicates(rows, uniqueFields, modelName, overrides, store)
  {
    errors := [];
    for f := 0 to |uniqueFields|
      invariant errors == DbDuplicates(rows, uniqueFields[..f], modelName, overrides, store)
    {
      assert uniqueFields[..f + 1][..f] == uniqueFields[..f];
      var field := uniqueFields[f];
      var model := if field in overrides then overrides[field] else modelName;
      var fieldErrors := FieldDbDuplicates(rows, field, model, store);
      errors := errors + fieldErrors;
    }
    assert uniqueFields[..|uniqueFields|] == uniqueFields;
  }
}
