/**
 * The import orchestrator `ingestCsv` (backend/src/ingestion/pipeline.ts):
 * a precondition gate, the header gate of the parser, then a chain of stages
 * that only ever remove rows (schema validation, duplicates inside the file,
 * relation resolution, duplicates against the store, timetable overlaps),
 * and finally the surviving rows persisted in consecutive batches of 500
 * with a progress report after each batch. The entity's schema and its
 * `persist` routine are parameters; the store is read, never written.
 */
module Pipeline {

  import opened Wrappers
  import opened Text
  import opened IngestionTypes
  import opened CsvParser
  import opened RowValidator
  import opened RelationResolver
  import opened ConsistencyChecker
  import opened TimetableOverlaps
  import opened EntityConfigs

  /** `BATCH_SIZE`. */
  const BatchSize: nat := 500

  /**
   * The column the overlap check reads the room from, as written: `room_id`,
   * a column no timetable row carries (see
   * `TimetableOverlaps.RoomIdKeyConflatesRooms`).
   */
  const SourceRoomColumn: string := "room_id"

  /**
   * The column the room is evidently meant to be read from: the file's
   * `room_number`, which relation resolution has turned into the room's id
   * (see `TimetableOverlaps.RoomConflictsShareRoom`).
   */
  const CorrectedRoomColumn: string := "room_number"

  /** A `persist` routine: the errors it reports for one batch of records. */
  type Persist = seq<Data> -> seq<IngestionError>

  /** The rows a stage lets through and the errors it reports. */
  datatype StageResult = StageResult(rows: seq<ParsedRow>, errors: seq<IngestionError>)

  // ----- preconditions -----

  function PreconditionError(modelName: string): IngestionError {
    IngestionError(0, "", PreconditionFailed,
      "Import requires at least one " + modelName + " to exist. Please create " + modelName + " records first.")
  }

  /** `checkPreconditions`: one row-0 PRECONDITION_FAILED per required model without documents. */
  function PreconditionErrors(preconditions: seq<string>, store: Store): (errs: seq<IngestionError>)
    ensures forall e :: e in errs <==> exists m | m in preconditions :: !HasAny(store, m) && e == PreconditionError(m)
    ensures errs == [] <==> forall m | m in preconditions :: HasAny(store, m)
  {
    if preconditions == [] then []
    else
      var m := preconditions[|preconditions| - 1];
      PreconditionErrors(preconditions[..|preconditions| - 1], store)
      + (if HasAny(store, m) then [] else [PreconditionError(m)])
  }

  method CheckPreconditions(preconditions: seq<string>, store: Store) returns (errors: seq<IngestionError>)
    ensures errors == PreconditionErrors(preconditions, store)
  {
    errors := [];
    for i := 0 to |preconditions|
      invariant errors == PreconditionErrors(preconditions[..i], store)
    {
      assert preconditions[..i + 1][..i] == preconditions[..i];
      if !HasAny(store, preconditions[i]) {
        errors := errors + [PreconditionError(preconditions[i])];
      }
    }
    assert preconditions[..|preconditions|] == preconditions;
  }

  // ----- stages -----

  /** The validation loop: valid rows with their parsed record, and the errors of the others, in row order. */
  function Validated(rows: seq<ParsedRow>, schema: Schema): StageResult {
    if rows == [] then StageResult([], [])
    else
      var prev := Validated(rows[..|rows| - 1], schema);
      var row := rows[|rows| - 1];
      match ValidateRow(schema, row.data, row.rowNumber, None)
      case Valid(d) => StageResult(prev.rows + [ParsedRow(row.rowNumber, d)], prev.errors)
      case Invalid(errs) => StageResult(prev.rows, prev.errors + errs)
  }

  method ValidateRows(rows: seq<ParsedRow>, schema: Schema) returns (validated: seq<ParsedRow>, errors: seq<IngestionError>)
    ensures StageResult(validated, errors) == Validated(rows, schema)
  {
    validated, errors := [], [];
    for i := 0 to |rows|
      invariant StageResult(validated, errors) == Validated(rows[..i], schema)
    {
      assert rows[..i + 1][..i] == rows[..i];
      var result := ValidateRow(schema, rows[i].data, rows[i].rowNumber, None);
      if result.Valid? {
        validated := validated + [ParsedRow(rows[i].rowNumber, result.data)];
      } else {
        errors := errors + result.errors;
      }
    }
    assert rows[..|rows|] == rows;
  }

  /** The rows some error names. */
  function ErrorRows(errs: seq<IngestionError>): set<int> {
    set e | e in errs :: e.row
  }

  /** `rows.filter(r => !bad.has(r.rowNumber))`. */
  function DropRows(rows: seq<ParsedRow>, bad: set<int>): (kept: seq<ParsedRow>)
    ensures |kept| <= |rows|
    ensures forall r :: r in kept <==> r in rows && r.rowNumber !in bad
  {
    if rows == [] then []
    else
      var prev := DropRows(rows[..|rows| - 1], bad);
      var row := rows[|rows| - 1];
      assert rows == rows[..|rows| - 1] + [row];
      if row.rowNumber in bad then prev else prev + [row]
  }

  method FilterRows(rows: seq<ParsedRow>, errs: seq<IngestionError>) returns (kept: seq<ParsedRow>)
    ensures kept == DropRows(rows, ErrorRows(errs))
  {
    var bad := set e | e in errs :: e.row;
    kept := [];
    for i := 0 to |rows|
      invariant kept == DropRows(rows[..i], bad)
    {
      assert rows[..i + 1][..i] == rows[..i];
      if rows[i].rowNumber !in bad {
        kept := kept + [rows[i]];
      }
    }
    assert rows[..|rows|] == rows;
  }

  /** A stage that reports errors and then drops every row an error names. */
  function Filtered(rows: seq<ParsedRow>, errs: seq<IngestionError>): StageResult {
    StageResult(DropRows(rows, ErrorRows(errs)), errs)
  }

  /** What `buildRelationMaps` returns: per relation column, its lookup map. */
  function RelationMaps(relations: Relations, rows: seq<ParsedRow>, store: Store): map<string, map<string, string>>
    requires DistinctColumns(relations)
  {
    map k | 0 <= k < |relations| :: relations[k].0 := RelationMapFor(relations[k].1, LookupValues(rows, relations[k].0), store)
  }

  /** The relation stage: run only when the entity declares relations. */
  function RelationStage(rows: seq<ParsedRow>, relations: Relations, store: Store): StageResult
    requires DistinctColumns(relations)
  {
    if |relations| == 0 then StageResult(rows, [])
    else
      var r := ResolveAll(rows, relations, RelationMaps(relations, rows, store));
      StageResult(r.1, r.2)
  }

  /** `getModelNameFromConfig`: the first header of a fixed list decides the model. */
  function ModelNameFromHeaders(headers: seq<string>): string {
    if "registration_number" in headers then "Student"
    else if "teacher_id" in headers then "Teacher"
    else if "day_of_week" in headers then "Timetable"
    else if "class_name" in headers then "Class"
    else if "subject_code" in headers then "Subject"
    else if "room_number" in headers then "Room"
    else "Unknown"
  }

  /** The store-duplicate stage: run only when the entity has unique fields. */
  function DbStage(rows: seq<ParsedRow>, config: EntityConfig, store: Store): StageResult {
    if |config.uniqueFields| == 0 then StageResult(rows, [])
    else
      Filtered(rows, DbDuplicates(rows, config.uniqueFields, ModelNameFromHeaders(config.expectedHeaders),
                                  config.uniqueFieldModels, store))
  }

  /** `isTimetableConfig`: the first surviving row carries a day and both times. */
  predicate IsTimetableRows(rows: seq<ParsedRow>) {
    |rows| > 0 && "day_of_week" in rows[0].data && "start_time" in rows[0].data && "end_time" in rows[0].data
  }

  /** The overlap stage, reading the room from `roomColumn`: run only on rows that look like timetable rows. */
  function OverlapStage(rows: seq<ParsedRow>, roomColumn: string): StageResult {
    if IsTimetableRows(rows) then Filtered(rows, TimetableOverlapErrors(rows, roomColumn))
    else StageResult(rows, [])
  }

  /** The five stages, each run on the rows the previous one let through. */
  datatype Stages = Stages(validation: StageResult, inFile: StageResult, relation: StageResult,
                           db: StageResult, overlap: StageResult)
  {
    function Errors(): seq<IngestionError> {
      validation.errors + inFile.errors + relation.errors + db.errors + overlap.errors
    }
  }

  function RunStages(rows: seq<ParsedRow>, config: EntityConfig, schema: Schema, store: Store): Stages
    requires DistinctColumns(config.relations)
  {
    var validation := Validated(rows, schema);
    var inFile := Filtered(validation.rows, InFileDuplicates(validation.rows, config.uniqueFields));
    var relation := RelationStage(inFile.rows, config.relations, store);
    var db := DbStage(relation.rows, config, store);
    var overlap := OverlapStage(db.rows, SourceRoomColumn);
    Stages(validation, inFile, relation, db, overlap)
  }

  // ----- batches -----

  function Min(a: int, b: int): int {
    if a < b then a else b
  }

  /** The records of some rows. */
  function Docs(rows: seq<ParsedRow>): (docs: seq<Data>)
    ensures |docs| == |rows| && forall k | 0 <= k < |rows| :: docs[k] == rows[k].data
  {
    seq(|rows|, k requires 0 <= k < |rows| => rows[k].data)
  }

  /** The batches from position `i` on: consecutive slices of at most 500 rows. */
  function Batches(rows: seq<ParsedRow>, i: nat): seq<seq<ParsedRow>>
    decreases |rows| - i
  {
    if i >= |rows| then [] else [rows[i..Min(i + BatchSize, |rows|)]] + Batches(rows, i + BatchSize)
  }

  /** What persisting some batches gives: the errors, the success count, and each progress report. */
  datatype PersistRun = PersistRun(errors: seq<IngestionError>, successCount: int, progress: seq<int>)

  /** Persist each batch in turn; `done` rows were processed before the first. */
  function RunBatches(batches: seq<seq<ParsedRow>>, persist: Persist, done: int): PersistRun {
    if batches == [] then PersistRun([], 0, [])
    else
      var b := batches[0];
      var errs := persist(Docs(b));
      var rest := RunBatches(batches[1..], persist, done + |b|);
      PersistRun(errs + rest.errors, |b| - |errs| + rest.successCount, [done + |b|] + rest.progress)
  }

  /** Persisting the batch at `i` moves it from the runs still to come to those done. */
  lemma BatchStep(rows: seq<ParsedRow>, persist: Persist, i: nat)
    requires i < |rows|
    ensures var b := rows[i..Min(i + BatchSize, |rows|)];
            var errs := persist(Docs(b));
            var here := RunBatches(Batches(rows, i), persist, i);
            var rest := RunBatches(Batches(rows, i + BatchSize), persist, Min(i + BatchSize, |rows|));
            here == PersistRun(errs + rest.errors, |b| - |errs| + rest.successCount, [Min(i + BatchSize, |rows|)] + rest.progress)
  {
    var bs := Batches(rows, i);
    assert bs[1..] == Batches(rows, i + BatchSize);
  }

  /** The batch loop of `ingestCsv`. */
  method PersistBatches(rows: seq<ParsedRow>, persist: Persist)
    returns (errors: seq<IngestionError>, successCount: int, progress: seq<int>)
    ensures PersistRun(errors, successCount, progress) == RunBatches(Batches(rows, 0), persist, 0)
  {
    errors, successCount, progress := [], 0, [];
    var processedSoFar := 0;
    var i := 0;
    ghost var whole := RunBatches(Batches(rows, 0), persist, 0);
    while i < |rows|
      invariant processedSoFar == Min(i, |rows|)
      invariant var rest := RunBatches(Batches(rows, i), persist, processedSoFar);
                && errors + rest.errors == whole.errors
                && successCount + rest.successCount == whole.successCount
                && progress + rest.progress == whole.progress
      decreases |rows| - i
    {
      var batch := rows[i..Min(i + BatchSize, |rows|)];
      var docs := Docs(batch);
      var persistErrors := persist(docs);
      BatchStep(rows, persist, i);
      ghost var rest := RunBatches(Batches(rows, i + BatchSize), persist, Min(i + BatchSize, |rows|));
      assert errors + (persistErrors + rest.errors) == (errors + persistErrors) + rest.errors;
      assert progress + ([Min(i + BatchSize, |rows|)] + rest.progress) == (progress + [Min(i + BatchSize, |rows|)]) + rest.progress;
      errors := errors + persistErrors;
      successCount := successCount + |docs| - |persistErrors|;
      processedSoFar := processedSoFar + |batch|;
      progress := progress + [processedSoFar];
      i := i + BatchSize;
    }
  }

  // ----- the whole import -----

  /** The result of `ingestCsv` and the progress reports it made, in order. */
  function IngestSpec(events: seq<CsvEvent>, config: EntityConfig, schema: Schema, persist: Persist, store: Store)
    : (IngestionResult, seq<int>)
    requires DistinctColumns(config.relations)
  {
    var preconditionErrors := PreconditionErrors(config.preconditions, store);
    if |config.preconditions| > 0 && |preconditionErrors| > 0 then (IngestionResult(0, 0, 0, preconditionErrors), [])
    else
      var parsed := ParseSpec(events, config.expectedHeaders);
      if |parsed.errors| > 0 then (IngestionResult(0, 0, 0, parsed.errors), [])
      else ImportRows(parsed.rows, config, schema, persist, store)
  }

  /** The import of the parsed rows, once both gates have passed. */
  function ImportRows(rows: seq<ParsedRow>, config: EntityConfig, schema: Schema, persist: Persist, store: Store)
    : (IngestionResult, seq<int>)
    requires DistinctColumns(config.relations)
  {
    ImportOf(|rows|, RunStages(rows, config, schema, store), persist)
  }

  /** The counts, the errors and the progress reports of an import of `total` rows whose stages let through `stages.overlap.rows`. */
  function ImportOf(total: int, stages: Stages, persist: Persist): (IngestionResult, seq<int>) {
    var run := RunBatches(Batches(stages.overlap.rows, 0), persist, 0);
    (IngestionResult(total, run.successCount, total - run.successCount, stages.Errors() + run.errors), run.progress)
  }

  /** `buildRelationMaps` computes `RelationMaps`. */
  lemma RelationMapsAre(relations: Relations, rows: seq<ParsedRow>, store: Store, maps: map<string, map<string, string>>)
    requires DistinctColumns(relations)
    requires forall c :: c in maps <==> c in Columns(relations)
    requires forall k | 0 <= k < |relations| :: relations[k].0 in maps
               && maps[relations[k].0] == RelationMapFor(relations[k].1, LookupValues(rows, relations[k].0), store)
    ensures maps == RelationMaps(relations, rows, store)
  {
    var spec := RelationMaps(relations, rows, store);
    forall c | c in maps ensures c in spec && maps[c] == spec[c] {
      var k :| 0 <= k < |relations| && Columns(relations)[k] == c;
      assert relations[k].0 == c;
    }
    forall c | c in spec ensures c in maps {
      var k :| 0 <= k < |relations| && relations[k].0 == c;
      assert Columns(relations)[k] == c;
    }
  }

  /** The relation stage of `ingestCsv`, resolving the rows in place in an array. */
  method ResolveStage(rows: seq<ParsedRow>, relations: Relations, store: Store) returns (r: StageResult)
    requires DistinctColumns(relations)
    ensures r == RelationStage(rows, relations, store)
  {
    if |relations| == 0 {
      return StageResult(rows, []);
    }
    var relationMaps := BuildRelationMaps(relations, rows, store);
    RelationMapsAre(relations, rows, store, relationMaps);
    var rowArray := new ParsedRow[|rows|](k requires 0 <= k < |rows| => rows[k]);
    assert rowArray[..] == rows;
    var resolved, relErrors := ResolveRelations(rowArray, relations, relationMaps);
    r := StageResult(resolved, relErrors);
  }

  /** The store-duplicate stage of `ingestCsv`. */
  method DbDuplicateStage(rows: seq<ParsedRow>, config: EntityConfig, store: Store) returns (r: StageResult)
    ensures r == DbStage(rows, config, store)
  {
    if |config.uniqueFields| == 0 {
      return StageResult(rows, []);
    }
    var dbDupErrors := CheckDbDuplicates(rows, config.uniqueFields, ModelNameFromHeaders(config.expectedHeaders),
                                         config.uniqueFieldModels, store);
    var kept := FilterRows(rows, dbDupErrors);
    r := StageResult(kept, dbDupErrors);
  }

  /** The overlap stage of `ingestCsv`. */
  method OverlapCheckStage(rows: seq<ParsedRow>, roomColumn: string) returns (r: StageResult)
    ensures r == OverlapStage(rows, roomColumn)
  {
    if !IsTimetableRows(rows) {
      return StageResult(rows, []);
    }
    var overlapErrors := CheckTimetableOverlaps(rows, roomColumn);
    var kept := FilterRows(rows, overlapErrors);
    r := StageResult(kept, overlapErrors);
  }

  /** The stages after parsing, each on the rows the previous one let through. */
  method CheckRows(rows: seq<ParsedRow>, config: EntityConfig, schema: Schema, store: Store)
    returns (stages: Stages)
    requires DistinctColumns(config.relations)
    ensures stages == RunStages(rows, config, schema, store)
  {
    var validatedRows, validationErrors := ValidateRows(rows, schema);
    var inFileDupErrors := CheckInFileDuplicates(validatedRows, config.uniqueFields);
    var deduped := FilterRows(validatedRows, inFileDupErrors);
    var relation := ResolveStage(deduped, config.relations, store);
    var db := DbDuplicateStage(relation.rows, config, store);
    var overlap := OverlapCheckStage(db.rows, SourceRoomColumn);
    stages := Stages(StageResult(validatedRows, validationErrors), StageResult(deduped, inFileDupErrors),
                     relation, db, overlap);
  }

  /** The part of `ingestCsv` after the gates. */
  method ProcessRows(rows: seq<ParsedRow>, config: EntityConfig, schema: Schema, persist: Persist, store: Store)
    returns (result: IngestionResult, progress: seq<int>)
    requires DistinctColumns(config.relations)
    ensures (result, progress) == ImportRows(rows, config, schema, persist, store)
  {
    var stages := CheckRows(rows, config, schema, store);
    result, progress := PersistAndSummarise(|rows|, stages, persist);
    ImportRowsIsImportOf(rows, config, schema, persist, store, stages);
  }

  /** Persisting what the stages let through, then the counts over all `totalRows` parsed rows. */
  method PersistAndSummarise(totalRows: int, stages: Stages, persist: Persist)
    returns (result: IngestionResult, progress: seq<int>)
    ensures (result, progress) == ImportOf(totalRows, stages, persist)
  {
    var persistErrors, successCount;
    persistErrors, successCount, progress := PersistBatches(stages.overlap.rows, persist);
    var allErrors := stages.Errors() + persistErrors;
    result := IngestionResult(totalRows, successCount, totalRows - successCount, allErrors);
  }

  lemma ImportRowsIsImportOf(rows: seq<ParsedRow>, config: EntityConfig, schema: Schema, persist: Persist, store: Store,
                             stages: Stages)
    requires DistinctColumns(config.relations)
    requires stages == RunStages(rows, config, schema, store)
    ensures ImportRows(rows, config, schema, persist, store) == ImportOf(|rows|, stages, persist)
  {
  }

  /** `ingestCsv`: the import result and the values passed to `onProgress`, in order. */
  method IngestCsv(events: seq<CsvEvent>, config: EntityConfig, schema: Schema, persist: Persist, store: Store)
    returns (result: IngestionResult, progress: seq<int>)
    requires DistinctColumns(config.relations)
    ensures (result, progress) == IngestSpec(events, config, schema, persist, store)
  {
    if |config.preconditions| > 0 {
      var preconditionErrors := CheckPreconditions(config.preconditions, store);
      if |preconditionErrors| > 0 {
        return IngestionResult(0, 0, 0, preconditionErrors), [];
      }
    }
    var parsed := ParseCsv(events, config.expectedHeaders);
    if |parsed.errors| > 0 {
      return IngestionResult(0, 0, 0, parsed.errors), [];
    }
    result, progress := ProcessRows(parsed.rows, config, schema, persist, store);
  }

  // ----- properties -----

  /**
   * When an entity has preconditions and one of them has no documents, the
   * import reports 0/0/0 with exactly the PRECONDITION_FAILED errors (row
   * 0, one per empty model) and makes no progress report; the file plays
   * no part, as it is never parsed.
   */
  lemma PreconditionFailureAborts(events: seq<CsvEvent>, otherEvents: seq<CsvEvent>, config: EntityConfig,
                                  schema: Schema, persist: Persist, store: Store, m: string)
    requires DistinctColumns(config.relations)
    requires m in config.preconditions && !HasAny(store, m)
    ensures var (result, progress) := IngestSpec(events, config, schema, persist, store);
            && result.totalRows == 0 && result.successCount == 0 && result.failureCount == 0
            && PreconditionError(m) in result.errors
            && (forall e | e in result.errors :: e.row == 0 && e.code == PreconditionFailed && e.column == "")
            && progress == []
    ensures IngestSpec(otherEvents, config, schema, persist, store) == IngestSpec(events, config, schema, persist, store)
  {
  }

  /**
   * Once the preconditions hold, a header or stream error from the parser
   * ends the import with 0/0/0 and exactly the parser's errors.
   */
  lemma ParseFailureAborts(events: seq<CsvEvent>, config: EntityConfig, schema: Schema, persist: Persist, store: Store)
    requires DistinctColumns(config.relations)
    requires forall m | m in config.preconditions :: HasAny(store, m)
    requires ParseSpec(events, config.expectedHeaders).errors != []
    ensures IngestSpec(events, config, schema, persist, store)
         == (IngestionResult(0, 0, 0, ParseSpec(events, config.expectedHeaders).errors), [])
  {
  }

  /** The rows of a list in strictly increasing row order. */
  predicate Increasing(rows: seq<ParsedRow>) {
    forall i, j | 0 <= i < j < |rows| :: rows[i].rowNumber < rows[j].rowNumber
  }

  function Numbers(rows: seq<ParsedRow>): set<int> {
    set r | r in rows :: r.rowNumber
  }

  /** A stage that only removes rows: fewer rows, in the same order, numbered among the input's numbers. */
  predicate OnlyRemoves(input: seq<ParsedRow>, output: seq<ParsedRow>) {
    |output| <= |input| && Numbers(output) <= Numbers(input) && (Increasing(input) ==> Increasing(output))
  }

  lemma {:induction false} ValidatedOnlyRemoves(rows: seq<ParsedRow>, schema: Schema)
    ensures OnlyRemoves(rows, Validated(rows, schema).rows)
    ensures forall r | r in Validated(rows, schema).rows ::
              exists k | 0 <= k < |rows| :: rows[k].rowNumber == r.rowNumber
                                            && schema(rows[k].data) == Parsed(r.data)
  {
    if rows != [] {
      var prefix := rows[..|rows| - 1];
      ValidatedOnlyRemoves(prefix, schema);
      assert forall k | 0 <= k < |prefix| :: prefix[k] == rows[k];
      var prev := Validated(prefix, schema).rows;
      var out := Validated(rows, schema).rows;
      var last := rows[|rows| - 1];
      if out != prev {
        assert out == prev + [out[|out| - 1]] && out[|out| - 1].rowNumber == last.rowNumber;
        if Increasing(rows) {
          forall i | 0 <= i < |prev| ensures prev[i].rowNumber < last.rowNumber {
            assert prev[i].rowNumber in Numbers(prefix);
          }
        }
      }
    }
  }

  lemma {:induction false} DropRowsOnlyRemoves(rows: seq<ParsedRow>, bad: set<int>)
    ensures OnlyRemoves(rows, DropRows(rows, bad))
  {
    if rows != [] {
      var prefix := rows[..|rows| - 1];
      DropRowsOnlyRemoves(prefix, bad);
      var prev := DropRows(prefix, bad);
      var last := rows[|rows| - 1];
      if last.rowNumber !in bad && Increasing(rows) {
        forall i | 0 <= i < |prev| ensures prev[i].rowNumber < last.rowNumber {
          assert prev[i] in prefix;
        }
      }
    }
  }

  lemma RelationStageOnlyRemoves(rows: seq<ParsedRow>, relations: Relations, store: Store)
    requires DistinctColumns(relations)
    ensures OnlyRemoves(rows, RelationStage(rows, relations, store).rows)
  {
    if |relations| > 0 {
      var maps := RelationMaps(relations, rows, store);
      ResolveAllKeepsErrorFreeRows(rows, relations, maps);
      var out := RelationStage(rows, relations, store).rows;
      if Increasing(rows) {
        ResolveAllKeepsOrder(rows, relations, maps);
      }
      forall n | n in Numbers(out) ensures n in Numbers(rows) {
        var r :| r in out && r.rowNumber == n;
        var k :| 0 <= k < |rows| && r == ResolveAll(rows, relations, maps).0[k];
      }
    }
  }

  lemma DbStageOnlyRemoves(rows: seq<ParsedRow>, config: EntityConfig, store: Store)
    ensures OnlyRemoves(rows, DbStage(rows, config, store).rows)
    ensures forall r | r in DbStage(rows, config, store).rows :: r in rows
  {
    if |config.uniqueFields| > 0 {
      DropRowsOnlyRemoves(rows, ErrorRows(DbDuplicates(rows, config.uniqueFields, ModelNameFromHeaders(config.expectedHeaders),
                                                       config.uniqueFieldModels, store)));
    }
  }

  lemma OverlapStageOnlyRemoves(rows: seq<ParsedRow>, roomColumn: string)
    ensures OnlyRemoves(rows, OverlapStage(rows, roomColumn).rows)
    ensures forall r | r in OverlapStage(rows, roomColumn).rows :: r in rows
  {
    if IsTimetableRows(rows) {
      DropRowsOnlyRemoves(rows, ErrorRows(TimetableOverlapErrors(rows, roomColumn)));
    }
  }

  /**
   * Every stage keeps an order-preserving selection of the rows it is
   * given: rows are only removed, never added, and rows numbered in
   * increasing order stay so. The rows persisted are therefore among the
   * parsed rows, in file order.
   */
  lemma StagesOnlyRemoveRows(rows: seq<ParsedRow>, config: EntityConfig, schema: Schema, store: Store)
    requires DistinctColumns(config.relations)
    ensures var s := RunStages(rows, config, schema, store);
            && OnlyRemoves(rows, s.validation.rows)
            && OnlyRemoves(s.validation.rows, s.inFile.rows)
            && OnlyRemoves(s.inFile.rows, s.relation.rows)
            && OnlyRemoves(s.relation.rows, s.db.rows)
            && OnlyRemoves(s.db.rows, s.overlap.rows)
            && OnlyRemoves(rows, s.overlap.rows)
  {
    var s := RunStages(rows, config, schema, store);
    ValidatedOnlyRemoves(rows, schema);
    DropRowsOnlyRemoves(s.validation.rows, ErrorRows(s.inFile.errors));
    RelationStageOnlyRemoves(s.inFile.rows, config.relations, store);
    DbStageOnlyRemoves(s.relation.rows, config, store);
    OverlapStageOnlyRemoves(s.db.rows, SourceRoomColumn);
  }

  /** The rows of some batches, in batch order. */
  function Flatten(bs: seq<seq<ParsedRow>>): seq<ParsedRow> {
    if bs == [] then [] else bs[0] + Flatten(bs[1..])
  }

  /** The batches are consecutive, non-empty, of at most 500 rows, and together are exactly the rows from `i` on. */
  lemma {:induction false} BatchesPartition(rows: seq<ParsedRow>, i: nat)
    requires i <= |rows|
    ensures Flatten(Batches(rows, i)) == rows[i..]
    ensures forall b | b in Batches(rows, i) :: 1 <= |b| <= BatchSize
    decreases |rows| - i
  {
    if i < |rows| {
      var bs := Batches(rows, i);
      assert bs[1..] == Batches(rows, i + BatchSize);
      if i + BatchSize <= |rows| {
        BatchesPartition(rows, i + BatchSize);
        assert rows[i..] == rows[i..i + BatchSize] + rows[i + BatchSize..];
      } else {
        assert Batches(rows, i + BatchSize) == [];
        assert rows[i..] == rows[i..|rows|];
      }
    }
  }

  /**
   * Persisting batches: one progress report per batch, the first after the
   * first batch, each the previous plus the batch's size, the last equal to
   * all rows processed; and the success count is the rows sent to persist
   * minus the errors persist returned.
   */
  lemma {:induction false} RunBatchesFacts(bs: seq<seq<ParsedRow>>, persist: Persist, done: int)
    ensures var run := RunBatches(bs, persist, done);
            && run.successCount == |Flatten(bs)| - |run.errors|
            && |run.progress| == |bs|
            && (bs != [] ==> run.progress[0] == done + |bs[0]| && run.progress[|bs| - 1] == done + |Flatten(bs)|)
            && (forall k | 0 < k < |bs| :: run.progress[k] == run.progress[k - 1] + |bs[k]|)
  {
    if bs != [] {
      RunBatchesFacts(bs[1..], persist, done + |bs[0]|);
      var rest := RunBatches(bs[1..], persist, done + |bs[0]|);
      var run := RunBatches(bs, persist, done);
      assert run.progress == [done + |bs[0]|] + rest.progress;
      forall k | 0 < k < |bs| ensures run.progress[k] == run.progress[k - 1] + |bs[k]| {
        assert run.progress[k] == rest.progress[k - 1] && bs[k] == bs[1..][k - 1];
        if k > 1 {
          assert run.progress[k - 1] == rest.progress[k - 2];
        }
      }
    }
  }

  /** When persist reports at most one error per record, the success count is between 0 and the rows persisted. */
  lemma {:induction false} RunBatchesSuccessBounds(bs: seq<seq<ParsedRow>>, persist: Persist, done: int)
    requires forall docs: seq<Data> :: |persist(docs)| <= |docs|
    ensures 0 <= RunBatches(bs, persist, done).successCount <= |Flatten(bs)|
  {
    if bs != [] {
      RunBatchesSuccessBounds(bs[1..], persist, done + |bs[0]|);
      assert |persist(Docs(bs[0]))| <= |Docs(bs[0])|;
    }
  }

  /**
   * The progress reports of persisting `persisted`: none when nothing is
   * persisted; otherwise the first after at most 500 rows, each growing by
   * at most 500, the last equal to the number of rows persisted.
   */
  lemma ProgressReports(persisted: seq<ParsedRow>, persist: Persist)
    ensures var progress := RunBatches(Batches(persisted, 0), persist, 0).progress;
            && (persisted == [] <==> progress == [])
            && (persisted != [] ==> progress[0] == Min(BatchSize, |persisted|) && progress[|progress| - 1] == |persisted|)
            && (forall k | 0 < k < |progress| :: progress[k - 1] < progress[k] <= progress[k - 1] + BatchSize)
  {
    var bs := Batches(persisted, 0);
    FirstBatch(persisted);
    RunBatchesFacts(bs, persist, 0);
    var progress := RunBatches(bs, persist, 0).progress;
    forall k | 0 < k < |progress| ensures progress[k - 1] < progress[k] <= progress[k - 1] + BatchSize {
      assert bs[k] in bs;
    }
  }

  /** The batches of a run: none for no rows, the first of up to 500 rows, all rows once, each of 1 to 500. */
  lemma FirstBatch(persisted: seq<ParsedRow>)
    ensures var bs := Batches(persisted, 0);
            && (persisted == [] <==> bs == [])
            && (persisted != [] ==> |bs[0]| == Min(BatchSize, |persisted|))
            && |Flatten(bs)| == |persisted|
            && forall b | b in bs :: 1 <= |b| <= BatchSize
  {
    BatchesPartition(persisted, 0);
    assert persisted[0..] == persisted;
  }

  /**
   * After the gates: totalRows is the number of parsed rows and failureCount
   * is totalRows minus successCount, which is the rows persisted minus the
   * errors persist returned; the errors are those of the stages in stage
   * order followed by those of persist.
   */
  lemma ImportRowsCounts(rows: seq<ParsedRow>, config: EntityConfig, schema: Schema, persist: Persist, store: Store)
    requires DistinctColumns(config.relations)
    ensures var (result, progress) := ImportRows(rows, config, schema, persist, store);
            var s := RunStages(rows, config, schema, store);
            var run := RunBatches(Batches(s.overlap.rows, 0), persist, 0);
            && result.totalRows == |rows|
            && result.failureCount == result.totalRows - result.successCount
            && result.successCount == |s.overlap.rows| - |run.errors|
            && result.errors == s.validation.errors + s.inFile.errors + s.relation.errors + s.db.errors
                                + s.overlap.errors + run.errors
            && progress == run.progress
  {
    var s := RunStages(rows, config, schema, store);
    BatchesPartition(s.overlap.rows, 0);
    assert s.overlap.rows[0..] == s.overlap.rows;
    RunBatchesFacts(Batches(s.overlap.rows, 0), persist, 0);
  }

  /**
   * With a `persist` that reports at most one error per record, the counts
   * are sound: 0 <= successCount <= rows persisted <= totalRows.
   */
  lemma ImportRowsCountsBounded(rows: seq<ParsedRow>, config: EntityConfig, schema: Schema, persist: Persist, store: Store)
    requires DistinctColumns(config.relations)
    requires forall docs: seq<Data> :: |persist(docs)| <= |docs|
    ensures var result := ImportRows(rows, config, schema, persist, store).0;
            0 <= result.successCount <= |RunStages(rows, config, schema, store).overlap.rows| <= result.totalRows
            && 0 <= result.failureCount <= result.totalRows
  {
    var s := RunStages(rows, config, schema, store);
    BatchesPartition(s.overlap.rows, 0);
    assert s.overlap.rows[0..] == s.overlap.rows;
    RunBatchesSuccessBounds(Batches(s.overlap.rows, 0), persist, 0);
    StagesOnlyRemoveRows(rows, config, schema, store);
  }

  /**
   * The timetable's headers give 'Teacher', as `teacher_id` is tested
   * before `day_of_week`; the timetable has no unique fields, so the
   * store-duplicate stage, the only user of the name, never runs for it.
   */
  lemma TimetableModelName(rows: seq<ParsedRow>, store: Store)
    ensures ModelNameFromHeaders(ConfigOf(TimetableImport).expectedHeaders) == "Teacher"
    ensures DbStage(rows, ConfigOf(TimetableImport), store) == StageResult(rows, [])
  {
    assert "teacher_id" == TimetableHeaders[1];
    assert "registration_number" !in TimetableHeaders;
  }

  /** The model name the store-duplicate check defaults to for the other entities. */
  lemma ModelNames()
    ensures ModelNameFromHeaders(ConfigOf(ClassImport).expectedHeaders) == "Class"
    ensures ModelNameFromHeaders(ConfigOf(SubjectImport).expectedHeaders) == "Subject"
    ensures ModelNameFromHeaders(ConfigOf(RoomImport).expectedHeaders) == "Room"
    ensures ModelNameFromHeaders(ConfigOf(StudentImport).expectedHeaders) == "Student"
    ensures ModelNameFromHeaders(ConfigOf(TeacherImport).expectedHeaders) == "Teacher"
  {
    ClassModelName();
    SubjectModelName();
    RoomModelName();
    assert "registration_number" == StudentHeaders[0];
    assert "registration_number" !in TeacherHeaders && "teacher_id" == TeacherHeaders[0];
  }

  lemma ClassModelName()
    ensures ModelNameFromHeaders(ClassHeaders) == "Class"
  {
    assert "registration_number" !in ClassHeaders && "teacher_id" !in ClassHeaders && "day_of_week" !in ClassHeaders;
    assert "class_name" == ClassHeaders[0];
  }

  lemma SubjectModelName()
    ensures ModelNameFromHeaders(SubjectHeaders) == "Subject"
  {
    assert "registration_number" !in SubjectHeaders && "teacher_id" !in SubjectHeaders && "day_of_week" !in SubjectHeaders;
    assert "class_name" !in SubjectHeaders && "subject_code" == SubjectHeaders[0];
  }

  lemma RoomModelName()
    ensures ModelNameFromHeaders(RoomHeaders) == "Room"
  {
    assert "registration_number" !in RoomHeaders && "teacher_id" !in RoomHeaders && "day_of_week" !in RoomHeaders;
    assert "class_name" !in RoomHeaders && "subject_code" !in RoomHeaders && "room_number" == RoomHeaders[0];
  }

  // ----- the room key of the overlap check, in a timetable import -----

  /** A row as the timetable schema leaves it: the seven columns, no `room_id`, a day without '|', and a valid time slot. */
  predicate TimetableShaped(r: ParsedRow) {
    && "room_id" !in r.data && "room_number" in r.data
    && "day_of_week" in r.data && '|' !in r.data["day_of_week"]
    && "start_time" in r.data && "end_time" in r.data
    && ValidSlot(SlotOf(r))
  }

  lemma ParsedTimetableShaped(data: Data, r: ParsedRow)
    requires TimetableCsvSchema(data) == Parsed(r.data)
    ensures TimetableShaped(r)
  {
    ParsedOnlyIfRowOk(data);
    AcceptedRecord(data);
    AcceptedDayHasNoBar(data);
    TimetableRecordShape(Trim(data["class_name"]), Trim(data["teacher_id"]), Trim(data["subject_code"]),
                         Trim(data["room_number"]), data["day_of_week"], data["start_time"], data["end_time"]);
  }

  lemma ValidatedTimetableShaped(rows: seq<ParsedRow>)
    ensures forall r | r in Validated(rows, TimetableCsvSchema).rows :: TimetableShaped(r)
  {
    ValidatedOnlyRemoves(rows, TimetableCsvSchema);
    forall r | r in Validated(rows, TimetableCsvSchema).rows ensures TimetableShaped(r) {
      var k :| 0 <= k < |rows| && rows[k].rowNumber == r.rowNumber && TimetableCsvSchema(rows[k].data) == Parsed(r.data);
      ParsedTimetableShaped(rows[k].data, r);
    }
  }

  lemma ResolvedTimetableShaped(rows: seq<ParsedRow>, store: Store)
    requires forall r | r in rows :: TimetableShaped(r)
    ensures forall r | r in RelationStage(rows, TimetableRelations, store).rows :: TimetableShaped(r)
  {
    var maps := RelationMaps(TimetableRelations, rows, store);
    ResolveAllRewrites(rows, TimetableRelations, maps);
    ResolveAllKeepsOnlyClean(rows, TimetableRelations, maps);
    var rewritten := ResolveAll(rows, TimetableRelations, maps).0;
    forall r | r in RelationStage(rows, TimetableRelations, store).rows ensures TimetableShaped(r) {
      var k :| 0 <= k < |rows| && r == rewritten[k];
      assert rows[k] in rows;
      ResolvedRowShaped(rows[k], maps);
    }
  }

  /** Resolving a timetable row's four relation columns keeps its shape. */
  lemma ResolvedRowShaped(src: ParsedRow, maps: map<string, map<string, string>>)
    requires TimetableShaped(src)
    ensures TimetableShaped(ResolveRow(src, TimetableRelations, maps).0)
  {
    var r := ResolveRow(src, TimetableRelations, maps).0;
    assert Columns(TimetableRelations) == ["class_name", "teacher_id", "subject_code", "room_number"];
    ResolveColumnsKeepsColumns(src.data, src.rowNumber, TimetableRelations, maps);
    ResolveColumnsFrame(src.data, src.rowNumber, TimetableRelations, maps, "start_time");
    ResolveColumnsFrame(src.data, src.rowNumber, TimetableRelations, maps, "end_time");
    ResolveColumnsFrame(src.data, src.rowNumber, TimetableRelations, maps, "day_of_week");
    assert SlotOf(r) == SlotOf(src);
  }

  /**
   * In a timetable import every row that reaches the overlap check has the
   * file's seven columns and a valid slot: it has no `room_id` column, so
   * the source's room key is "undefined|<day>" for every row.
   */
  lemma TimetableRowsReachingOverlapCheck(rows: seq<ParsedRow>, store: Store)
    ensures var s := RunStages(rows, ConfigOf(TimetableImport), TimetableCsvSchema, store);
            forall r | r in s.db.rows :: TimetableShaped(r)
  {
    var config := ConfigOf(TimetableImport);
    var s := RunStages(rows, config, TimetableCsvSchema, store);
    ValidatedTimetableShaped(rows);
    assert forall r | r in s.inFile.rows :: r in s.validation.rows;
    ResolvedTimetableShaped(s.inFile.rows, store);
    assert s.db == StageResult(s.relation.rows, []);
  }

  /** The stages of a timetable import. */
  function TimetableStages(rows: seq<ParsedRow>, store: Store): Stages {
    RunStages(rows, ConfigOf(TimetableImport), TimetableCsvSchema, store)
  }

  /**
   * As written, a timetable import flags any two surviving rows of the same
   * day whose times intersect with a room CONFLICT_OVERLAP, whatever their
   * rooms: the rows reaching the check carry no `room_id`.
   */
  lemma SourceRoomKeyFlagsAnySameDayOverlap(rows: seq<ParsedRow>, store: Store, a: nat, b: nat)
    requires Increasing(rows)
    requires var s := TimetableStages(rows, store);
             && a < |s.db.rows| && b < |s.db.rows| && a != b
             && ValueText(s.db.rows[a].data, "day_of_week") == ValueText(s.db.rows[b].data, "day_of_week")
             && ValidSlot(SlotOf(s.db.rows[a])) && ValidSlot(SlotOf(s.db.rows[b]))
             && Intersect(SlotOf(s.db.rows[a]), SlotOf(s.db.rows[b]))
    ensures var s := TimetableStages(rows, store);
            exists e | e in s.overlap.errors ::
              e.code == ConflictOverlap && e.column == "room_id"
              && (e.row == s.db.rows[a].rowNumber || e.row == s.db.rows[b].rowNumber)
  {
    var s := TimetableStages(rows, store);
    assert s == RunStages(rows, ConfigOf(TimetableImport), TimetableCsvSchema, store);
    TimetableDbRowsValid(rows, store);
    TimetableRowsReachingOverlapCheck(rows, store);
    SourceOverlapStageFlags(s.db.rows, a, b);
  }

  /** The source's overlap stage on shaped rows: a same-day intersecting pair is a room conflict. */
  lemma SourceOverlapStageFlags(ds: seq<ParsedRow>, a: nat, b: nat)
    requires ValidTimetableRows(ds) && forall r | r in ds :: TimetableShaped(r)
    requires a < |ds| && b < |ds| && a != b
    requires ValueText(ds[a].data, "day_of_week") == ValueText(ds[b].data, "day_of_week")
    requires Intersect(SlotOf(ds[a]), SlotOf(ds[b]))
    ensures exists e | e in OverlapStage(ds, SourceRoomColumn).errors ::
              e.code == ConflictOverlap && e.column == "room_id" && (e.row == ds[a].rowNumber || e.row == ds[b].rowNumber)
  {
    assert ds[0] in ds && ds[a] in ds && ds[b] in ds;
    RoomIdKeyConflatesRooms(ds, a, b);
  }

  /**
   * With the room read from `room_number`, every room conflict the overlap
   * stage of a timetable import reports is on a row that books the same
   * room on the same day as another surviving row, at intersecting times.
   */
  lemma CorrectedRoomKeyFlagsOnlySharedRooms(rows: seq<ParsedRow>, store: Store, e: IngestionError)
    requires Increasing(rows)
    requires var ds := TimetableStages(rows, store).db.rows;
             e in OverlapStage(ds, CorrectedRoomColumn).errors && e.column == "room_id"
    ensures var ds := TimetableStages(rows, store).db.rows;
            exists a, b | 0 <= a < |ds| && 0 <= b < |ds| ::
              && e.row == ds[b].rowNumber && a != b
              && ValueText(ds[a].data, "room_number") == ValueText(ds[b].data, "room_number")
              && ValueText(ds[a].data, "day_of_week") == ValueText(ds[b].data, "day_of_week")
              && ValidSlot(SlotOf(ds[a])) && ValidSlot(SlotOf(ds[b])) && Intersect(SlotOf(ds[a]), SlotOf(ds[b]))
  {
    var ds := TimetableStages(rows, store).db.rows;
    assert ds == RunStages(rows, ConfigOf(TimetableImport), TimetableCsvSchema, store).db.rows;
    TimetableDbRowsValid(rows, store);
    TimetableRowsReachingOverlapCheck(rows, store);
    CorrectedOverlapStageSound(ds, e);
  }

  /** The corrected overlap stage on shaped rows: a room conflict means a shared room, day and time. */
  lemma CorrectedOverlapStageSound(ds: seq<ParsedRow>, e: IngestionError)
    requires ValidTimetableRows(ds) && forall r | r in ds :: TimetableShaped(r)
    requires e in OverlapStage(ds, CorrectedRoomColumn).errors && e.column == "room_id"
    ensures exists a, b | 0 <= a < |ds| && 0 <= b < |ds| ::
              && e.row == ds[b].rowNumber && a != b
              && ValueText(ds[a].data, "room_number") == ValueText(ds[b].data, "room_number")
              && ValueText(ds[a].data, "day_of_week") == ValueText(ds[b].data, "day_of_week")
              && Intersect(SlotOf(ds[a]), SlotOf(ds[b]))
  {
    forall i | 0 <= i < |ds| ensures '|' !in ValueText(ds[i].data, "day_of_week") {
      assert ds[i] in ds;
    }
    RoomConflictsShareRoom(ds, e);
  }

  /** The rows of a timetable import that reach the overlap check have valid slots and distinct numbers. */
  lemma TimetableDbRowsValid(rows: seq<ParsedRow>, store: Store)
    requires Increasing(rows)
    ensures ValidTimetableRows(RunStages(rows, ConfigOf(TimetableImport), TimetableCsvSchema, store).db.rows)
  {
    var s := RunStages(rows, ConfigOf(TimetableImport), TimetableCsvSchema, store);
    var ds := s.db.rows;
    TimetableRowsReachingOverlapCheck(rows, store);
    StagesOnlyRemoveRows(rows, ConfigOf(TimetableImport), TimetableCsvSchema, store);
    assert Increasing(ds);
    forall i | 0 <= i < |ds| ensures ValidSlot(SlotOf(ds[i])) {
      assert ds[i] in ds;
    }
  }
}
