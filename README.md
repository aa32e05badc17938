# EzAttend bulk import, in Dafny

This project models the CSV bulk-import engine of the EzAttend admin
dashboard and the code around it:

- the CSV gatekeeper: header validation, row numbering and stream errors;
- per-row schema validation and the mapping of schema issues to error codes;
- relation resolution: human keys such as class names become document ids;
- the consistency checks: duplicates within the file, duplicates against the
  database, and timetable overlaps;
- the six entity configurations, including their chunked persistence;
- the pipeline that chains these stages;
- the upload route that admits a file and creates a job;
- the job records and the queue worker, with their retry ceiling;
- the timetable service's overlap checks for single-entry writes;
- the domain ownership tables;
- two front-end helpers: error wording and the route guard.

Each source file is one module, except
`consistency-checker.ts`: its duplicate checks are `ConsistencyChecker` and
its timetable overlap check is `TimetableOverlaps`. Pure code is written as functions and
lemmas. Code that updates state becomes a `class` with methods proved
against specification functions: the job store, the worker with its channel,
and the in-place relation resolution of the rows. Imperative loops become
methods with loop invariants.

The database is a value `Store`: a map from model name to documents, kept in
natural order. The CSV tokenizer is a sequence of `CsvEvent`s, each a record
or a stream error. A schema is a function from raw data to a parse result.
Clocks and identifiers are parameters. Queue operations are recorded on an
explicit channel log.

Some code behaves differently from its documentation or its evident intent. The model follows the code in these places and proves how it behaves:

- Terminal job states are not guarded. A COMPLETED job can still be marked FAILED, and its progress can still change (`JobService.TerminalJobsAreNotFrozen`).
- The route ignores the publisher's back-pressure result (`UploadRoutes.BackPressureIgnored`).
- JSON with an empty `csv` string is rejected as a missing body, not as empty content (`UploadRoutes.EmptyJsonCsvIsMissingBody`).
- A failure of the RUNNING claim escapes the worker's handler. The consumer then dead-letters the delivery and never retries, so the job stays PENDING (`JobWorker.ClaimFailureStrandsJob`).
- The upload route's precondition message differs from the pipeline's. The two checks agree on when they fail (`UploadRoutes.GateAgreesWithImportPreconditions`).
- An array reference that repeats an existing id is reported as not found (`RelationResolver.RepeatedIdIsReported`).
- The database duplicate query matches the first spelling exactly, so a stored case variant goes undetected (`ConsistencyChecker.CaseVariantNotDetected`).

## Model

| member | source | states |
|---|---|---|
| CommonSchema.Minutes | backend/src/schemas/common.schema.ts:7-9 | a well-formed `HH:MM` names an hour below 24 and a minute below 60, so its minute of the day lies in [0, 1440) |
| CommonSchema.ObjectIdIgnoresCase | backend/src/schemas/common.schema.ts:3-5 | the id pattern is case-insensitive: a text is an id exactly when its lower-case form is |
| CommonSchema.TimeRejectsExamples | backend/src/schemas/common.schema.ts:7-9 | the time pattern rejects `9:00`, `24:00` and `12:60` and accepts `00:00` and `23:59` |
| CommonSchema.MinutesInjective | backend/src/schemas/common.schema.ts:7-9 | two well-formed times naming the same minute are the same text |
| CommonSchema.TimeLessIsEarlier | backend/src/schemas/common.schema.ts:7-9 | for well-formed times, string order implies an earlier minute |
| CommonSchema.TimeOrderIsChronological | backend/src/schemas/common.schema.ts:7-9 | for well-formed times, string comparison agrees with chronological order in both directions |
| CommonSchema.IdParamIgnoresOtherKeys | backend/src/schemas/common.schema.ts:11-13 | the id-parameter schema looks only at `id`: no other key changes its verdict |
| TimetableSchema.TimeOrderIssue | backend/src/schemas/timetable.schema.ts:13-16 | the refinement raises an issue exactly when the create schema rejects an otherwise well-formed body; the issue is a `custom` issue on path `end_time` |
| TimetableSchema.TimeOrderIssueIsFormatError | backend/src/schemas/timetable.schema.ts:13-16 | through the row validator, the time-order issue becomes an INVALID_FORMAT error on column `end_time` of the row |
| TimetableSchema.CreateAccepted | backend/src/schemas/timetable.schema.ts:5-16 | an accepted create body has four well-formed reference ids, a day other than Sunday, and a start strictly before its end |
| TimetableSchema.CreateImpliesUpdate | backend/src/schemas/timetable.schema.ts:5-26 | every body the create schema accepts is accepted by the update schema |
| TimetableSchema.UpdateAllowsInvertedTimes | backend/src/schemas/timetable.schema.ts:18-26 | the update schema accepts a body whose end comes before its start, because it has no order refinement |
| RowValidator.MapIssueCode | backend/src/ingestion/validators/row-validator.ts:38-57 | the result is always a field code: REQUIRED_FIELD exactly for an `invalid_type` issue whose message mentions "required" in any case; INVALID_ENUM exactly for `invalid_enum_value`; INVALID_FORMAT exactly for string, size and custom issues |
| RowValidator.EmptyRequiredFieldIsFormatError | backend/src/ingestion/validators/row-validator.ts:43-51 | a `too_small` issue, which an empty required string raises, maps to INVALID_FORMAT and never to REQUIRED_FIELD |
| RowValidator.RequiredMessageIsRequiredField | backend/src/ingestion/validators/row-validator.ts:43-44 | an `invalid_type` issue whose message contains "required" in any case maps to REQUIRED_FIELD |
| RowValidator.IssuesToErrors | backend/src/ingestion/validators/row-validator.ts:24-36 | one error per issue, in order, each carrying the row number, the issue's message, its dotted path as the column, and the mapped code |
| RowValidator.ValidateRow | backend/src/ingestion/validators/row-validator.ts:4-22 | a row is valid exactly when the schema accepts its coerced data, and then carries the schema's output; otherwise it carries one field-coded error per issue, all on that row |
| RowValidator.ColumnRecoversPath | backend/src/ingestion/validators/row-validator.ts:26 | when no path segment contains a dot, splitting the column name on dots gives back the issue path |
| IngestionTypes.ParseEntityType | backend/src/models/upload-job.model.ts:6-13 | a name parses to the entity type whose name it is, and fails to parse exactly when it names none of the six |
| CsvParser.MissingErrors | backend/src/ingestion/parsers/csv-parser.ts:71-80 | one MISSING_HEADER error at row 0 for each expected header whose lower-case form is absent from the file, and no other errors |
| CsvParser.ExtraErrors | backend/src/ingestion/parsers/csv-parser.ts:82-91 | an EXTRA_HEADER error at row 0 for each file header whose trimmed lower-case form is not expected, carrying the trimmed header, and no other errors |
| CsvParser.ValidateHeaders | backend/src/ingestion/parsers/csv-parser.ts:63-94 | every header error is at row 0 and is a missing or extra error, with all missing errors before any extra error |
| CsvParser.ValidateHeadersEmptyIff | backend/src/ingestion/parsers/csv-parser.ts:63-94 | there are no header errors exactly when the file's normalised header set equals the expected set |
| CsvParser.MissingEmptyIff | backend/src/ingestion/parsers/csv-parser.ts:68-80 | there is no missing-header error exactly when every expected header is present |
| CsvParser.ExtraEmptyIff | backend/src/ingestion/parsers/csv-parser.ts:82-91 | there is no extra-header error exactly when every file header is expected |
| CsvParser.StreamErrors | backend/src/ingestion/parsers/csv-parser.ts:48-55 | every stream error becomes a PARSE_ERROR on a row numbered 1 or more |
| CsvParser.Numbered | backend/src/ingestion/parsers/csv-parser.ts:44-45 | the k-th kept record becomes row k + 1, with its data unchanged |
| CsvParser.StepRecord | backend/src/ingestion/parsers/csv-parser.ts:32-46 | a record event appends its data to the records and adds no parse error |
| CsvParser.StepError | backend/src/ingestion/parsers/csv-parser.ts:48-55 | a stream error adds one PARSE_ERROR numbered one past the records seen so far, and keeps the records |
| CsvParser.HeaderFailStep | backend/src/ingestion/parsers/csv-parser.ts:33-39 | when the first record's headers fail, the result has no rows, and its errors are the stream errors before that record followed by the header errors |
| CsvParser.ParseCsv | backend/src/ingestion/parsers/csv-parser.ts:10-61 | the event loop computes exactly the specification of the parse |
| CsvParser.RowsNumberedConsecutively | backend/src/ingestion/parsers/csv-parser.ts:44-45 | when rows are returned, there is one per record, numbered 1, 2, ... in file order |
| CsvParser.HeaderFailureKeepsNoRows | backend/src/ingestion/parsers/csv-parser.ts:33-39 | a header mismatch on the first record returns no rows; its errors are the earlier stream errors, all on row 1, followed by the header errors |
| CsvParser.ParseErrorsBeforeAnyRecord | backend/src/ingestion/parsers/csv-parser.ts:48-55 | stream errors raised before any record are all reported on row 1 |
| CsvParser.HeaderOnlyFileHasNoRows | backend/src/ingestion/parsers/csv-parser.ts:32-59 | a stream without records returns no rows, and only PARSE_ERRORs on row 1 |
| CsvParser.LoneStreamErrorPending | backend/src/ingestion/parsers/csv-parser.ts:48-59 | as written, a file whose only event is a stream error leaves the parse pending; the intended parse answers with one PARSE_ERROR on row 1 |
| CsvParser.StreamErrorListed | backend/src/ingestion/parsers/csv-parser.ts:48-55 | the PARSE_ERROR of a stream error stays among the errors of every longer prefix of the stream |
| CsvParser.EveryStreamErrorReported | backend/src/ingestion/parsers/csv-parser.ts:32-59 | in the intended parse, every stream error met before a header failure is reported, one row past the records before it |
| CsvParser.PendingParseHadErrors | backend/src/ingestion/parsers/csv-parser.ts:14-59 | whenever the parse as written stays pending, the intended parse reports at least one PARSE_ERROR |
| RelationResolver.TrimmedNonEmpty | backend/src/ingestion/resolvers/relation-resolver.ts:76-79 | the parts of a multi-value cell are exactly its trimmed pieces that are not empty |
| RelationResolver.LookupValues | backend/src/ingestion/resolvers/relation-resolver.ts:59-92 | the lookup values of a column have no repeats, and are exactly the values some row's cell contributes |
| RelationResolver.CellValuesCases | backend/src/ingestion/resolvers/relation-resolver.ts:71-83 | a missing or empty cell contributes nothing; a cell without `\|` contributes itself untrimmed; a cell with `\|` contributes only non-empty parts free of the separator |
| RelationResolver.AddCellValues | backend/src/ingestion/resolvers/relation-resolver.ts:71-83 | the loop adds a cell's values to the accumulated set, in first-seen order |
| RelationResolver.AddRowValues | backend/src/ingestion/resolvers/relation-resolver.ts:70-84 | one row adds its cell values to the set of each relation column and touches no other key |
| RelationResolver.ExtractUniqueLookupValues | backend/src/ingestion/resolvers/relation-resolver.ts:59-92 | the result has one entry per relation column, holding that column's distinct lookup values |
| RelationResolver.LookupMap | backend/src/ingestion/resolvers/relation-resolver.ts:119-124 | the map from looked-up field text to id has a key for exactly the texts some document carries |
| RelationResolver.LookupMapLastWins | backend/src/ingestion/resolvers/relation-resolver.ts:120-124 | when several documents share a lookup text, the id of the last one in natural order wins |
| RelationResolver.RelationMapContents | backend/src/ingestion/resolvers/relation-resolver.ts:102-128 | a value is in the relation map exactly when the file uses it and a stored document of the related model carries it in the lookup field, and it then maps to such a document's id |
| RelationResolver.RelationMapSound | backend/src/ingestion/resolvers/relation-resolver.ts:112-124 | every mapped value comes from the file and maps to the id of a document that carries it |
| RelationResolver.RelationMapComplete | backend/src/ingestion/resolvers/relation-resolver.ts:112-124 | every value the file uses that some stored document carries is mapped |
| RelationResolver.FillRelationMap | backend/src/ingestion/resolvers/relation-resolver.ts:119-124 | the loop over the found documents builds exactly the lookup map |
| RelationResolver.BuildRelationMaps | backend/src/ingestion/resolvers/relation-resolver.ts:94-135 | one map per relation column, each the relation map of that column's lookup values against the store |
| RelationResolver.Unresolved | backend/src/ingestion/resolvers/relation-resolver.ts:174-187 | the unresolved parts are exactly the parts the map does not resolve |
| RelationResolver.PartErrors | backend/src/ingestion/resolvers/relation-resolver.ts:176-183 | one RELATION_NOT_FOUND error per unresolved part, in order |
| RelationResolver.ResolveParts | backend/src/ingestion/resolvers/relation-resolver.ts:170-194 | the loop over a cell's parts returns the resolved ids, one error per unresolved part, and an error flag set exactly when some part is unresolved |
| RelationResolver.ResolveRowInPlace | backend/src/ingestion/resolvers/relation-resolver.ts:145-215 | the row at the index is rewritten to its resolved form, its errors are returned with a flag exactly when there are any, and every other row is unchanged |
| RelationResolver.ResolveRelations | backend/src/ingestion/resolvers/relation-resolver.ts:137-219 | the rows array is rewritten in place, and the resolved rows and the errors returned are exactly those of the specification |
| RelationResolver.ResolveColumnAbsent | backend/src/ingestion/resolvers/relation-resolver.ts:149-152 | a missing or empty cell is left alone and raises no error |
| RelationResolver.ResolveColumnFrame | backend/src/ingestion/resolvers/relation-resolver.ts:148-211 | resolving one column changes no other column of the row |
| RelationResolver.ResolveColumnScalar | backend/src/ingestion/resolvers/relation-resolver.ts:195-210 | a single-value cell is replaced by its id exactly when it resolves; otherwise the row is kept and one RELATION_NOT_FOUND error names the value |
| RelationResolver.ResolveColumnMulti | backend/src/ingestion/resolvers/relation-resolver.ts:169-194 | a multi-value cell raises one error for each unresolved part and no other; when all parts resolve it becomes their ids joined by `\|`, in order |
| RelationResolver.SeparatorOnlyCellBecomesEmpty | backend/src/ingestion/resolvers/relation-resolver.ts:169-194 | a cell holding only the separator has no parts, raises no error and is rewritten to the empty text |
| RelationResolver.ResolveColumnsErrors | backend/src/ingestion/resolvers/relation-resolver.ts:154-205 | every resolution error is a RELATION_NOT_FOUND on the row's own number and on one of the relation columns |
| RelationResolver.ResolveAllKeepsErrorFreeRows | backend/src/ingestion/resolvers/relation-resolver.ts:145-218 | each row is rewritten to its resolved form; the resolved rows are exactly the rewritten rows that raised no error; every error comes from some row |
| RelationResolver.ResolveAllKeepsOrder | backend/src/ingestion/resolvers/relation-resolver.ts:145-216 | the resolved rows keep file order, and each carries the number of an input row |
| RelationResolver.ResolveColumnsKeepsColumns | backend/src/ingestion/resolvers/relation-resolver.ts:148-211 | resolution never adds or removes a column of a row |
| RelationResolver.ResolveColumnsFrame | backend/src/ingestion/resolvers/relation-resolver.ts:148-211 | columns that are not relation columns are left unchanged |
| RelationResolver.RefErrors | backend/src/ingestion/resolvers/relation-resolver.ts:20-52 | there are no reference errors exactly when every reference check passes |
| RelationResolver.ValidateRefs | backend/src/ingestion/resolvers/relation-resolver.ts:14-57 | the check fails exactly when some reference check fails, and it then reports a non-empty list of RELATION_NOT_FOUND field errors |
| RelationResolver.RefErrorsCode | backend/src/ingestion/resolvers/relation-resolver.ts:35-48 | every reference error carries the code RELATION_NOT_FOUND |
| RelationResolver.CountIsExistingIds | backend/src/ingestion/resolvers/relation-resolver.ts:33 | with unique stored ids, the `$in` count is the number of distinct requested ids that exist |
| RelationResolver.ArrayRefMissingIff | backend/src/ingestion/resolvers/relation-resolver.ts:29-40 | an array reference fails its count exactly when it repeats an id or names an id that does not exist |
| RelationResolver.RepeatedIdIsReported | backend/src/ingestion/resolvers/relation-resolver.ts:33-34 | an array reference that names one existing id twice is reported as not found |
| ConsistencyChecker.KeyedRows | backend/src/ingestion/validators/consistency-checker.ts:13-14 | each row contributes its trimmed lower-case key for the field and its row number, in order |
| ConsistencyChecker.SeenKeys | backend/src/ingestion/validators/consistency-checker.ts:17-26 | the seen map holds exactly the non-empty keys met so far |
| ConsistencyChecker.SeenStep | backend/src/ingestion/validators/consistency-checker.ts:13-28 | one more row records a new key with its row number, or adds one DUPLICATE_IN_FILE error naming the first row when the key was seen |
| ConsistencyChecker.FieldInFileDuplicates | backend/src/ingestion/validators/consistency-checker.ts:11-28 | the loop over the rows returns exactly the specified duplicate errors for one field |
| ConsistencyChecker.CheckInFileDuplicates | backend/src/ingestion/validators/consistency-checker.ts:4-32 | the errors of all unique fields, field after field |
| ConsistencyChecker.DupCount | backend/src/ingestion/validators/consistency-checker.ts:13-28 | every row with a non-empty key is either the first with that key or reported: errors plus distinct keys equals the non-empty rows |
| ConsistencyChecker.SeenIsFirstRow | backend/src/ingestion/validators/consistency-checker.ts:17-26 | a seen key maps to the row number of its first occurrence |
| ConsistencyChecker.DupReported | backend/src/ingestion/validators/consistency-checker.ts:17-24 | every repeat of an earlier non-empty key is reported, naming the first row with that key |
| ConsistencyChecker.FirstNotReported | backend/src/ingestion/validators/consistency-checker.ts:25-27 | the first occurrence of a key adds no error |
| ConsistencyChecker.DupErrorsSound | backend/src/ingestion/validators/consistency-checker.ts:15-24 | every in-file error is a DUPLICATE_IN_FILE on the field, for a row whose non-empty key occurred on an earlier row |
| ConsistencyChecker.DbEntries | backend/src/ingestion/validators/consistency-checker.ts:49-53 | each kept value is trimmed, and its normalised form is its lower-case form |
| ConsistencyChecker.FirstSpelling | backend/src/ingestion/validators/consistency-checker.ts:55-57 | each normalised value maps to the trimmed spelling of one of its occurrences, and only values that occur have an entry |
| ConsistencyChecker.RowsOf | backend/src/ingestion/validators/consistency-checker.ts:59-61 | the row lists have an entry for exactly the normalised values that occur |
| ConsistencyChecker.RowsOfExact | backend/src/ingestion/validators/consistency-checker.ts:59-61 | every occurrence's row is listed under its value, and every listed row is an occurrence of that value |
| ConsistencyChecker.ExistingNormalised | backend/src/ingestion/validators/consistency-checker.ts:71-75 | the existing values have no repeats and are exactly the normalised field values of the found documents |
| ConsistencyChecker.DbErrorsFor | backend/src/ingestion/validators/consistency-checker.ts:77-87 | one DUPLICATE_IN_DB error for every row of every value found in the database, and no other errors |
| ConsistencyChecker.DbDuplicateIff | backend/src/ingestion/validators/consistency-checker.ts:43-87 | a file value is reported exactly when the spelling used in the query is stored under the field |
| ConsistencyChecker.ReportedOnlyIfStored | backend/src/ingestion/validators/consistency-checker.ts:66-87 | a reported row's value was queried, and its queried spelling is stored |
| ConsistencyChecker.ReportedIfStored | backend/src/ingestion/validators/consistency-checker.ts:66-87 | a row whose queried spelling is stored is reported |
| ConsistencyChecker.DbDuplicateSound | backend/src/ingestion/validators/consistency-checker.ts:77-87 | every database-duplicate error is justified by a file row and a stored document |
| ConsistencyChecker.CaseVariantNotDetected | backend/src/ingestion/validators/consistency-checker.ts:66-75 | the query matches spellings exactly: a stored `ABC` does not flag a file's `abc`, although both normalise to the same key |
| ConsistencyChecker.CollectStep | backend/src/ingestion/validators/consistency-checker.ts:49-62 | one more row with a value appends its row number under the value, and records a spelling only for a value not seen before |
| ConsistencyChecker.CollectValues | backend/src/ingestion/validators/consistency-checker.ts:46-62 | the loop builds exactly the row lists and the first spellings |
| ConsistencyChecker.CollectExisting | backend/src/ingestion/validators/consistency-checker.ts:71-75 | the loop builds exactly the set of existing normalised values |
| ConsistencyChecker.ReportExisting | backend/src/ingestion/validators/consistency-checker.ts:77-87 | the loop emits exactly the specified errors for the existing values |
| ConsistencyChecker.FieldDbDuplicates | backend/src/ingestion/validators/consistency-checker.ts:43-88 | for one field: nothing when no row has a value, otherwise exactly the DUPLICATE_IN_DB errors specified for the values the query finds |
| ConsistencyChecker.CheckDbDuplicates | backend/src/ingestion/validators/consistency-checker.ts:35-91 | the errors of all unique fields, queried against the model's stored documents, field after field |
| TimetableOverlaps.SortByStart | backend/src/ingestion/validators/consistency-checker.ts:157 | sorting the slots by start time keeps exactly the same slots |
| TimetableOverlaps.SortByStartCorrect | backend/src/ingestion/validators/consistency-checker.ts:157 | the sorted slots are ordered by start, and slots with equal starts keep their input order (the sort is stable) |
| TimetableOverlaps.PairsWithExact | backend/src/ingestion/validators/consistency-checker.ts:160-165 | the inner loop pairs slot i with exactly the later sorted slots that start before slot i ends |
| TimetableOverlaps.PairsUpToExact | backend/src/ingestion/validators/consistency-checker.ts:159-166 | the outer loop yields exactly the flagged pairs (i, j) with i < j |
| TimetableOverlaps.FindOverlaps | backend/src/ingestion/validators/consistency-checker.ts:152-169 | the nested loops compute exactly the specified overlap list |
| TimetableOverlaps.FlaggedIffIntersect | backend/src/ingestion/validators/consistency-checker.ts:161-162 | on start-sorted, well-formed slots, the one-sided test `start < end` flags a pair exactly when the two intervals intersect |
| TimetableOverlaps.OverlapsSound | backend/src/ingestion/validators/consistency-checker.ts:152-169 | every reported pair is two different slots of the group whose intervals intersect |
| TimetableOverlaps.OverlapsComplete | backend/src/ingestion/validators/consistency-checker.ts:152-169 | every two intersecting slots are reported, in one order or the other |
| TimetableOverlaps.TouchingSlotsDoNotOverlap | backend/src/ingestion/validators/consistency-checker.ts:162 | a slot that ends exactly when another starts does not overlap it: the comparison is strict |
| TimetableOverlaps.GroupKeysExact | backend/src/ingestion/validators/consistency-checker.ts:111-123 | the group keys have no repeats and are exactly the keys of the rows |
| TimetableOverlaps.GroupSound | backend/src/ingestion/validators/consistency-checker.ts:111-123 | every slot in a group comes from a row with that group's key |
| TimetableOverlaps.InOwnGroup | backend/src/ingestion/validators/consistency-checker.ts:111-123 | every row's slot is in the group of its key |
| TimetableOverlaps.ConflictErrors | backend/src/ingestion/validators/consistency-checker.ts:127-134 | one CONFLICT_OVERLAP error per overlap, in order, on the later row |
| TimetableOverlaps.BuildGroups | backend/src/ingestion/validators/consistency-checker.ts:108-123 | the loop builds exactly the specified keys, in first-seen order, and the specified groups |
| TimetableOverlaps.ReportGroups | backend/src/ingestion/validators/consistency-checker.ts:125-147 | the loop over the groups emits exactly the specified errors, group after group |
| TimetableOverlaps.ReportOverlaps | backend/src/ingestion/validators/consistency-checker.ts:127-134 | the loop over one group's overlaps emits exactly their conflict errors |
| TimetableOverlaps.CheckTimetableOverlaps | backend/src/ingestion/validators/consistency-checker.ts:102-150 | room conflicts, then teacher conflicts, exactly as specified |
| TimetableOverlaps.GroupErrorsSound | backend/src/ingestion/validators/consistency-checker.ts:125-135 | every group error is the conflict error of an overlap in some group |
| TimetableOverlaps.GroupErrorsComplete | backend/src/ingestion/validators/consistency-checker.ts:125-135 | every overlap of every group is reported |
| TimetableOverlaps.ConflictsSound | backend/src/ingestion/validators/consistency-checker.ts:102-150 | every conflict error names a row that shares its key with another row whose slot intersects |
| TimetableOverlaps.ConflictsComplete | backend/src/ingestion/validators/consistency-checker.ts:102-150 | any two rows with the same key and intersecting slots raise a conflict on one of them |
| TimetableOverlaps.GroupKeyParts | backend/src/ingestion/validators/consistency-checker.ts:114-115 | when the day has no `\|`, equal keys mean the same resource and the same day |
| TimetableOverlaps.RoomConflictsShareRoom | backend/src/ingestion/validators/consistency-checker.ts:112-134 | keyed by the file's room column, a room conflict always involves two rows with the same room on the same day whose slots intersect |
| TimetableOverlaps.RoomIdKeyConflatesRooms | backend/src/ingestion/validators/consistency-checker.ts:112-114 | keyed by a `room_id` column the rows lack, any two same-day rows with intersecting slots raise a room conflict, whatever their rooms |
| TimetableOverlaps.NoSharedResourceNoConflict | backend/src/ingestion/validators/consistency-checker.ts:102-150 | rows that share neither a room nor a teacher raise no conflict |
| TimetableOverlaps.TwoRoomsExampleConflict | backend/src/ingestion/validators/consistency-checker.ts:112-134 | two Monday rows in different rooms with different teachers raise a room conflict under the `room_id` key and none under the room column |
| EntityConfigs.ConfigOf | backend/src/ingestion/entity-configs.ts:12-370 | each config's headers are distinct; unique fields and relation columns are headers; every relation points at a model the import requires; exactly the student and timetable imports have relations and preconditions; only the timetable import has no unique field; exactly the student and teacher imports persist in chunked transactions; only `email` is checked against another model (`User`) |
| EntityConfigs.TimetableFileHasNoRoomId | backend/src/ingestion/entity-configs.ts:318-366 | a timetable file has no `room_id` column: it names its room in `room_number`, which is a relation column |
| EntityConfigs.NameField | backend/src/ingestion/entity-configs.ts:329-332 | a trimmed required text field is accepted exactly when present and not blank after trimming, and yields the trimmed value |
| EntityConfigs.DayField | backend/src/ingestion/entity-configs.ts:333 | the day field is accepted exactly when it is one of the schema's days, and is kept as given |
| EntityConfigs.TimeField | backend/src/ingestion/entity-configs.ts:334-335 | a time field is accepted exactly when it is a well-formed `HH:MM`, and is kept as given |
| EntityConfigs.TimetableFieldsClean | backend/src/ingestion/entity-configs.ts:328-335 | the seven field checks raise no issue exactly when every field is acceptable, and then none of them aborts the object |
| EntityConfigs.TimetableSchemaAcceptsIff | backend/src/ingestion/entity-configs.ts:328-339 | a timetable row is accepted exactly when its fields are acceptable and its start is before its end; the output has exactly the seven columns, with the name fields trimmed and the times as given |
| EntityConfigs.TimeOrderReportedOnEndTime | backend/src/ingestion/entity-configs.ts:336-339 | a row whose fields are acceptable but whose start is not before its end fails with exactly one INVALID_FORMAT error, on `end_time` |
| EntityConfigs.MalformedStartAlsoFailsOrder | backend/src/ingestion/entity-configs.ts:334-339 | a start of `9:00` with an end of `10:00` raises the format issue and also the order issue, because `"9:00" < "10:00"` is false as text |
| EntityConfigs.MissingColumnSkipsOrder | backend/src/ingestion/entity-configs.ts:328-339 | a row without `class_name` fails with a "Required" type issue on it, and the order refinement does not run |
| EntityConfigs.FloorNumberIssues | backend/src/ingestion/entity-configs.ts:93-96 | a floor number raises no issue exactly when its trimmed text has an integer prefix; all issues are on `floor_number` |
| EntityConfigs.FloorNumberExamples | backend/src/ingestion/entity-configs.ts:93-96 | `2nd`, `1e3` and ` -1 ` are accepted as floors; `G1`, `+` and `- 1` are not; an empty floor raises two issues |
| EntityConfigs.PersistInsertMany | backend/src/ingestion/entity-configs.ts:27-45 | a clean insert reports nothing; a bulk-write failure reports one INSERT_FAILED error per write error, in order; any other failure reports one INSERT_FAILED error on row 0 |
| EntityConfigs.InsertManyRowsArePositions | backend/src/ingestion/entity-configs.ts:36-39 | the rows of bulk-write errors are 1-based positions in the valid documents, not file row numbers |
| EntityConfigs.FailedChunkErrors | backend/src/ingestion/entity-configs.ts:212-221 | a failed chunk reports one INSERT_FAILED error per document, numbered by its 1-based position, all with the transaction's message |
| EntityConfigs.ReportFailedChunk | backend/src/ingestion/entity-configs.ts:212-221 | the loop appends exactly the failed chunk's errors |
| EntityConfigs.PersistChunked | backend/src/ingestion/entity-configs.ts:172-228 | the chunk loop returns exactly the specified errors |
| EntityConfigs.ChunkedErrorsExact | backend/src/ingestion/entity-configs.ts:178-225 | the errors are in increasing row order; each lies in a failed chunk and carries that chunk's message; every position of a failed chunk is reported |
| EntityConfigs.ChunkedReportsFailedChunks | backend/src/ingestion/entity-configs.ts:178-225 | a position is reported exactly when its chunk's transaction failed, and rows are increasing |
| EntityConfigs.AllCommittedNoErrors | backend/src/ingestion/entity-configs.ts:178-225 | when every transaction commits there are no errors |
| EntityConfigs.AllFailedReportsAll | backend/src/ingestion/entity-configs.ts:178-225 | when every transaction fails there is one error per document |
| Pipeline.PreconditionErrors | backend/src/ingestion/pipeline.ts:136-157 | one PRECONDITION_FAILED error for each required model with no document, and none when every required model has one |
| Pipeline.CheckPreconditions | backend/src/ingestion/pipeline.ts:136-157 | the loop over the required models computes exactly the precondition errors |
| Pipeline.ValidateRows | backend/src/ingestion/pipeline.ts:49-57 | the loop keeps the rows the schema accepts, with the schema's output, and collects the errors of the others, exactly as specified |
| Pipeline.DropRows | backend/src/ingestion/pipeline.ts:62-63 | the kept rows are exactly the rows whose number is not flagged |
| Pipeline.FilterRows | backend/src/ingestion/pipeline.ts:62-63 | filtering by an error list drops exactly the rows the errors name |
| Pipeline.PersistBatches | backend/src/ingestion/pipeline.ts:100-116 | the batch loop returns exactly the specified persist errors, success count and progress reports |
| Pipeline.ResolveStage | backend/src/ingestion/pipeline.ts:65-75 | the relation stage builds the maps from the store and resolves the rows exactly as specified, and is skipped without relations |
| Pipeline.DbDuplicateStage | backend/src/ingestion/pipeline.ts:77-88 | the database-duplicate stage reports and drops exactly as specified, and is skipped without unique fields |
| Pipeline.OverlapCheckStage | backend/src/ingestion/pipeline.ts:90-98 | the overlap stage runs only when the first row has the three timetable columns, reads the room from the column it is given (`room_id` in the pipeline), and drops the rows it flags |
| Pipeline.CheckRows | backend/src/ingestion/pipeline.ts:47-98 | the five checking stages run in order, each on the rows the previous one kept |
| Pipeline.PersistAndSummarise | backend/src/ingestion/pipeline.ts:100-123 | persisting what the stages kept and counting over every parsed row gives exactly the specified result and progress reports |
| Pipeline.ProcessRows | backend/src/ingestion/pipeline.ts:47-124 | checking then persisting the parsed rows gives exactly the specified result and progress reports |
| Pipeline.IngestCsv | backend/src/ingestion/pipeline.ts:18-124 | the whole import: preconditions, then the parse, then the rows, exactly as specified |
| Pipeline.PreconditionFailureAborts | backend/src/ingestion/pipeline.ts:25-35 | a required model without documents ends the import before the file is read: no rows, only PRECONDITION_FAILED errors on row 0, no progress, the same result for any file |
| Pipeline.ParseFailureAborts | backend/src/ingestion/pipeline.ts:37-45 | any parse error ends the import with zero counts, the parse errors and no progress |
| Pipeline.ValidatedOnlyRemoves | backend/src/ingestion/pipeline.ts:49-57 | validation keeps no more rows than it is given, numbered among the input's numbers and still increasing if they were, each carrying the schema's output for its own input row |
| Pipeline.DropRowsOnlyRemoves | backend/src/ingestion/pipeline.ts:62-63 | dropping keeps no more rows than it is given, numbered among the input's numbers and still increasing if they were |
| Pipeline.RelationStageOnlyRemoves | backend/src/ingestion/pipeline.ts:65-75 | the relation stage keeps, in order, a subset of the row numbers |
| Pipeline.DbStageOnlyRemoves | backend/src/ingestion/pipeline.ts:77-88 | the database-duplicate stage keeps only rows it is given, no more of them, and increasing row numbers stay increasing |
| Pipeline.OverlapStageOnlyRemoves | backend/src/ingestion/pipeline.ts:90-98 | the overlap stage, whichever column it reads the room from, keeps only rows it is given, no more of them, and increasing row numbers stay increasing |
| Pipeline.StagesOnlyRemoveRows | backend/src/ingestion/pipeline.ts:49-98 | every stage only removes rows, so the rows reaching persistence are drawn from the parsed rows in file order |
| Pipeline.BatchesPartition | backend/src/ingestion/pipeline.ts:103-105 | the batches are non-empty, hold at most 500 rows each, and concatenate to the rows |
| Pipeline.RunBatchesFacts | backend/src/ingestion/pipeline.ts:103-116 | the success count is the documents minus the persist errors; there is one progress report per batch, each the running total of rows handed to persistence |
| Pipeline.RunBatchesSuccessBounds | backend/src/ingestion/pipeline.ts:107-110 | when persistence never reports more errors than documents, the success count lies between zero and the number of documents |
| Pipeline.ProgressReports | backend/src/ingestion/pipeline.ts:111-115 | progress is reported exactly when some row is persisted; it increases by at most 500 at a time and ends at the number of persisted rows |
| Pipeline.ImportRowsCounts | backend/src/ingestion/pipeline.ts:100-123 | the total is the parsed row count, failures are the total minus successes, and the errors are the stages' errors followed by the persist errors |
| Pipeline.ImportRowsCountsBounded | backend/src/ingestion/pipeline.ts:118-123 | under sane persistence, successes and failures each lie between zero and the total |
| Pipeline.TimetableModelName | backend/src/ingestion/pipeline.ts:126-134 | the timetable headers name the model `Teacher`, and the database-duplicate stage leaves timetable rows untouched |
| Pipeline.ModelNames | backend/src/ingestion/pipeline.ts:126-134 | the other five imports are checked against Class, Subject, Room, Student and Teacher |
| Pipeline.ParsedTimetableShaped | backend/src/ingestion/pipeline.ts:159-165 | a row the timetable schema accepts has the seven columns, no `room_id`, a day name without `\|`, and a well-formed slot |
| Pipeline.ValidatedTimetableShaped | backend/src/ingestion/pipeline.ts:159-165 | every validated timetable row has that shape |
| Pipeline.ResolvedTimetableShaped | backend/src/ingestion/pipeline.ts:159-165 | relation resolution keeps that shape |
| Pipeline.TimetableRowsReachingOverlapCheck | backend/src/ingestion/pipeline.ts:90-98 | every timetable row reaching the overlap check has that shape, so the check runs and the rows carry no `room_id` |
| Pipeline.SourceRoomKeyFlagsAnySameDayOverlap | backend/src/ingestion/pipeline.ts:90-98 | in a timetable import, the overlap stage as written reports a room conflict for any two rows reaching it on the same day with intersecting slots, whatever their rooms |
| Pipeline.SourceOverlapStageFlags | backend/src/ingestion/validators/consistency-checker.ts:112-114 | on rows of the timetable shape, the stage keyed by `room_id` reports a room conflict for any same-day pair with intersecting slots |
| Pipeline.CorrectedRoomKeyFlagsOnlySharedRooms | backend/src/ingestion/pipeline.ts:90-98 | in a timetable import, the overlap stage keyed by `room_number` reports a room conflict only on a row that shares its room and day with another row reaching it, at intersecting times |
| Pipeline.CorrectedOverlapStageSound | backend/src/ingestion/validators/consistency-checker.ts:112-134 | on rows of the timetable shape, every room conflict of the stage keyed by `room_number` involves two rows with the same room and day and intersecting slots |
| JobService.Updated | backend/src/services/job.service.ts:82-85 | an update by id changes exactly the job with that id, and an unknown id changes nothing |
| JobService.NewestFirst | backend/src/services/job.service.ts:92-101 | the listed jobs are exactly the stored jobs matching the given filters |
| JobService.JobStore.CreateJob | backend/src/services/job.service.ts:13-26 | a new PENDING job with zero counts, no errors and creator `admin` unless given is appended, under the next id |
| JobService.JobStore.MarkJobRunning | backend/src/services/job.service.ts:28-33 | the job becomes RUNNING only if it is PENDING; nothing else changes |
| JobService.JobStore.MarkJobCompleted | backend/src/services/job.service.ts:35-54 | the job becomes COMPLETED with the given counts and errors, processed rows set to their sum and a completion time; nothing else changes |
| JobService.JobStore.MarkJobFailed | backend/src/services/job.service.ts:56-75 | the job becomes FAILED with a completion time and a single INSERT_FAILED error on row 0 carrying the message; nothing else changes |
| JobService.JobStore.UpdateJobProgress | backend/src/services/job.service.ts:78-86 | only the job's processed-row count changes |
| JobService.JobStore.GetJobById | backend/src/services/job.service.ts:88-90 | a job is found exactly when one has the id, and it is that job |
| JobService.JobStore.ListJobs | backend/src/services/job.service.ts:92-101 | exactly the jobs matching the filters, newest first |
| JobService.NewestFirstOrdered | backend/src/services/job.service.ts:100 | the listing is in strictly decreasing creation order |
| JobService.NoFilterListsAll | backend/src/services/job.service.ts:96-100 | without filters every job is listed |
| JobService.MarkRunningConditional | backend/src/services/job.service.ts:28-33 | the claim changes the store exactly when the job exists and is PENDING, and repeating it changes nothing more |
| JobService.CompletedProcessedIsTotal | backend/src/services/job.service.ts:35-54 | when failures are the total minus successes, a completed job's processed rows equal the total and its identity and totals are kept |
| JobService.FailedKeepsCounts | backend/src/services/job.service.ts:56-75 | marking a job failed keeps its counts and replaces its errors with the one failure error |
| JobService.TerminalJobsAreNotFrozen | backend/src/services/job.service.ts:35-86 | a COMPLETED job can still be marked FAILED and can still have its progress changed; only the RUNNING claim is guarded |
| JobWorker.LookupConfig | backend/src/jobs/worker.ts:43 | a config is found exactly when one is registered under the entity type the message names |
| JobWorker.Worker.RegisterEntityConfig | backend/src/jobs/worker.ts:17-22 | registering sets the type's config, replacing any earlier one |
| JobWorker.Worker.ReportProgress | backend/src/jobs/worker.ts:57-59 | the progress callbacks leave the job's processed rows at the last report |
| JobWorker.ApplyProgressFrame | backend/src/jobs/worker.ts:57-59 | progress reports change only the job's processed rows, to the last report, and no other job |
| JobWorker.Worker.HandleMessage | backend/src/jobs/worker.ts:24-97 | handling a delivery updates the jobs and appends to the channel exactly as specified, and says whether an error escaped |
| JobWorker.Worker.OnMessage | backend/src/jobs/worker.ts:104-118 | the consumer runs the handler and dead-letters the delivery itself when an error escapes |
| JobWorker.MalformedBodyDeadLettered | backend/src/jobs/worker.ts:30-36 | an unreadable body is dead-lettered without touching any job or running the import |
| JobWorker.EachDeliverySettledOnce | backend/src/jobs/worker.ts:24-118 | every delivery is settled exactly once (one ack or nack); any resend carries the same content with the retry count plus one |
| JobWorker.MissingConfigFailsJob | backend/src/jobs/worker.ts:42-49 | with no registered config, the job is marked FAILED with the no-config message and the delivery is dead-lettered, without running the import |
| JobWorker.SuccessCompletesAndAcks | backend/src/jobs/worker.ts:54-72 | a successful import marks the job COMPLETED with the result's counts and errors and acknowledges the delivery |
| JobWorker.CrashBelowCeilingRetries | backend/src/jobs/worker.ts:73-89 | a crash below the retry ceiling dead-letters the delivery and resends it with the retry count plus one, without failing the job |
| JobWorker.CrashAtCeilingFailsJob | backend/src/jobs/worker.ts:90-95 | a crash at the ceiling marks the job FAILED with the max-retries message and dead-letters the delivery |
| JobWorker.ClaimFailureStrandsJob | backend/src/jobs/worker.ts:51-117 | when the RUNNING claim itself fails, the consumer dead-letters the delivery and the job is left as it was, with no retry |
| JobWorker.ResendOnlyBelowCeiling | backend/src/jobs/worker.ts:77-95 | a resend happens only below the ceiling, after a run; otherwise the delivery is settled by a single ack or nack |
| JobWorker.ChainBounded | backend/src/jobs/worker.ts:77-95 | a chain of redeliveries runs the import at most the remaining number of attempts and fails the job at most once |
| JobWorker.AtMostThreeRuns | backend/src/jobs/worker.ts:77-95 | a fresh message runs the import at most three times |
| JobWorker.ThreeCrashesFailOnce | backend/src/jobs/worker.ts:77-95 | three crashes in a row run the import three times and fail the job once, with the last crash's message |
| JobWorker.CompletedJobAccountsForEveryRow | backend/src/jobs/worker.ts:57-66 | after a clean import, the completed job's processed rows equal its successes plus failures, which equal the parsed rows |
| JobWorker.PreconditionLostAfterUploadCompletesEmpty | backend/src/jobs/worker.ts:57-72 | if a required collection is empty when the worker runs, the job still completes, with no rows processed and only PRECONDITION_FAILED errors |
| UploadRoutes.MissingModelErrors | backend/src/routes/upload.routes.ts:114-119 | one PRECONDITION_FAILED error per missing model, in order |
| UploadRoutes.CsvContent | backend/src/routes/upload.routes.ts:50-63 | the body yields text exactly when it is text or a buffer, or JSON whose `csv` field is a non-empty string |
| UploadRoutes.Missing | backend/src/routes/upload.routes.ts:97-110 | there are never more missing models than required models |
| UploadRoutes.MissingMembers | backend/src/routes/upload.routes.ts:97-110 | a model is missing exactly when it is required and has no document |
| UploadRoutes.CollectMissing | backend/src/routes/upload.routes.ts:97-108 | the loop collects exactly the missing models |
| UploadRoutes.CheckGate | backend/src/routes/upload.routes.ts:44-123 | the gate's checks, in the route's order, give exactly the specified verdict |
| UploadRoutes.CheckParsed | backend/src/routes/upload.routes.ts:79-123 | after the parse, the gate's verdict is exactly as specified |
| UploadRoutes.HandleUpload | backend/src/routes/upload.routes.ts:30-161 | the route updates the job store, answers and publishes exactly as specified |
| UploadRoutes.GateForAdmitsIff | backend/src/routes/upload.routes.ts:44-123 | a file is admitted exactly when it passes every check, and then with the number of parsed rows |
| UploadRoutes.GateAdmitsIff | backend/src/routes/upload.routes.ts:36-123 | a request is admitted exactly when it names an entity type and passes that type's checks |
| UploadRoutes.RejectionCreatesNoJob | backend/src/routes/upload.routes.ts:36-123 | a rejected upload creates no job, publishes nothing and answers 400 |
| UploadRoutes.UnknownTypeRejectedFirst | backend/src/routes/upload.routes.ts:36-42 | an unknown entity type is rejected with the invalid-type message, whatever the body |
| UploadRoutes.EmptyJsonCsvIsMissingBody | backend/src/routes/upload.routes.ts:50-71 | JSON with an empty `csv` is rejected as a missing body, while an empty text body is rejected as empty content |
| UploadRoutes.ParseErrorsReturnedExactly | backend/src/routes/upload.routes.ts:79-86 | parse errors reject the upload and are returned as they are |
| UploadRoutes.MissingModelErrorsList | backend/src/routes/upload.routes.ts:110-120 | the precondition errors name exactly the missing models |
| UploadRoutes.MissingPreconditionsListed | backend/src/routes/upload.routes.ts:97-123 | a parsed, non-empty file whose type requires a missing model is rejected, listing exactly the missing models |
| UploadRoutes.PreconditionGateOnlyForDependentImports | backend/src/routes/upload.routes.ts:97-123 | only student and timetable uploads can fail the precondition check |
| UploadRoutes.GateAgreesWithImportPreconditions | backend/src/routes/upload.routes.ts:97-123 | the route's precondition check passes exactly when the import's own check passes |
| UploadRoutes.AdmittedCreatesPendingJob | backend/src/routes/upload.routes.ts:125-160 | an admitted upload appends one PENDING job for the parsed row count, publishes a message for it, and answers 202 |
| UploadRoutes.PublishFailureFailsJob | backend/src/routes/upload.routes.ts:132-148 | when publishing throws, the new job is marked FAILED with the enqueue message and the route answers 500 with the job id |
| UploadRoutes.BackPressureIgnored | backend/src/routes/upload.routes.ts:132-138 | the route ignores the publisher's back-pressure return: a refused send looks the same as an accepted one |
| UploadRoutes.AcceptedUploadProcessesEveryRow | backend/src/routes/upload.routes.ts:125-160 | an admitted upload, run once by the worker with a clean store, ends COMPLETED with every row processed, and the delivery is acknowledged |
| UploadRoutes.AdmittedPassesImport | backend/src/routes/upload.routes.ts:36-123 | an admitted upload names a known type, parses without errors, counts the parsed rows, and has all required models present |
| TimetableService.FindOne | backend/src/services/timetable.service.ts:34-46 | the query returns a stored entry on the same day, other than the excluded one, whose slot overlaps and whose resource matches; it returns nothing exactly when no such entry exists |
| TimetableService.CheckOverlaps | backend/src/services/timetable.service.ts:26-73 | the three queries, in the service's order, give exactly the specified conflict |
| TimetableService.IndexOfId | backend/src/services/crud.factory.ts:52-58 | an update finds the entry with the given id, or finds none exactly when no entry has it |
| TimetableService.Merge | backend/src/services/crud.factory.ts:52-58 | an update keeps the entry's other fields and overwrites exactly the fields in the body |
| TimetableService.PartialBodyIsNotChecked | backend/src/services/timetable.service.ts:30-32 | a body missing the day, the start or the end is never checked for overlaps |
| TimetableService.ConflictIffClash | backend/src/services/timetable.service.ts:26-73 | a complete body conflicts exactly when some stored entry clashes with it on a resource, and the reported entry does clash on the reported resource |
| TimetableService.FirstConflictWins | backend/src/services/timetable.service.ts:44-72 | the class conflict is reported before the room conflict, and the room conflict before the teacher conflict |
| TimetableService.UpdateNeverClashesWithItself | backend/src/services/timetable.service.ts:40-42 | an update is never reported as conflicting with the entry it updates |
| TimetableService.BackToBackDoesNotClash | backend/src/services/timetable.service.ts:34-38 | an entry ending when the new one starts is not in its slot |
| TimetableService.SlotTestIsMinuteIntersection | backend/src/services/timetable.service.ts:34-38 | for well-formed times on the same day, the query's string comparisons match exactly when the two intervals intersect |
| TimetableService.CreateWritesIffChecksPass | backend/src/services/timetable.service.ts:78-82 | a create writes exactly when the references exist and no overlap is found, and it then appends the entry and leaves the other models alone |
| TimetableService.BadReferencesReportedFirst | backend/src/services/timetable.service.ts:78-88 | a body with a bad reference is refused for the references by both create and update, before any overlap check |
| TimetableService.UpdateSetsFields | backend/src/services/timetable.service.ts:84-88 | an update that passes the checks fails exactly when the id is unknown; otherwise it sets the body's fields on that entry and changes no other entry |
| Domain.ParseCollection | backend/src/config/domain.ts:15-27 | a name parses to the collection it names, and fails exactly when it names none |
| Domain.AssertAdminOwned | backend/src/config/domain.ts:113-120 | when the assertion throws, its message names the collection and lists the six owned collections |
| Domain.AssertAdminOwnedIff | backend/src/config/domain.ts:113-120 | the assertion passes exactly for the six owned collection names |
| Domain.IsAdminReadonlyIff | backend/src/config/domain.ts:121-123 | exactly `sessions` and `attendance` are read-only |
| Domain.OwnedAndReadonlyDisjoint | backend/src/config/domain.ts:54-66 | no collection is both owned and read-only |
| Domain.MatrixCoversEachCollectionOnce | backend/src/config/domain.ts:39-51 | the ownership matrix has exactly one row per collection |
| Domain.AdminPermissionsFollowOwnership | backend/src/config/domain.ts:39-66 | the admin holds all four permissions on each owned collection and only READ on each read-only one |
| Domain.ImportsWriteOwnedCollections | backend/src/config/domain.ts:54-61 | every import writes an admin-owned collection, so the ownership assertion passes for it |
| Domain.PreconditionsAreReferencedCollections | backend/src/config/domain.ts:71-111 | an import requires exactly the collections its own collection references, other than `users` |
| Domain.ConfigPreconditionsMatchDomain | backend/src/config/domain.ts:99-111 | each import config requires the collections of the domain table, in the same order, named by model |
| ErrorMessages.HumanizeErrorCode | frontend/src/lib/error-messages.ts:31-33 | a mapped code gives its text; otherwise the fallback if one is given, even an empty one; otherwise the default text |
| ErrorMessages.UnmappedIngestionCodes | frontend/src/lib/error-messages.ts:1-29 | of the ingestion codes, exactly MISSING_HEADER, EXTRA_HEADER, PARSE_ERROR, DUPLICATE_IN_DB and INSERT_FAILED have no friendly text |
| ErrorMessages.RowErrorShowsFriendlyOrRaw | frontend/src/lib/error-messages.ts:35-47 | a row-error line starts with the row and column, then shows the friendly text of a mapped code or else the raw message |
| ErrorMessages.RowErrorIgnoresMessageOfMappedCodes | frontend/src/lib/error-messages.ts:41-44 | for a mapped code, the raw message never shows |
| ErrorMessages.DuplicateFieldIsLeftmostCapture | frontend/src/lib/error-messages.ts:57-58 | the duplicate rule names the word run after the leftmost `index:` followed by spaces, or `value` when there is none |
| ErrorMessages.CapturesIndexName | frontend/src/lib/error-messages.ts:57-58 | an `index: name` with no earlier `i` in the message captures exactly that name |
| ErrorMessages.DuplicateKeyExample | frontend/src/lib/error-messages.ts:56-59 | the message `E11000 index: email_1 dup` becomes "A record with this email_1 already exists." |
| ErrorMessages.FirstRuleWins | frontend/src/lib/error-messages.ts:49-76 | the rules apply in order: transaction, duplicate, cast, validation, network; the first that matches decides the text |
| ErrorMessages.UnmatchedMessageUnchanged | frontend/src/lib/error-messages.ts:49-76 | a non-empty message no rule matches is returned unchanged; the generic text comes out exactly for an empty message or the generic text itself |
| ErrorMessages.NoRuleWithoutKeyChars | frontend/src/lib/error-messages.ts:52-73 | a message lacking the letters c, E, C, O, d, N and f, each of which occurs in one of the rule keywords, matches no rule |
| ErrorMessages.NoKeywordInGeneric | frontend/src/lib/error-messages.ts:50-73 | the generic text matches no rule |
| ErrorMessages.LabelsCoverEntityTypes | frontend/src/lib/error-messages.ts:78-85 | the labels cover exactly the six entity types |
| ErrorMessages.StatusInfoCoversStatuses | frontend/src/lib/error-messages.ts:87-92 | the status table covers exactly the four job statuses |
| Middleware.ProtectedAndAuthDisjoint | frontend/middleware.ts:3-15 | no path is both protected and a sign-in page |
| Middleware.RouteDecision | frontend/middleware.ts:17-40 | an unauthenticated request for a protected path is sent to sign-in with its path as the callback; an authenticated request for a sign-in page is sent to the dashboard; every other request passes |
| Middleware.AuthenticationReadsOnlySessionCookie | frontend/middleware.ts:20-21 | only the session cookie counts, and an empty session cookie is the same as none |
| Middleware.SegmentMatching | frontend/middleware.ts:23-25 | matching is by whole path segment: `/dashboard/x` is protected, `/dashboardx` is not |
| Middleware.RedirectsDoNotLoop | frontend/middleware.ts:26-37 | neither redirect leads to another: the sign-in page and the dashboard each pass for the same cookies |

## Left out

- The CSV tokenizer (`csv-parse` with BOM stripping, trimming, empty-line skipping and relaxed column counts) is not modelled. Its output is the input `CsvEvent` sequence: each event is a record or a stream error. The sequence may go on after a stream error, though `csv-parse` stops at its first one. This changes nothing as written, since a stream error leaves the parse pending.
- Zod's internals are left out. The generic schemas are functions from raw data to a result. The timetable row schema is modelled field by field, because its refinement and its error path matter to the overlap check. The other five row schemas are not.
- MongoDB is a value `Store`. Queries are functions over it in natural order. Transactions, sessions, indexes, ObjectId casting and its cast errors, and `runValidators` on update are left out.
- `persist` is a parameter of the pipeline. The chunked persistence of students and teachers is modelled by the outcome of each chunk's transaction; the user, account and student documents it writes are left out.
- Password hashing with bcrypt is left out: it happens before the transactions and does not change which rows fail.
- `Promise.all` can push missing preconditions in any order. The model lists them in declaration order.
- Connecting to the queue, reconnecting and resubscribing are not modelled, nor is the queue name table beyond one name per entity type.
- Base64 encoding of the CSV payload is left out, and so is JSON encoding of the message: the message carries the CSV text, and an unreadable body is a missing message.
- The express plumbing is left out (`asyncHandler`, the response helpers, the body parsers). A request body is text, a buffer (modelled as text), JSON with an optional `csv` field, or anything else.
- The CRUD factory's list, get and delete operations for the other collections are not part of this model. Only the timetable service's create and update are.
- `onProgress` is not awaited in the pipeline, so progress writes can race with the final completion write. The model applies every progress write before the completion write.
- Creation time is modelled by the job id, since ids are given in creation order. Ties in `createdAt` are not modelled.
- The front-end middleware's `matcher` expression, and the URL encoding of the `callbackUrl` query parameter, are left out.
- Console logging is left out everywhere.
- `findOne` with no sort returns the first match in natural order, and so does the model. What order a real server uses is not modelled.
- Missing (`UploadRoutes.Missing`): its own contract bounds only the length. Which models are missing is stated by `UploadRoutes.MissingMembers`.
- ParseSpec (`CsvParser.ParseSpec`): it resolves once the events run out, also after a stream error. As written, `parseCsv` stays pending after a stream error, unless a header failure resolved it first (`CsvParser.ParseOutcome`; see "Findings"). The members below that build on `ParseSpec` state the intended outcome for such a stream.
- StreamErrors (`CsvParser.StreamErrors`): the PARSE_ERRORs it lists are never delivered as written, because a stream error leaves `parseCsv` pending.
- ParseCsv (`CsvParser.ParseCsv`): after a stream error the loop goes on and returns the errors; as written, the promise is never resolved.
- ParseErrorsBeforeAnyRecord (`CsvParser.ParseErrorsBeforeAnyRecord`): as written, these row-1 errors are recorded but never returned, since the parse stays pending.
- HeaderOnlyFileHasNoRows (`CsvParser.HeaderOnlyFileHasNoRows`): for a stream that holds a stream error, the as-written parse stays pending instead of returning these errors.
- IngestCsv (`Pipeline.IngestCsv`): it goes on after a stream error with the parse errors. As written, `ingestCsv` waits forever on the pending parse, so the worker's job stays RUNNING and its message is never settled.
- ParseFailureAborts (`Pipeline.ParseFailureAborts`): the abort on PARSE_ERRORs is the intended behaviour. As written, the import never gets past the pending parse.
- ParseErrorsReturnedExactly (`UploadRoutes.ParseErrorsReturnedExactly`): for PARSE_ERRORs this is the intended answer. As written, an upload whose stream errors gets no response and no job.
- Lower (`Text.Lower`): it lower-cases only the ASCII letters A-Z, where `toLowerCase` also folds other letters (`ÉCOLE A` and `école a` differ here, but match in the source). This affects the header match, the in-file duplicate key, the database duplicate normalisation and the row validator's REQUIRED_FIELD test, all of which use `Lower`.
- RefErrors (`RelationResolver.RefErrors`): it lists the reference errors in declaration order. In the source, `Promise.all` pushes each error when its lookup finishes, so the order can differ.
- HumanizeErrorCode (`ErrorMessages.HumanizeErrorCode`): it treats the code table as a plain map. In the source the table is an object literal, so a code that names an inherited member (`constructor`, `toString`) returns that member instead of the fallback.
- Chain (`JobWorker.Chain`): its own contract bounds only the job list. The retry bounds are stated by `JobWorker.ChainBounded`, `JobWorker.AtMostThreeRuns` and `JobWorker.ThreeCrashesFailOnce`.

## Findings

| source | as written | input that shows it | evidently intended | confidence | as-written member | corrected member |
|---|---|---|---|---|---|---|
| backend/src/ingestion/validators/consistency-checker.ts:112-114 | the room key reads `room_id`, a column no timetable row has (the file names its room in `room_number`, which resolution turns into the room's id), so every row's room key is `undefined` plus the day | two Monday rows 09:00-10:00 and 09:30-10:30, in rooms R1 and R2, with different teachers | rooms are keyed by the row's resolved room column, so only rows in the same room conflict | not executed | TimetableOverlaps.RoomIdKeyConflatesRooms | TimetableOverlaps.RoomConflictsShareRoom |
| backend/src/ingestion/parsers/csv-parser.ts:48-59 | the `error` handler records a PARSE_ERROR but never resolves, and a stream that errors emits no `end`, so the promise stays pending | a file `class_name` followed by a line `"abc` with an unclosed quote: the tokenizer's only event is a stream error | the parse resolves with the PARSE_ERRORs recorded, so the import aborts with them | not executed | CsvParser.LoneStreamErrorPending | CsvParser.EveryStreamErrorReported |

The overlap stage takes the room column as a parameter (`Pipeline.OverlapStage`). The pipeline passes `room_id`, as the source does (`Pipeline.SourceRoomColumn`). `Pipeline.SourceRoomKeyFlagsAnySameDayOverlap` shows the as-written key end to end: after the real stages, any two same-day rows with intersecting slots are flagged. `TimetableOverlaps.TwoRoomsExampleConflict` shows the same on the input above. The corrected stage reads `room_number` (`Pipeline.CorrectedRoomColumn`). `Pipeline.CorrectedRoomKeyFlagsOnlySharedRooms` proves that after the real stages, it flags a room conflict only for rows that share a room. `TimetableOverlaps.NoSharedResourceNoConflict` proves that under this key, rows sharing neither a room nor a teacher never conflict.

The pending parse reaches every caller that awaits `parseCsv`. The upload route never answers, and the worker's job stays RUNNING with its message unsettled. `CsvParser.ParseOutcome` models the parse as written. `CsvParser.PendingParseHadErrors` proves that whenever it stays pending, the intended parse reports a PARSE_ERROR. The rest of the model uses the intended parse (`CsvParser.ParseSpec`).

