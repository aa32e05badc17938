/**
 * The per-entity registry of backend/src/ingestion/entity-configs.ts: for each
 * of the six import kinds its expected CSV headers, unique fields, relation
 * columns, preconditions and which model an email is checked against; the
 * timetable row schema with its `HH:mm` and start-before-end rules; the room
 * schema's `floor_number` rule; and how the two kinds of `persist` number
 * their INSERT_FAILED errors. The other row schemas (email, password and
 * enrollment status checks) are left to the abstract schema library.
 */
module EntityConfigs {

  import opened Wrappers
  import opened Text
  import opened IngestionTypes
  import opened CommonSchema
  import opened RowValidator
  import TimetableSchema

  /** `TRANSACTION_CHUNK_SIZE`. */
  const TransactionChunkSize: nat := 500

  /** How an entity's `persist` writes: one unordered `insertMany`, or one transaction per chunk of 500. */
  datatype PersistStyle = InsertMany | ChunkedTransactions

  /** The declarative part of an `EntityConfig`. */
  datatype EntityConfig = EntityConfig(
    expectedHeaders: seq<string>,
    relations: Relations,
    uniqueFields: seq<string>,
    preconditions: seq<string>,
    uniqueFieldModels: map<string, string>,
    persistStyle: PersistStyle)

  const ClassHeaders: seq<string> := ["class_name", "batch"]
  const SubjectHeaders: seq<string> := ["subject_code", "subject_name"]
  const RoomHeaders: seq<string> := ["room_number", "building_name", "floor_number"]
  const StudentHeaders: seq<string> := ["registration_number", "name", "email", "password", "class_name", "enrollment_status"]
  const TeacherHeaders: seq<string> := ["teacher_id", "name", "email", "password"]
  const TimetableHeaders: seq<string> := ["class_name", "teacher_id", "subject_code", "room_number", "day_of_week", "start_time", "end_time"]

  const StudentRelations: Relations := [("class_name", RelationConfig("Class", "class_name"))]
  const TimetableRelations: Relations := [
    ("class_name", RelationConfig("Class", "class_name")),
    ("teacher_id", RelationConfig("Teacher", "teacher_id")),
    ("subject_code", RelationConfig("Subject", "subject_code")),
    ("room_number", RelationConfig("Room", "room_number"))]

  /** The six config objects. */
  function ConfigOf(t: EntityType): (c: EntityConfig)
    ensures NoDup(c.expectedHeaders)
    ensures DistinctColumns(c.relations)
    ensures forall f | f in c.uniqueFields :: f in c.expectedHeaders
    ensures forall k | 0 <= k < |c.relations| :: c.relations[k].0 in c.expectedHeaders
    // a relation can only resolve against a model the import requires to be non-empty
    ensures forall k | 0 <= k < |c.relations| :: c.relations[k].1.modelName in c.preconditions
    ensures c.relations != [] <==> t == StudentImport || t == TimetableImport
    ensures c.uniqueFields == [] <==> t == TimetableImport
    ensures c.preconditions != [] <==> t == StudentImport || t == TimetableImport
    ensures c.persistStyle == ChunkedTransactions <==> t == StudentImport || t == TeacherImport
    ensures forall f | f in c.uniqueFieldModels :: f == "email" && c.uniqueFieldModels[f] == "User"
    ensures "email" in c.uniqueFields <==> "email" in c.uniqueFieldModels
  {
    match t
    case ClassImport => EntityConfig(ClassHeaders, [], ["class_name"], [], map[], InsertMany)
    case SubjectImport => EntityConfig(SubjectHeaders, [], ["subject_code"], [], map[], InsertMany)
    case RoomImport => EntityConfig(RoomHeaders, [], ["room_number"], [], map[], InsertMany)
    case StudentImport =>
      StudentHeadersWellFormed();
      EntityConfig(StudentHeaders, StudentRelations, ["registration_number", "email"], ["Class"],
                   map["email" := "User"], ChunkedTransactions)
    case TeacherImport =>
      EntityConfig(TeacherHeaders, [], ["teacher_id", "email"], [], map["email" := "User"], ChunkedTransactions)
    case TimetableImport =>
      TimetableHeadersWellFormed();
      EntityConfig(TimetableHeaders, TimetableRelations, [], ["Class", "Teacher", "Subject", "Room"], map[], InsertMany)
  }

  /** The student headers are distinct and hold the student relation's column. */
  lemma StudentHeadersWellFormed()
    ensures NoDup(StudentHeaders)
    ensures forall k | 0 <= k < |StudentRelations| :: StudentRelations[k].0 in StudentHeaders
  {
    assert StudentRelations[0].0 == StudentHeaders[4];
  }

  /** The timetable headers are distinct and hold each relation's column, and no column has two relations. */
  lemma TimetableHeadersWellFormed()
    ensures NoDup(TimetableHeaders)
    ensures DistinctColumns(TimetableRelations)
    ensures forall k | 0 <= k < |TimetableRelations| :: TimetableRelations[k].0 in TimetableHeaders
    ensures forall k | 0 <= k < |TimetableRelations| :: TimetableRelations[k].1.modelName in ["Class", "Teacher", "Subject", "Room"]
  {
    forall k | 0 <= k < |TimetableRelations| ensures TimetableRelations[k].0 == TimetableHeaders[k] {
    }
  }

  /**
   * A timetable file carries its room as `room_number` and has no `room_id`
   * column; relation resolution rewrites `room_number` to the room's id
   * under the same key.
   */
  lemma TimetableFileHasNoRoomId()
    ensures var c := ConfigOf(TimetableImport);
            "room_id" !in c.expectedHeaders && "room_number" in c.expectedHeaders
            && (exists k | 0 <= k < |c.relations| :: c.relations[k].0 == "room_number")
  {
    assert ConfigOf(TimetableImport).relations[3].0 == "room_number";
  }

  // ----- the timetable row schema -----

  /** How one field of an object schema fared: its issues, whether it aborted the object, and its parsed value. */
  datatype FieldParse = FieldParse(issues: seq<Issue>, aborted: bool, value: string)

  /** No issue of the cross-field refinement among `issues`. */
  predicate NoRefinementIssue(issues: seq<Issue>) {
    forall i | i in issues :: i.code != "custom"
  }

  /** A field absent from the row: the library reports it as a required `invalid_type` and aborts the object. */
  function MissingField(field: string): FieldParse {
    FieldParse([Issue("invalid_type", [field], "Required")], true, "")
  }

  /** `z.string().trim().min(1, message)`. */
  function NameField(data: Data, field: string, message: string): (r: FieldParse)
    ensures NoRefinementIssue(r.issues)
    ensures r.issues == [] <==> field in data && Trim(data[field]) != ""
    ensures r.issues == [] ==> !r.aborted && r.value == Trim(data[field])
  {
    if field !in data then MissingField(field)
    else
      var v := Trim(data[field]);
      if |v| < 1 then FieldParse([Issue("too_small", [field], message)], false, v)
      else FieldParse([], false, v)
  }

  const DayEnumPrefix: string :=
    "Invalid enum value. Expected 'Monday' | 'Tuesday' | 'Wednesday' | 'Thursday' | 'Friday' | 'Saturday', received '"

  /** The message of an `invalid_enum_value` issue on `day_of_week`. */
  function DayEnumMessage(received: string): string {
    DayEnumPrefix + received + "'"
  }

  /** `z.enum(DAYS_OF_WEEK)`: a value outside the enum aborts the object. */
  function DayField(data: Data): (r: FieldParse)
    ensures NoRefinementIssue(r.issues)
    ensures r.issues == [] <==> "day_of_week" in data && data["day_of_week"] in TimetableSchema.DaysOfWeek
    ensures r.issues == [] ==> !r.aborted && r.value == data["day_of_week"]
  {
    if "day_of_week" !in data then MissingField("day_of_week")
    else
      var v := data["day_of_week"];
      if v in TimetableSchema.DaysOfWeek then FieldParse([], false, v)
      else FieldParse([Issue("invalid_enum_value", ["day_of_week"], DayEnumMessage(v))], true, v)
  }

  /** `z.string().regex(HH:mm, 'Must be HH:mm format')`: the value is kept untrimmed. */
  function TimeField(data: Data, field: string): (r: FieldParse)
    ensures NoRefinementIssue(r.issues)
    ensures r.issues == [] <==> field in data && IsTime(data[field])
    ensures r.issues == [] ==> !r.aborted && r.value == data[field]
  {
    if field !in data then MissingField(field)
    else if IsTime(data[field]) then FieldParse([], false, data[field])
    else FieldParse([Issue("invalid_string", [field], "Must be HH:mm format")], false, data[field])
  }

  /** The seven fields of the timetable row schema, in declaration order. */
  datatype TimetableFieldParses = TimetableFieldParses(
    className: FieldParse, teacherId: FieldParse, subjectCode: FieldParse, roomNumber: FieldParse,
    day: FieldParse, start: FieldParse, end: FieldParse)
  {
    /** The issues of all fields, field by field. */
    function Issues(): seq<Issue> {
      className.issues + teacherId.issues + subjectCode.issues + roomNumber.issues
      + day.issues + start.issues + end.issues
    }

    predicate AnyAborted() {
      className.aborted || teacherId.aborted || subjectCode.aborted || roomNumber.aborted
      || day.aborted || start.aborted || end.aborted
    }
  }

  function TimetableFields(data: Data): TimetableFieldParses {
    TimetableFieldParses(
      NameField(data, "class_name", "Class name is required"),
      NameField(data, "teacher_id", "Teacher ID is required"),
      NameField(data, "subject_code", "Subject code is required"),
      NameField(data, "room_number", "Room number is required"),
      DayField(data),
      TimeField(data, "start_time"),
      TimeField(data, "end_time"))
  }

  /** The refinement's issue: reported on `end_time` when `start_time < end_time` fails as strings. */
  function OrderIssues(start: string, end: string): seq<Issue> {
    if LexLess(start, end) then [] else [Issue("custom", ["end_time"], "start_time must be before end_time")]
  }

  /**
   * `timetableCsvSchema.safeParse`. Every field is parsed and reports its
   * issues; a missing field or a day outside the enum aborts the object, and
   * otherwise the refinement runs on the parsed values even when a field had
   * an issue. Unknown columns are dropped from the parsed record.
   */
  function TimetableCsvSchema(data: Data): SchemaOutcome {
    var fs := TimetableFields(data);
    if fs.AnyAborted() then Failed(fs.Issues())
    else
      var issues := fs.Issues() + OrderIssues(fs.start.value, fs.end.value);
      if issues != [] then Failed(issues)
      else Parsed(map["class_name" := fs.className.value, "teacher_id" := fs.teacherId.value,
                      "subject_code" := fs.subjectCode.value, "room_number" := fs.roomNumber.value,
                      "day_of_week" := fs.day.value, "start_time" := fs.start.value, "end_time" := fs.end.value])
  }

  /** A name column present with text other than white space. */
  predicate NameOk(data: Data, f: string) {
    f in data && Trim(data[f]) != ""
  }

  /** Every field of a timetable row well-formed on its own. */
  predicate TimetableFieldsOk(data: Data) {
    && NameOk(data, "class_name") && NameOk(data, "teacher_id")
    && NameOk(data, "subject_code") && NameOk(data, "room_number")
    && "day_of_week" in data && data["day_of_week"] in TimetableSchema.DaysOfWeek
    && "start_time" in data && IsTime(data["start_time"])
    && "end_time" in data && IsTime(data["end_time"])
  }

  /** What the timetable row schema demands of a row. */
  predicate TimetableRowOk(data: Data) {
    TimetableFieldsOk(data) && LexLess(data["start_time"], data["end_time"])
  }

  /** The fields of a row have no issues exactly when each is present and well-formed, and then none aborted. */
  lemma TimetableFieldsClean(data: Data)
    ensures TimetableFields(data).Issues() == [] <==> TimetableFieldsOk(data)
    ensures TimetableFieldsOk(data) ==> !TimetableFields(data).AnyAborted()
  {
  }

  /**
   * The timetable row schema accepts a row iff its four names are non-empty
   * after trimming, its day is Monday to Saturday, both times are `HH:mm`
   * and the start is before the end; the accepted record holds exactly the
   * seven columns, names trimmed, and its start is earlier in the day.
   */
  lemma TimetableSchemaAcceptsIff(data: Data)
    ensures TimetableCsvSchema(data).Parsed? <==> TimetableRowOk(data)
    ensures TimetableCsvSchema(data).Parsed? ==>
              var out := TimetableCsvSchema(data).data;
              && out.Keys == set f | f in TimetableHeaders
              && out["class_name"] == Trim(data["class_name"]) && out["teacher_id"] == Trim(data["teacher_id"])
              && out["subject_code"] == Trim(data["subject_code"]) && out["room_number"] == Trim(data["room_number"])
              && out["start_time"] == data["start_time"] && out["end_time"] == data["end_time"]
              && Minutes(out["start_time"]) < Minutes(out["end_time"])
  {
    if !TimetableFieldsOk(data) {
      FieldIssueRejects(data);
    } else if !TimetableRowOk(data) {
      OnlyOrderIssue(data);
    } else {
      AcceptedRecord(data);
      TimetableRecordKeys(Trim(data["class_name"]), Trim(data["teacher_id"]), Trim(data["subject_code"]),
                          Trim(data["room_number"]), data["day_of_week"], data["start_time"], data["end_time"]);
      TimeOrderIsChronological(data["start_time"], data["end_time"]);
    }
  }

  /** Only a row meeting the rule is accepted. */
  lemma ParsedOnlyIfRowOk(data: Data)
    ensures TimetableCsvSchema(data).Parsed? ==> TimetableRowOk(data)
  {
    if !TimetableFieldsOk(data) {
      FieldIssueRejects(data);
    } else if !TimetableRowOk(data) {
      OnlyOrderIssue(data);
    }
  }

  /** The accepted record has a `room_number`, no `room_id`, and the row's own two times. */
  lemma TimetableRecordShape(c: string, t: string, s: string, r: string, d: string, st: string, e: string)
    ensures var m := map["class_name" := c, "teacher_id" := t, "subject_code" := s, "room_number" := r,
                         "day_of_week" := d, "start_time" := st, "end_time" := e];
            && "room_id" !in m && "room_number" in m && m["start_time"] == st && m["end_time"] == e
            && "day_of_week" in m && m["day_of_week"] == d
  {
  }

  /** An accepted row's day is one of the six day names, none of which holds a '|'. */
  lemma AcceptedDayHasNoBar(data: Data)
    requires TimetableRowOk(data)
    ensures '|' !in data["day_of_week"]
  {
  }

  /** A row with an ill-formed field is rejected. */
  lemma FieldIssueRejects(data: Data)
    requires !TimetableFieldsOk(data)
    ensures TimetableCsvSchema(data).Failed?
  {
    TimetableFieldsClean(data);
  }

  /** An accepted row is parsed to its seven columns, the four names trimmed. */
  lemma AcceptedRecord(data: Data)
    requires TimetableRowOk(data)
    ensures TimetableCsvSchema(data) ==
              Parsed(map["class_name" := Trim(data["class_name"]), "teacher_id" := Trim(data["teacher_id"]),
                         "subject_code" := Trim(data["subject_code"]), "room_number" := Trim(data["room_number"]),
                         "day_of_week" := data["day_of_week"], "start_time" := data["start_time"],
                         "end_time" := data["end_time"]])
  {
    TimetableFieldsClean(data);
  }

  /** The record the schema builds has exactly the timetable headers as keys, each with its own value. */
  lemma TimetableRecordKeys(c: string, t: string, s: string, r: string, d: string, st: string, e: string)
    ensures var m := map["class_name" := c, "teacher_id" := t, "subject_code" := s, "room_number" := r,
                         "day_of_week" := d, "start_time" := st, "end_time" := e];
            && m.Keys == set f | f in TimetableHeaders
            && m["class_name"] == c && m["teacher_id"] == t && m["subject_code"] == s && m["room_number"] == r
            && m["start_time"] == st && m["end_time"] == e
  {
  }

  /**
   * A row whose fields are all well-formed but whose start is not before its
   * end gets exactly one error, INVALID_FORMAT on `end_time`.
   */
  lemma TimeOrderReportedOnEndTime(data: Data, rowNumber: int)
    requires TimetableFieldsOk(data) && !LexLess(data["start_time"], data["end_time"])
    ensures var r := ValidateRow(TimetableCsvSchema, data, rowNumber, None);
            r.Invalid? && |r.errors| == 1 && r.errors[0].column == "end_time"
            && r.errors[0].code == InvalidFormat && r.errors[0].row == rowNumber
  {
    var issue := Issue("custom", ["end_time"], "start_time must be before end_time");
    OnlyOrderIssue(data);
    assert IssueColumn(issue) == "end_time";
    assert MapIssueCode(issue.code, issue.message) == InvalidFormat;
  }

  /** Such a row fails the schema with the order issue alone. */
  lemma OnlyOrderIssue(data: Data)
    requires TimetableFieldsOk(data) && !LexLess(data["start_time"], data["end_time"])
    ensures TimetableCsvSchema(data) == Failed([Issue("custom", ["end_time"], "start_time must be before end_time")])
  {
    TimetableFieldsClean(data);
  }

  /**
   * The refinement also runs when a time is malformed: a start of "9:00"
   * and an end of "10:00" give an HH:mm error on `start_time` and, since
   * "9:00" is not less than "10:00" as a string, an order error on `end_time`.
   */
  lemma MalformedStartAlsoFailsOrder(data: Data)
    requires TimetableFieldsOk(data["start_time" := "10:00"])
    requires "start_time" in data && data["start_time"] == "9:00" && data["end_time"] == "10:00"
    ensures TimetableCsvSchema(data) ==
              Failed([Issue("invalid_string", ["start_time"], "Must be HH:mm format"),
                      Issue("custom", ["end_time"], "start_time must be before end_time")])
  {
    var fs := TimetableFields(data);
    assert !IsTime("9:00");
    assert fs.start.issues == [Issue("invalid_string", ["start_time"], "Must be HH:mm format")];
    assert fs.className.issues == [] && fs.teacherId.issues == [] && fs.subjectCode.issues == [];
    assert fs.roomNumber.issues == [] && fs.day.issues == [] && fs.end.issues == [];
    assert !fs.AnyAborted();
    assert "9:00"[0] == '9' && "10:00"[0] == '1';
    assert OrderIssues("9:00", "10:00") == [Issue("custom", ["end_time"], "start_time must be before end_time")];
  }

  /** A missing column aborts the object, so the order rule is not applied. */
  lemma MissingColumnSkipsOrder(data: Data)
    requires "class_name" !in data
    ensures TimetableCsvSchema(data).Failed?
    ensures Issue("invalid_type", ["class_name"], "Required") in TimetableCsvSchema(data).issues
    ensures forall i | i in TimetableCsvSchema(data).issues :: i.code != "custom"
  {
    var fs := TimetableFields(data);
    assert fs.className == MissingField("class_name");
    assert TimetableCsvSchema(data) == Failed(fs.Issues());
    assert fs.Issues()[0] == Issue("invalid_type", ["class_name"], "Required");
  }

  // ----- the room schema's floor number -----

  /**
   * `parseInt(s, 10)` is a number rather than NaN: after leading white space
   * and an optional sign comes a decimal digit (whatever follows it).
   */
  predicate ParseIntDefined(s: string) {
    var t := TrimStart(s);
    var u := if |t| > 0 && (t[0] == '+' || t[0] == '-') then t[1..] else t;
    |u| > 0 && IsDigit(u[0])
  }

  /**
   * The issues of a present `floor_number`: `trim().min(1)` and then the
   * `parseInt` refinement, which runs on the trimmed value even when it is
   * empty.
   */
  function FloorNumberIssues(value: string): (issues: seq<Issue>)
    ensures issues == [] <==> ParseIntDefined(Trim(value))
    ensures forall i | i in issues :: i.path == ["floor_number"]
  {
    var v := Trim(value);
    (if |v| < 1 then [Issue("too_small", ["floor_number"], "Floor number is required")] else [])
    + (if ParseIntDefined(v) then [] else [Issue("custom", ["floor_number"], "Floor number must be a valid integer")])
  }

  /**
   * The rule only asks for a leading integer: "2nd", "1e3" and " -1 " are
   * accepted, "G1", "+" and "- 1" are not, and an empty value gets both issues.
   */
  lemma FloorNumberExamples()
    ensures FloorNumberIssues("2nd") == [] && FloorNumberIssues("1e3") == [] && FloorNumberIssues(" -1 ") == []
    ensures FloorNumberIssues("G1") != [] && FloorNumberIssues("+") != [] && FloorNumberIssues("- 1") != []
    ensures |FloorNumberIssues("")| == 2
  {
    FloorNumberDigitFirst("2nd");
    FloorNumberDigitFirst("1e3");
    FloorNumberSignedSpaced();
    FloorNumberRejected();
    assert Trim("") == "";
  }

  /** A value starting with a digit and ending in a non-space is accepted as it stands. */
  lemma FloorNumberDigitFirst(s: string)
    requires |s| > 0 && IsDigit(s[0]) && !IsSpace(s[|s| - 1])
    ensures FloorNumberIssues(s) == []
  {
    TrimOfUnpadded(s);
  }

  lemma FloorNumberSignedSpaced()
    ensures FloorNumberIssues(" -1 ") == []
  {
    assert TrimStart(" -1 ") == "-1 " && TrimEnd("-1 ") == "-1";
  }

  lemma FloorNumberRejected()
    ensures FloorNumberIssues("G1") != [] && FloorNumberIssues("+") != [] && FloorNumberIssues("- 1") != []
  {
    TrimOfUnpadded("G1");
    TrimOfUnpadded("+");
    TrimOfUnpadded("- 1");
    assert "- 1"[1..] == " 1";
  }

  // ----- persist error numbering -----

  /** A write error of an unordered `insertMany`: the position of the document and the driver's message. */
  datatype WriteError = WriteError(index: int, errmsg: string)

  /** How `insertMany` ended: all written, a bulk-write error with its write errors, or any other exception. */
  datatype InsertOutcome = Inserted | BulkWriteFailed(writeErrors: seq<WriteError>) | Threw(message: string)

  function WriteErrorToIngestion(we: WriteError): IngestionError {
    IngestionError(we.index + 1, "", InsertFailed, we.errmsg)
  }

  /** `persist` of class, subject, room and timetable: one error per write error, or one row-0 error. */
  method PersistInsertMany(outcome: InsertOutcome) returns (errors: seq<IngestionError>)
    ensures outcome.Inserted? ==> errors == []
    ensures outcome.Threw? ==> errors == [IngestionError(0, "", InsertFailed, outcome.message)]
    ensures outcome.BulkWriteFailed? ==>
              |errors| == |outcome.writeErrors|
              && forall k | 0 <= k < |errors| :: errors[k] == WriteErrorToIngestion(outcome.writeErrors[k])
  {
    errors := [];
    match outcome {
      case Inserted =>
      case Threw(message) =>
        errors := errors + [IngestionError(0, "", InsertFailed, message)];
      case BulkWriteFailed(writeErrors) =>
        var i := 0;
        while i < |writeErrors|
          invariant 0 <= i <= |writeErrors|
          invariant |errors| == i
          invariant forall k | 0 <= k < i :: errors[k] == WriteErrorToIngestion(writeErrors[k])
        {
          errors := errors + [WriteErrorToIngestion(writeErrors[i])];
          i := i + 1;
        }
    }
  }

  /**
   * The row of an `insertMany` error is the document's position in the
   * batch plus one: within 1..|docs| for write errors of that batch,
   * whatever the rows' numbers in the file.
   */
  lemma InsertManyRowsArePositions(outcome: InsertOutcome, n: nat, errors: seq<IngestionError>)
    requires outcome.BulkWriteFailed? && forall we | we in outcome.writeErrors :: 0 <= we.index < n
    requires |errors| == |outcome.writeErrors|
    requires forall k | 0 <= k < |errors| :: errors[k] == WriteErrorToIngestion(outcome.writeErrors[k])
    ensures forall e | e in errors :: 1 <= e.row <= n && e.code == InsertFailed && e.column == ""
  {
    forall e | e in errors ensures 1 <= e.row <= n {
      var k :| 0 <= k < |errors| && errors[k] == e;
      assert outcome.writeErrors[k] in outcome.writeErrors;
    }
  }

  /** Where the chunk holding document position `p` starts. */
  function ChunkStart(p: nat): nat {
    p - p % TransactionChunkSize
  }

  /** The errors of one failed chunk: one per document, numbered by position in the whole batch. */
  function FailedChunkErrors(start: nat, size: nat, message: string): (errs: seq<IngestionError>)
    ensures |errs| == size
    ensures forall j | 0 <= j < size :: errs[j] == IngestionError(start + j + 1, "", InsertFailed, message)
  {
    seq(size, j requires 0 <= j < size => IngestionError(start + j + 1, "", InsertFailed, message))
  }

  function Min(a: nat, b: nat): nat {
    if a < b then a else b
  }

  /** The errors of the chunk starting at `i`: none when it committed. */
  function ChunkErrors(n: nat, commit: nat -> Option<string>, i: nat): seq<IngestionError>
    requires i < n
  {
    match commit(i)
    case None => []
    case Some(msg) => FailedChunkErrors(i, Min(TransactionChunkSize, n - i), msg)
  }

  /**
   * The errors of chunked persist from chunk start `i` on, for `n` documents;
   * `commit(i)` is what the transaction of the chunk starting at `i` did:
   * None when it committed, the message of its exception otherwise.
   */
  function ChunkedErrorsFrom(n: nat, commit: nat -> Option<string>, i: nat): seq<IngestionError>
    decreases n - i
  {
    if i >= n then [] else ChunkErrors(n, commit, i) + ChunkedErrorsFrom(n, commit, i + TransactionChunkSize)
  }

  /** Appends the errors of one failed chunk, one per document. */
  method ReportFailedChunk(errors: seq<IngestionError>, start: nat, size: nat, msg: string)
    returns (r: seq<IngestionError>)
    ensures r == errors + FailedChunkErrors(start, size, msg)
  {
    r := errors;
    var j := 0;
    while j < size
      invariant 0 <= j <= size
      invariant r == errors + FailedChunkErrors(start, size, msg)[..j]
    {
      assert FailedChunkErrors(start, size, msg)[..j + 1]
          == FailedChunkErrors(start, size, msg)[..j] + [IngestionError(start + j + 1, "", InsertFailed, msg)];
      r := r + [IngestionError(start + j + 1, "", InsertFailed, msg)];
      j := j + 1;
    }
    assert FailedChunkErrors(start, size, msg)[..size] == FailedChunkErrors(start, size, msg);
  }

  /** `persist` of students and teachers: a transaction per chunk of 500. */
  method PersistChunked(n: nat, commit: nat -> Option<string>) returns (errors: seq<IngestionError>)
    ensures errors == ChunkedErrorsFrom(n, commit, 0)
  {
    errors := [];
    var i := 0;
    while i < n
      invariant errors + ChunkedErrorsFrom(n, commit, i) == ChunkedErrorsFrom(n, commit, 0)
      decreases n - i
    {
      var outcome := commit(i);
      ghost var before := errors;
      if outcome.Some? {
        errors := ReportFailedChunk(errors, i, Min(TransactionChunkSize, n - i), outcome.value);
      }
      ChunkedStep(n, commit, i, before, errors);
      i := i + TransactionChunkSize;
    }
  }

  /** Reporting the chunk at `i` moves its errors from the part still to come to the part reported. */
  lemma ChunkedStep(n: nat, commit: nat -> Option<string>, i: nat, before: seq<IngestionError>, after: seq<IngestionError>)
    requires i < n && after == before + ChunkErrors(n, commit, i)
    ensures before + ChunkedErrorsFrom(n, commit, i) == after + ChunkedErrorsFrom(n, commit, i + TransactionChunkSize)
  {
    var rest := ChunkedErrorsFrom(n, commit, i + TransactionChunkSize);
    assert ChunkedErrorsFrom(n, commit, i) == ChunkErrors(n, commit, i) + rest;
    assert before + (ChunkErrors(n, commit, i) + rest) == (before + ChunkErrors(n, commit, i)) + rest;
  }

  /** Every position of the chunk starting at a multiple of 500 has that chunk's start. */
  lemma ChunkStartOf(i: nat, p: nat)
    requires i % TransactionChunkSize == 0 && i <= p < i + TransactionChunkSize
    ensures ChunkStart(p) == i
  {
    var q := i / TransactionChunkSize;
    assert i == TransactionChunkSize * q;
    assert p == TransactionChunkSize * q + (p - i);
    assert p % TransactionChunkSize == p - i;
  }

  /** The errors of one chunk: rows inside the chunk, increasing, each reporting a failed chunk. */
  lemma ChunkErrorsExact(n: nat, commit: nat -> Option<string>, i: nat)
    requires i % TransactionChunkSize == 0 && i < n
    ensures var errs := ChunkErrors(n, commit, i);
            && (forall a, b | 0 <= a < b < |errs| :: errs[a].row < errs[b].row)
            && (forall e | e in errs :: i < e.row <= i + Min(TransactionChunkSize, n - i)
                  && e.code == InsertFailed && e.column == "" && commit(ChunkStart(e.row - 1)) == Some(e.message))
            && (forall p | i <= p < i + Min(TransactionChunkSize, n - i) && commit(ChunkStart(p)).Some? ::
                  errs[p - i].row == p + 1)
  {
    var errs := ChunkErrors(n, commit, i);
    var size := Min(TransactionChunkSize, n - i);
    forall p | i <= p < i + size ensures ChunkStart(p) == i {
      ChunkStartOf(i, p);
    }
    forall e | e in errs
      ensures i < e.row <= i + size && commit(ChunkStart(e.row - 1)) == Some(e.message)
    {
      var k :| 0 <= k < |errs| && errs[k] == e;
      assert ChunkStart(i + k) == i;
    }
  }

  /** Error rows strictly increasing, so no row is reported twice. */
  predicate RowsIncreasing(errs: seq<IngestionError>) {
    forall a, b | 0 <= a < b < |errs| :: errs[a].row < errs[b].row
  }

  lemma ConcatIncreasing(head: seq<IngestionError>, rest: seq<IngestionError>, bound: int)
    requires RowsIncreasing(head) && RowsIncreasing(rest)
    requires (forall e | e in head :: e.row <= bound) && (forall e | e in rest :: bound < e.row)
    ensures RowsIncreasing(head + rest)
  {
    var errs := head + rest;
    forall a, b | 0 <= a < b < |errs| ensures errs[a].row < errs[b].row {
      if b < |head| {
        assert errs[a] == head[a] && errs[b] == head[b];
      } else if a < |head| {
        assert errs[a] in head && errs[b] == rest[b - |head|] && rest[b - |head|] in rest;
      } else {
        assert errs[a] == rest[a - |head|] && errs[b] == rest[b - |head|];
      }
    }
  }

  /** Each error reports a document after `i` whose chunk failed, with that chunk's message. */
  predicate ReportsFailedChunk(errs: seq<IngestionError>, n: nat, commit: nat -> Option<string>, i: nat) {
    forall e | e in errs :: i < e.row <= n && e.code == InsertFailed && e.column == ""
                            && commit(ChunkStart(e.row - 1)) == Some(e.message)
  }

  /** Each document from `i` on whose chunk failed is reported. */
  predicate ReportsEveryFailure(errs: seq<IngestionError>, n: nat, commit: nat -> Option<string>, i: nat) {
    forall p | i <= p < n && commit(ChunkStart(p)).Some? :: exists e | e in errs :: e.row == p + 1
  }

  /** The errors of one chunk in the terms of the whole run: increasing, justified, and covering the chunk. */
  lemma ChunkReported(n: nat, commit: nat -> Option<string>, i: nat)
    requires i % TransactionChunkSize == 0 && i < n
    ensures RowsIncreasing(ChunkErrors(n, commit, i))
    ensures forall e | e in ChunkErrors(n, commit, i) :: e.row <= i + Min(TransactionChunkSize, n - i)
    ensures ReportsFailedChunk(ChunkErrors(n, commit, i), n, commit, i)
    ensures forall p | i <= p < i + Min(TransactionChunkSize, n - i) && commit(ChunkStart(p)).Some? ::
              exists e | e in ChunkErrors(n, commit, i) :: e.row == p + 1
  {
    var errs := ChunkErrors(n, commit, i);
    ChunkErrorsExact(n, commit, i);
    forall p | i <= p < i + Min(TransactionChunkSize, n - i) && commit(ChunkStart(p)).Some?
      ensures exists e | e in errs :: e.row == p + 1
    {
      assert errs[p - i] in errs;
    }
  }

  /** A chunk's justified errors followed by the justified errors of the chunks after it. */
  lemma ConcatReportsFailed(head: seq<IngestionError>, rest: seq<IngestionError>, n: nat, commit: nat -> Option<string>, i: nat)
    requires ReportsFailedChunk(head, n, commit, i) && ReportsFailedChunk(rest, n, commit, i + TransactionChunkSize)
    ensures ReportsFailedChunk(head + rest, n, commit, i)
  {
    assert forall e | e in head + rest :: e in head || e in rest;
  }

  /** A chunk's coverage followed by the coverage of the chunks after it covers everything from the chunk's start. */
  lemma ConcatReportsEvery(head: seq<IngestionError>, rest: seq<IngestionError>, n: nat, commit: nat -> Option<string>, i: nat, size: nat)
    requires size == TransactionChunkSize || i + size == n
    requires forall p | i <= p < i + size && commit(ChunkStart(p)).Some? :: exists e | e in head :: e.row == p + 1
    requires ReportsEveryFailure(rest, n, commit, i + TransactionChunkSize)
    ensures ReportsEveryFailure(head + rest, n, commit, i)
  {
    forall p | i <= p < n && commit(ChunkStart(p)).Some? ensures exists e | e in head + rest :: e.row == p + 1 {
      if p < i + size {
        var e :| e in head && e.row == p + 1;
        assert e in head + rest;
      } else {
        var e :| e in rest && e.row == p + 1;
        assert e in head + rest;
      }
    }
  }

  /** The chunked errors from chunk start `i` have strictly increasing rows. */
  lemma {:induction false} ChunkedIncreasing(n: nat, commit: nat -> Option<string>, i: nat)
    requires i % TransactionChunkSize == 0
    ensures RowsIncreasing(ChunkedErrorsFrom(n, commit, i))
    decreases n - i
  {
    if i < n {
      var head := ChunkErrors(n, commit, i);
      var rest := ChunkedErrorsFrom(n, commit, i + TransactionChunkSize);
      assert ChunkedErrorsFrom(n, commit, i) == head + rest;
      ChunkReported(n, commit, i);
      ChunkedIncreasing(n, commit, i + TransactionChunkSize);
      ChunkedJustified(n, commit, i + TransactionChunkSize);
      ConcatIncreasing(head, rest, i + Min(TransactionChunkSize, n - i));
    }
  }

  /** Each chunked error from chunk start `i` reports a later document whose chunk failed. */
  lemma {:induction false} ChunkedJustified(n: nat, commit: nat -> Option<string>, i: nat)
    requires i % TransactionChunkSize == 0
    ensures ReportsFailedChunk(ChunkedErrorsFrom(n, commit, i), n, commit, i)
    decreases n - i
  {
    if i < n {
      var head := ChunkErrors(n, commit, i);
      var rest := ChunkedErrorsFrom(n, commit, i + TransactionChunkSize);
      assert ChunkedErrorsFrom(n, commit, i) == head + rest;
      ChunkReported(n, commit, i);
      ChunkedJustified(n, commit, i + TransactionChunkSize);
      ConcatReportsFailed(head, rest, n, commit, i);
    }
  }

  /** Every document from chunk start `i` on whose chunk failed is reported. */
  lemma {:induction false} ChunkedCovering(n: nat, commit: nat -> Option<string>, i: nat)
    requires i % TransactionChunkSize == 0
    ensures ReportsEveryFailure(ChunkedErrorsFrom(n, commit, i), n, commit, i)
    decreases n - i
  {
    if i < n {
      var head := ChunkErrors(n, commit, i);
      var rest := ChunkedErrorsFrom(n, commit, i + TransactionChunkSize);
      assert ChunkedErrorsFrom(n, commit, i) == head + rest;
      ChunkReported(n, commit, i);
      ChunkedCovering(n, commit, i + TransactionChunkSize);
      ConcatReportsEvery(head, rest, n, commit, i, Min(TransactionChunkSize, n - i));
    }
  }

  /**
   * The chunked errors from chunk start `i`: rows strictly increasing, each
   * the position plus one of a document at or after `i` whose chunk failed,
   * carrying that chunk's message; and every such document is reported.
   */
  lemma ChunkedErrorsExact(n: nat, commit: nat -> Option<string>, i: nat)
    requires i % TransactionChunkSize == 0
    ensures RowsIncreasing(ChunkedErrorsFrom(n, commit, i))
    ensures ReportsFailedChunk(ChunkedErrorsFrom(n, commit, i), n, commit, i)
    ensures ReportsEveryFailure(ChunkedErrorsFrom(n, commit, i), n, commit, i)
  {
    ChunkedIncreasing(n, commit, i);
    ChunkedJustified(n, commit, i);
    ChunkedCovering(n, commit, i);
  }

  /**
   * The chunked persist of `n` documents: document position `p` is reported
   * iff its chunk's transaction failed, exactly once, as row `p + 1`.
   */
  lemma ChunkedReportsFailedChunks(n: nat, commit: nat -> Option<string>, p: nat)
    requires p < n
    ensures var errs := ChunkedErrorsFrom(n, commit, 0);
            (exists e | e in errs :: e.row == p + 1) <==> commit(ChunkStart(p)).Some?
    ensures RowsIncreasing(ChunkedErrorsFrom(n, commit, 0))
  {
    ChunkedErrorsExact(n, commit, 0);
  }

  /** When every chunk commits, chunked persist reports nothing. */
  lemma {:induction false} AllCommittedNoErrors(n: nat, commit: nat -> Option<string>, i: nat)
    requires forall s :: commit(s).None?
    ensures ChunkedErrorsFrom(n, commit, i) == []
    decreases n - i
  {
    if i < n {
      AllCommittedNoErrors(n, commit, i + TransactionChunkSize);
    }
  }

  /** When every chunk fails, chunked persist reports every document: as many errors as documents. */
  lemma {:induction false} AllFailedReportsAll(n: nat, commit: nat -> Option<string>, i: nat)
    requires forall s :: commit(s).Some?
    requires i <= n
    ensures |ChunkedErrorsFrom(n, commit, i)| == n - i
    decreases n - i
  {
    if i < n {
      if i + TransactionChunkSize <= n {
        AllFailedReportsAll(n, commit, i + TransactionChunkSize);
      } else {
        assert ChunkedErrorsFrom(n, commit, i + TransactionChunkSize) == [];
      }
    }
  }
}
