/**
 * The data that flows through the CSV bulk-import engine: error records with
 * their thirteen codes, parsed rows, the result of an import, relation
 * declarations, the six importable entity types, and the document store the
 * engine reads (each model a sequence of documents in natural order).
 */
module IngestionTypes {

  import opened Wrappers

  /** The thirteen ingestion error codes. */
  datatype ErrorCode =
    | MissingHeader | ExtraHeader | ParseError
    | RequiredField | InvalidType | InvalidEnum | InvalidFormat
    | RelationNotFound
    | DuplicateInFile | DuplicateInDb | ConflictOverlap
    | InsertFailed
    | PreconditionFailed

  /** The wire name of an error code. */
  function CodeName(c: ErrorCode): string {
    match c
    case MissingHeader => "MISSING_HEADER"
    case ExtraHeader => "EXTRA_HEADER"
    case ParseError => "PARSE_ERROR"
    case RequiredField => "REQUIRED_FIELD"
    case InvalidType => "INVALID_TYPE"
    case InvalidEnum => "INVALID_ENUM"
    case InvalidFormat => "INVALID_FORMAT"
    case RelationNotFound => "RELATION_NOT_FOUND"
    case DuplicateInFile => "DUPLICATE_IN_FILE"
    case DuplicateInDb => "DUPLICATE_IN_DB"
    case ConflictOverlap => "CONFLICT_OVERLAP"
    case InsertFailed => "INSERT_FAILED"
    case PreconditionFailed => "PRECONDITION_FAILED"
  }

  /** One reported problem; row 0 stands for the file or the job as a whole. */
  datatype IngestionError = IngestionError(row: int, column: string, code: ErrorCode, message: string)

  /** A record: column name to cell text. */
  type Data = map<string, string>

  /** A data row of the file, numbered from 1 in order of appearance. */
  datatype ParsedRow = ParsedRow(rowNumber: int, data: Data)

  datatype IngestionResult = IngestionResult(totalRows: int, successCount: int, failureCount: int, errors: seq<IngestionError>)

  /** A column whose text must resolve, through `lookupField`, to a document of `modelName`. */
  datatype RelationConfig = RelationConfig(modelName: string, lookupField: string)

  /** The relation declarations of an entity, in declaration order (an object's key order). */
  type Relations = seq<(string, RelationConfig)>

  function Columns(relations: Relations): (cols: seq<string>)
    ensures |cols| == |relations| && forall k | 0 <= k < |relations| :: cols[k] == relations[k].0
  {
    seq(|relations|, k requires 0 <= k < |relations| => relations[k].0)
  }

  /** Object keys are distinct. */
  predicate DistinctColumns(relations: Relations) {
    forall i, j | 0 <= i < j < |relations| :: relations[i].0 != relations[j].0
  }

  /** The six importable record kinds. */
  datatype EntityType = ClassImport | SubjectImport | RoomImport | StudentImport | TeacherImport | TimetableImport

  function EntityTypeName(t: EntityType): string {
    match t
    case ClassImport => "CLASS_IMPORT"
    case SubjectImport => "SUBJECT_IMPORT"
    case RoomImport => "ROOM_IMPORT"
    case StudentImport => "STUDENT_IMPORT"
    case TeacherImport => "TEACHER_IMPORT"
    case TimetableImport => "TIMETABLE_IMPORT"
  }

  /** The entity type a route parameter or a queue message names, if any. */
  function ParseEntityType(s: string): (r: Option<EntityType>)
    ensures r.Some? ==> EntityTypeName(r.value) == s
    ensures r.None? ==> forall t: EntityType :: EntityTypeName(t) != s
  {
    if s == "CLASS_IMPORT" then Some(ClassImport)
    else if s == "SUBJECT_IMPORT" then Some(SubjectImport)
    else if s == "ROOM_IMPORT" then Some(RoomImport)
    else if s == "STUDENT_IMPORT" then Some(StudentImport)
    else if s == "TEACHER_IMPORT" then Some(TeacherImport)
    else if s == "TIMETABLE_IMPORT" then Some(TimetableImport)
    else None
  }

  /** A stored document: its identifier and its fields as text. */
  datatype Doc = Doc(id: string, fields: Data)

  /** `String(data[field])`, or the field in a template string: its text, or "undefined" when it is missing. */
  function ValueText(data: Data, field: string): string {
    if field in data then data[field] else "undefined"
  }

  /** `String(doc[field])` of a stored document. */
  function FieldText(d: Doc, field: string): string {
    ValueText(d.fields, field)
  }

  /** The document store: model name to its documents in natural order. */
  type Store = map<string, seq<Doc>>

  function DocsOf(store: Store, model: string): seq<Doc> {
    if model in store then store[model] else []
  }

  /** `model.find({ [field]: { $in: values } })`: the documents whose field is one of `values`, in natural order. */
  function FindIn(docs: seq<Doc>, field: string, values: set<string>): (r: seq<Doc>)
    ensures |r| <= |docs|
    ensures forall d :: d in r <==> d in docs && field in d.fields && d.fields[field] in values
  {
    if docs == [] then []
    else
      var rest := FindIn(docs[..|docs| - 1], field, values);
      var d := docs[|docs| - 1];
      assert docs == docs[..|docs| - 1] + [d];
      if field in d.fields && d.fields[field] in values then rest + [d] else rest
  }

  /** `model.exists({})`. */
  predicate HasAny(store: Store, model: string) {
    DocsOf(store, model) != []
  }
}
