/**
 * `validateRow` (backend/src/ingestion/validators/row-validator.ts): run a
 * schema over one raw row, optionally after a coercion, and turn every issue
 * the schema library reports into an ingestion error of the same row. The
 * schema library is abstract: a schema is a function from a record to either
 * the parsed record or the list of issues it found.
 */
module RowValidator {

  import opened Wrappers
  import opened Text
  import opened IngestionTypes

  /** An issue as the schema library reports it: its code, the path of the offending field, its message. */
  datatype Issue = Issue(code: string, path: seq<string>, message: string)

  datatype SchemaOutcome = Parsed(data: Data) | Failed(issues: seq<Issue>)

  type Schema = Data -> SchemaOutcome

  datatype RowValidationResult = Valid(data: Data) | Invalid(errors: seq<IngestionError>)

  /** The four codes a field-level problem can be reported with. */
  predicate IsFieldCode(c: ErrorCode) {
    c == RequiredField || c == InvalidType || c == InvalidEnum || c == InvalidFormat
  }

  /** `mapZodCodeToIngestionCode`. */
  function MapIssueCode(issueCode: string, message: string): (c: ErrorCode)
    ensures IsFieldCode(c)
    ensures c == RequiredField <==> issueCode == "invalid_type" && Contains(Lower(message), "required")
    ensures c == InvalidEnum <==> issueCode == "invalid_enum_value"
    ensures c == InvalidFormat <==> issueCode in {"invalid_string", "too_small", "too_big", "custom"}
  {
    match issueCode
    case "invalid_type" => if Contains(Lower(message), "required") then RequiredField else InvalidType
    case "invalid_enum_value" => InvalidEnum
    case "invalid_string" => InvalidFormat
    case "too_small" => InvalidFormat
    case "too_big" => InvalidFormat
    case "custom" => InvalidFormat
    case _ => InvalidType
  }

  /** The message "... is required" does not make a `too_small` issue a REQUIRED_FIELD: only `invalid_type` can. */
  lemma EmptyRequiredFieldIsFormatError(message: string)
    ensures MapIssueCode("too_small", message) == InvalidFormat
    ensures MapIssueCode("too_small", message) != RequiredField
  {
  }

  /** A lower-case "required" in an `invalid_type` message is found whatever its case. */
  lemma RequiredMessageIsRequiredField(message: string, i: nat)
    requires i + 8 <= |message| && Lower(message[i..i + 8]) == "required"
    ensures MapIssueCode("invalid_type", message) == RequiredField
  {
    var lm := Lower(message);
    assert lm[i..i + 8] == Lower(message[i..i + 8]);
    assert OccursAt(lm, "required", i);
  }

  /** The column an issue is reported on: its path joined with '.'. */
  function IssueColumn(issue: Issue): string {
    Join(issue.path, '.')
  }

  /** `zodErrorsToIngestionErrors`: one error per issue, in issue order, all on `rowNumber`. */
  function IssuesToErrors(issues: seq<Issue>, rowNumber: int): (errs: seq<IngestionError>)
    ensures |errs| == |issues|
    ensures forall k | 0 <= k < |errs| :: errs[k].row == rowNumber && errs[k].message == issues[k].message
    ensures forall k | 0 <= k < |errs| :: errs[k].column == IssueColumn(issues[k])
    ensures forall k | 0 <= k < |errs| :: errs[k].code == MapIssueCode(issues[k].code, issues[k].message)
  {
    seq(|issues|, k requires 0 <= k < |issues|
      => IngestionError(rowNumber, IssueColumn(issues[k]), MapIssueCode(issues[k].code, issues[k].message), issues[k].message))
  }

  /** The record the schema sees: the coerced row when a coercion is supplied, the raw row otherwise. */
  function Coerced(raw: Data, coerce: Option<Data -> Data>): Data {
    match coerce
    case Some(f) => f(raw)
    case None => raw
  }

  /** `validateRow`. */
  function ValidateRow(schema: Schema, raw: Data, rowNumber: int, coerce: Option<Data -> Data>): (r: RowValidationResult)
    ensures r.Valid? <==> schema(Coerced(raw, coerce)).Parsed?
    ensures r.Valid? ==> r.data == schema(Coerced(raw, coerce)).data
    ensures r.Invalid? ==> |r.errors| == |schema(Coerced(raw, coerce)).issues|
    ensures r.Invalid? ==> forall e | e in r.errors :: e.row == rowNumber && IsFieldCode(e.code)
  {
    match schema(Coerced(raw, coerce))
    case Parsed(data) => Valid(data)
    case Failed(issues) => Invalid(IssuesToErrors(issues, rowNumber))
  }

  /**
   * A column of an error splits back into the issue's path when the path is
   * non-empty and no segment holds a '.'.
   */
  lemma ColumnRecoversPath(issue: Issue)
    requires |issue.path| >= 1 && forall k | 0 <= k < |issue.path| :: '.' !in issue.path[k]
    ensures Split(IssueColumn(issue), '.') == issue.path
  {
    SplitJoin(issue.path, '.');
  }
}
