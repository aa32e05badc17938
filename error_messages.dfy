/**
 * The error wording of frontend/src/lib/error-messages.ts: a table from
 * error codes to friendly text, the row-error line shown for each failed
 * CSV row, the ordered rules that turn a raw API error into a sentence,
 * and the labels of entity types and job statuses.
 */
module ErrorMessages {

  import opened Wrappers
  import opened Text
  import opened IngestionTypes
  import opened JobService

  /** `ERROR_CODE_MAP`. */
  const ErrorCodeMap: map<string, string> := map[
    "DUPLICATE_IN_FILE" := "This value appears more than once in the same file.",
    "RELATION_NOT_FOUND" := "A referenced record was not found — make sure it exists before importing.",
    "INVALID_TYPE" := "The value has an unexpected format or type.",
    "INVALID_ENUM" := "The value is not one of the allowed options.",
    "REQUIRED_FIELD" := "This field is required and cannot be left empty.",
    "INVALID_FORMAT" := "The value does not match the expected format.",
    "CONFLICT_OVERLAP" := "This time slot conflicts with an existing entry.",
    "CONFLICT_UNIQUE" := "A record with this value already exists.",
    "DOUBLE_BOOKED_ROOM" := "This room is already booked at the specified time.",
    "DOUBLE_BOOKED_TEACHER" := "This teacher is already assigned to another class at this time.",
    "PRECONDITION_FAILED" := "Some required data has not been set up yet. Check the import order guide.",
    "UNKNOWN_COLUMN" := "The file contains a column that is not recognized.",
    "MISSING_COLUMN" := "A required column is missing from the file.",
    "INVALID_CSV" := "The file could not be read as a valid CSV.",
    "EMPTY_FILE" := "The uploaded file contains no data rows.",
    "VALIDATION_ERROR" := "Some fields have invalid values. Please review and try again.",
    "CAST_ERROR" := "An ID or reference is in the wrong format.",
    "DUPLICATE_KEY" := "A record with this value already exists.",
    "NOT_FOUND" := "The requested record was not found.",
    "REFERENCE_ERROR" := "A referenced record does not exist.",
    "TRANSACTION_ERROR" := "A server operation failed. Please try again.",
    "INTERNAL_ERROR" := "Something went wrong on the server. Please try again later."
  ]

  const UnexpectedText: string := "An unexpected error occurred."

  /** `humanizeErrorCode`: the mapped text, else the fallback when one is given ('' included), else a default. */
  function HumanizeErrorCode(code: string, fallback: Option<string>): (r: string)
    ensures code in ErrorCodeMap ==> r == ErrorCodeMap[code]
    ensures code !in ErrorCodeMap && fallback.Some? ==> r == fallback.value
    ensures code !in ErrorCodeMap && fallback.None? ==> r == UnexpectedText
  {
    if code in ErrorCodeMap then ErrorCodeMap[code] else fallback.GetOr(UnexpectedText)
  }

  /** The location part of a row error line. */
  function RowPrefix(row: int, column: string): string {
    "Row " + IntToString(row) + ", column \"" + column + "\": "
  }

  /** `humanizeRowError`: the location, then the friendly text for the code when there is one, else the raw message. */
  function HumanizeRowError(e: IngestionError): string {
    var code := CodeName(e.code);
    RowPrefix(e.row, e.column) + (if code in ErrorCodeMap && ErrorCodeMap[code] != "" then ErrorCodeMap[code] else e.message)
  }

  // ----- the capture of /index:\s+(\w+)/ -----

  /** The length of the run of white space starting at `j`. */
  function SpaceRun(s: string, j: nat): (n: nat)
    requires j <= |s|
    ensures j + n <= |s| && (j + n == |s| || !IsSpace(s[j + n]))
    ensures forall k | j <= k < j + n :: IsSpace(s[k])
    decreases |s| - j
  {
    if j < |s| && IsSpace(s[j]) then 1 + SpaceRun(s, j + 1) else 0
  }

  /** The length of the run of word characters starting at `j`. */
  function WordRun(s: string, j: nat): (n: nat)
    requires j <= |s|
    ensures j + n <= |s| && (j + n == |s| || !IsWordChar(s[j + n]))
    ensures forall k | j <= k < j + n :: IsWordChar(s[k])
    decreases |s| - j
  {
    if j < |s| && IsWordChar(s[j]) then 1 + WordRun(s, j + 1) else 0
  }

  const IndexTag: string := "index:"

  /** The pattern matches at `i`: `index:`, at least one space, at least one word character. */
  predicate MatchAt(s: string, i: nat) {
    && OccursAt(s, IndexTag, i)
    && var j := i + |IndexTag|;
       SpaceRun(s, j) >= 1 && j + SpaceRun(s, j) < |s| && IsWordChar(s[j + SpaceRun(s, j)])
  }

  /** The leftmost match at or after `i`. */
  function FirstMatch(s: string, i: nat): (r: Option<nat>)
    requires i <= |s|
    ensures r.Some? ==> i <= r.value < |s| && MatchAt(s, r.value) && forall k | i <= k < r.value :: !MatchAt(s, k)
    ensures r.None? ==> forall k | i <= k < |s| :: !MatchAt(s, k)
    decreases |s| - i
  {
    if i == |s| then None
    else if MatchAt(s, i) then Some(i)
    else FirstMatch(s, i + 1)
  }

  /** The first capture group of the match at `i`: the whole run of word characters after the spaces. */
  function Captured(s: string, i: nat): (w: string)
    requires MatchAt(s, i)
    ensures |w| >= 1 && forall k | 0 <= k < |w| :: IsWordChar(w[k])
  {
    var j := i + |IndexTag| + SpaceRun(s, i + |IndexTag|);
    s[j..j + WordRun(s, j)]
  }

  /** `match?.[1] ?? 'value'`. */
  function DuplicateField(message: string): string {
    match FirstMatch(message, 0)
    case None => "value"
    case Some(i) => Captured(message, i)
  }

  // ----- humanizeApiError -----

  const GenericText: string := "Something went wrong. Please try again."
  const TransactionText: string := "The database is temporarily unavailable. Please try again in a moment."
  const CastText: string := "An invalid ID was provided. Please check your selection and try again."
  const ValidationText: string := "Some fields have invalid values. Please check your input."
  const NetworkText: string := "Unable to reach the server. Please check your connection."

  function DuplicateText(field: string): string {
    "A record with this " + field + " already exists."
  }

  predicate IsTransaction(m: string) { Contains(m, "transaction") || Contains(m, "Transaction") }
  predicate IsDuplicate(m: string) { Contains(m, "duplicate") || Contains(m, "E11000") }
  predicate IsCast(m: string) { Contains(m, "Cast") || Contains(m, "ObjectId") }
  predicate IsValidation(m: string) { Contains(m, "validation failed") }
  predicate IsNetwork(m: string) { Contains(m, "Network") || Contains(m, "fetch") }

  /** `humanizeApiError`: the rules in order, the first that applies deciding the text. */
  function HumanizeApiError(message: string): string {
    if message == "" then GenericText
    else if IsTransaction(message) then TransactionText
    else if IsDuplicate(message) then DuplicateText(DuplicateField(message))
    else if IsCast(message) then CastText
    else if IsValidation(message) then ValidationText
    else if IsNetwork(message) then NetworkText
    else message
  }

  /** `ENTITY_TYPE_LABELS`. */
  const EntityTypeLabels: map<string, string> := map[
    "CLASS_IMPORT" := "Classes", "SUBJECT_IMPORT" := "Subjects", "ROOM_IMPORT" := "Rooms",
    "STUDENT_IMPORT" := "Students", "TEACHER_IMPORT" := "Teachers", "TIMETABLE_IMPORT" := "Timetable"
  ]

  datatype StatusInfo = StatusInfo(shortLabel: string, description: string)

  /** `JOB_STATUS_INFO`. */
  const JobStatusInfo: map<string, StatusInfo> := map[
    "PENDING" := StatusInfo("Queued", "Waiting to be processed"),
    "RUNNING" := StatusInfo("Processing", "Import is in progress"),
    "COMPLETED" := StatusInfo("Completed", "Import finished successfully"),
    "FAILED" := StatusInfo("Failed", "Import encountered errors")
  ]

  // ----- properties -----

  /**
   * Of the thirteen ingestion codes, exactly MISSING_HEADER, EXTRA_HEADER,
   * PARSE_ERROR, DUPLICATE_IN_DB and INSERT_FAILED have no friendly text.
   */
  lemma UnmappedIngestionCodes(c: ErrorCode)
    ensures CodeName(c) !in ErrorCodeMap <==>
              c == MissingHeader || c == ExtraHeader || c == ParseError || c == DuplicateInDb || c == InsertFailed
  {
    UnmappedNames();
    MappedNames();
  }

  /** The five codes that have no friendly text. */
  lemma UnmappedNames()
    ensures "MISSING_HEADER" !in ErrorCodeMap && "EXTRA_HEADER" !in ErrorCodeMap && "PARSE_ERROR" !in ErrorCodeMap
    ensures "DUPLICATE_IN_DB" !in ErrorCodeMap && "INSERT_FAILED" !in ErrorCodeMap
  {
    MissingHeaderNotMapped();
    ExtraHeaderNotMapped();
    ParseErrorNotMapped();
    DuplicateInDbNotMapped();
    InsertFailedNotMapped();
  }

  lemma MissingHeaderNotMapped() ensures "MISSING_HEADER" !in ErrorCodeMap {}
  lemma ExtraHeaderNotMapped() ensures "EXTRA_HEADER" !in ErrorCodeMap {}
  lemma ParseErrorNotMapped() ensures "PARSE_ERROR" !in ErrorCodeMap {}
  lemma DuplicateInDbNotMapped() ensures "DUPLICATE_IN_DB" !in ErrorCodeMap {}
  lemma InsertFailedNotMapped() ensures "INSERT_FAILED" !in ErrorCodeMap {}

  /** The eight codes that have friendly text. */
  lemma MappedNames()
    ensures "REQUIRED_FIELD" in ErrorCodeMap && "INVALID_TYPE" in ErrorCodeMap && "INVALID_ENUM" in ErrorCodeMap
    ensures "INVALID_FORMAT" in ErrorCodeMap && "RELATION_NOT_FOUND" in ErrorCodeMap && "DUPLICATE_IN_FILE" in ErrorCodeMap
    ensures "CONFLICT_OVERLAP" in ErrorCodeMap && "PRECONDITION_FAILED" in ErrorCodeMap
  {
  }

  /**
   * A row error line names the row and column, then the friendly text of a
   * mapped code, or the raw message of one of the five unmapped codes.
   */
  lemma RowErrorShowsFriendlyOrRaw(e: IngestionError)
    ensures var line := HumanizeRowError(e);
            var p := RowPrefix(e.row, e.column);
            |p| <= |line| && line[..|p|] == p
            && (CodeName(e.code) in ErrorCodeMap ==> line[|p|..] == ErrorCodeMap[CodeName(e.code)])
            && (CodeName(e.code) !in ErrorCodeMap ==> line[|p|..] == e.message)
  {
    var p := RowPrefix(e.row, e.column);
    var code := CodeName(e.code);
    var tail := if code in ErrorCodeMap && ErrorCodeMap[code] != "" then ErrorCodeMap[code] else e.message;
    assert HumanizeRowError(e) == p + tail;
    if code in ErrorCodeMap {
      assert ErrorCodeMap[code] != "" by {
        UnmappedIngestionCodes(e.code);
      }
    }
  }

  /** Friendly text replaces the code's own message on every mapped code, whatever the message was. */
  lemma RowErrorIgnoresMessageOfMappedCodes(e: IngestionError, other: string)
    requires CodeName(e.code) in ErrorCodeMap
    ensures HumanizeRowError(e) == HumanizeRowError(e.(message := other))
  {
  }

  /** The duplicate rule names the leftmost `index:` capture, a non-empty run of word characters, or 'value'. */
  lemma DuplicateFieldIsLeftmostCapture(message: string)
    ensures var f := DuplicateField(message);
            && |f| >= 1
            && (f == "value" || forall k | 0 <= k < |f| :: IsWordChar(f[k]))
            && ((forall i | 0 <= i < |message| :: !MatchAt(message, i)) ==> f == "value")
            && (forall i | 0 <= i < |message| && MatchAt(message, i) && (forall k | 0 <= k < i :: !MatchAt(message, k)) ::
                  f == Captured(message, i))
  {
    var r := FirstMatch(message, 0);
    if r.Some? {
      forall i | 0 <= i < |message| && MatchAt(message, i) && (forall k | 0 <= k < i :: !MatchAt(message, k))
        ensures DuplicateField(message) == Captured(message, i)
      {
      }
    }
  }

  /** A text with no occurrence of one of the characters of `sub` does not contain `sub`. */
  lemma AbsentCharNotContained(s: string, sub: string, p: nat)
    requires p < |sub| && sub[p] !in s
    ensures !Contains(s, sub)
  {
    forall i | 0 <= i <= |s| - |sub| ensures !OccursAt(s, sub, i) {
      assert s[i + p] in s;
      assert s[i..i + |sub|][p] == s[i + p];
    }
  }

  /** Every occurrence of `sub` in `s` starts with the first character of `sub`. */
  lemma OccurrenceStartsWithHead(s: string, sub: string)
    requires |sub| > 0
    ensures forall k | OccursAt(s, sub, k) :: s[k] == sub[0]
  {
    forall k | OccursAt(s, sub, k) ensures s[k] == sub[0] {
      assert s[k..k + |sub|][0] == s[k];
    }
  }

  /** A run of word characters ended by a non-word character or the end of the text has exactly its length. */
  lemma WordRunIs(s: string, j: nat, n: nat)
    requires j + n <= |s|
    requires forall k | j <= k < j + n :: IsWordChar(s[k])
    requires j + n == |s| || !IsWordChar(s[j + n])
    ensures WordRun(s, j) == n
  {
  }

  /** No match starts before the first 'i'. */
  lemma NoMatchBeforeI(s: string, i: nat)
    requires i <= |s| && 'i' !in s[..i]
    ensures forall k | 0 <= k < i :: !MatchAt(s, k)
  {
    OccurrenceStartsWithHead(s, IndexTag);
    forall k | 0 <= k < i ensures !MatchAt(s, k) {
      assert s[k] == s[..i][k];
    }
  }

  /**
   * A message that reads `index: ` and a run of word characters, with no
   * earlier 'i' and no word character right after the run, has that run as
   * its duplicate field.
   */
  lemma CapturesIndexName(prefix: string, field: string, rest: string)
    requires 'i' !in prefix
    requires |field| >= 1 && forall k | 0 <= k < |field| :: IsWordChar(field[k])
    requires rest == [] || !IsWordChar(rest[0])
    ensures DuplicateField(prefix + IndexTag + " " + field + rest) == field
  {
    var m := prefix + IndexTag + " " + field + rest;
    var i := |prefix|;
    var j := i + |IndexTag| + 1;
    assert m[..i] == prefix;
    assert m[i..i + |IndexTag|] == IndexTag;
    assert m[j..j + |field|] == field;
    assert m[j - 1] == ' ';
    assert j + |field| == |m| || m[j + |field|] == rest[0];
    NoMatchBeforeI(m, i);
    CaptureAt(m, i, |field|);
  }

  /**
   * `index:`, one space and a run of `n` word characters at `i`, with no
   * match before `i`: the run is the duplicate field.
   */
  lemma CaptureAt(m: string, i: nat, n: nat)
    requires OccursAt(m, IndexTag, i)
    requires var j := i + |IndexTag| + 1;
             && j + n <= |m| && n >= 1 && m[j - 1] == ' '
             && (forall k | j <= k < j + n :: IsWordChar(m[k]))
             && (j + n == |m| || !IsWordChar(m[j + n]))
    requires forall k | 0 <= k < i :: !MatchAt(m, k)
    ensures DuplicateField(m) == m[i + |IndexTag| + 1..i + |IndexTag| + 1 + n]
  {
    var j := i + |IndexTag| + 1;
    assert SpaceRun(m, j) == 0 by {
      assert IsWordChar(m[j]);
    }
    assert SpaceRun(m, j - 1) == 1;
    WordRunIs(m, j, n);
    DuplicateFieldAt(m, i);
    CapturedRun(m, i, n);
  }

  /** A match with none before it is the leftmost one, and its capture is the field. */
  lemma DuplicateFieldAt(m: string, i: nat)
    requires i < |m| && MatchAt(m, i) && forall k | 0 <= k < i :: !MatchAt(m, k)
    ensures FirstMatch(m, 0) == Some(i)
    ensures DuplicateField(m) == Captured(m, i)
  {
  }

  /** With one space after the tag, the capture is the run of word characters that follows it. */
  lemma CapturedRun(m: string, i: nat, n: nat)
    requires MatchAt(m, i)
    requires SpaceRun(m, i + |IndexTag|) == 1 && WordRun(m, i + |IndexTag| + 1) == n
    ensures Captured(m, i) == m[i + |IndexTag| + 1..i + |IndexTag| + 1 + n]
  {
  }

  const DuplicateKeySample: string := "E11000 index: email_1 dup"

  /** The sample is a duplicate-key message that no earlier rule claims. */
  lemma SampleIsDuplicateOnly(m: string)
    requires m == DuplicateKeySample
    ensures !IsTransaction(m) && IsDuplicate(m)
  {
    SampleLacks(m, 'r');
    SampleLacks(m, 'T');
    AbsentCharNotContained(m, "transaction", 1);
    AbsentCharNotContained(m, "Transaction", 0);
    assert m[0..6] == "E11000";
    assert OccursAt(m, "E11000", 0);
  }

  /** The sample is a prefix, `index: `, the index name and a tail. */
  lemma SampleParts(m: string)
    requires m == DuplicateKeySample
    ensures m == "E11000 " + IndexTag + " " + "email_1" + " dup"
    ensures 'i' !in "E11000 " && forall k | 0 <= k < |"email_1"| :: IsWordChar("email_1"[k])
  {
  }

  /** The sample holds neither 'r' nor 'T'. */
  lemma SampleLacks(m: string, c: char)
    requires m == DuplicateKeySample && c in "rT"
    ensures c !in m
  {
  }

  /** A MongoDB duplicate-key error names its index. */
  lemma DuplicateKeyExample(message: string)
    requires message == DuplicateKeySample
    ensures HumanizeApiError(message) == DuplicateText("email_1")
  {
    SampleParts(message);
    CapturesIndexName("E11000 ", "email_1", " dup");
    SampleIsDuplicateOnly(message);
  }

  /** The rules apply in order, the first that applies winning: a transaction message wins over every later rule, and so on down. */
  lemma FirstRuleWins(message: string)
    requires message != ""
    ensures IsTransaction(message) ==> HumanizeApiError(message) == TransactionText
    ensures (!IsTransaction(message) && IsDuplicate(message)) ==>
              HumanizeApiError(message) == DuplicateText(DuplicateField(message))
    ensures (!IsTransaction(message) && !IsDuplicate(message) && IsCast(message)) ==> HumanizeApiError(message) == CastText
    ensures (!IsTransaction(message) && !IsDuplicate(message) && !IsCast(message) && IsValidation(message)) ==>
              HumanizeApiError(message) == ValidationText
    ensures (!IsTransaction(message) && !IsDuplicate(message) && !IsCast(message) && !IsValidation(message)
             && IsNetwork(message)) ==> HumanizeApiError(message) == NetworkText
  {
  }

  /** No rule applies to a message. */
  predicate NoRule(message: string) {
    !IsTransaction(message) && !IsDuplicate(message) && !IsCast(message) && !IsValidation(message) && !IsNetwork(message)
  }

  /** A non-empty message that no rule applies to is shown unchanged, and only the empty message gets the generic text. */
  lemma UnmatchedMessageUnchanged(message: string)
    ensures (message != "" && NoRule(message)) ==> HumanizeApiError(message) == message
    ensures HumanizeApiError(message) == GenericText <==> message == "" || message == GenericText
  {
    if message == GenericText {
      NoKeywordInGeneric();
    }
    if message != "" && !IsTransaction(message) && IsDuplicate(message) {
      var d := DuplicateText(DuplicateField(message));
      assert d[0] == 'A' && GenericText[0] == 'S';
    }
  }

  /** A text without any of the characters c, E, C, O, d, N and f matches no rule. */
  lemma NoRuleWithoutKeyChars(s: string)
    requires 'c' !in s && 'E' !in s && 'C' !in s && 'O' !in s && 'd' !in s && 'N' !in s && 'f' !in s
    ensures NoRule(s)
  {
    AbsentCharNotContained(s, "transaction", 6);
    AbsentCharNotContained(s, "Transaction", 6);
    AbsentCharNotContained(s, "duplicate", 0);
    AbsentCharNotContained(s, "E11000", 0);
    AbsentCharNotContained(s, "Cast", 0);
    AbsentCharNotContained(s, "ObjectId", 0);
    AbsentCharNotContained(s, "validation failed", 4);
    AbsentCharNotContained(s, "Network", 0);
    AbsentCharNotContained(s, "fetch", 0);
  }

  lemma GenericLacks(c: char)
    requires c in "cECOdNf"
    ensures c !in GenericText
  {
  }

  /** The generic text contains none of the rule keywords. */
  lemma NoKeywordInGeneric()
    ensures NoRule(GenericText)
  {
    GenericLacks('c'); GenericLacks('E'); GenericLacks('C'); GenericLacks('O');
    GenericLacks('d'); GenericLacks('N'); GenericLacks('f');
    NoRuleWithoutKeyChars(GenericText);
  }

  /** The entity-type labels cover exactly the six entity types. */
  lemma LabelsCoverEntityTypes()
    ensures forall t: EntityType :: EntityTypeName(t) in EntityTypeLabels
    ensures forall k | k in EntityTypeLabels :: ParseEntityType(k).Some?
  {
  }

  /** The status table covers exactly the four job statuses. */
  lemma StatusInfoCoversStatuses()
    ensures forall s: JobStatus :: StatusName(s) in JobStatusInfo
    ensures forall k | k in JobStatusInfo :: exists s: JobStatus :: StatusName(s) == k
  {
    forall k | k in JobStatusInfo ensures exists s: JobStatus :: StatusName(s) == k {
      if k == "PENDING" { assert StatusName(Pending) == k; }
      else if k == "RUNNING" { assert StatusName(Running) == k; }
      else if k == "COMPLETED" { assert StatusName(Completed) == k; }
      else { assert StatusName(JobStatus.Failed) == k; }
    }
  }
}
