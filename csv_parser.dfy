/**
 * The header gate and row numbering of `parseCsv`
 * (backend/src/ingestion/parsers/csv-parser.ts). The tokenizer is abstract:
 * it hands over a sequence of events, each a data record (its column names in
 * order and its cells) or a stream error; the stream ends after the last event.
 *
 * As written, `parseCsv` resolves only from its header-failure branch and its
 * `end` handler; its `error` handler records a PARSE_ERROR but never resolves,
 * and a stream that errors emits no `end`. `ParseOutcome` models that: a
 * stream error leaves the promise pending. `ParseSpec` and `ParseCsv` model
 * the evidently intended behaviour, resolving once the events are exhausted
 * with every PARSE_ERROR recorded; the rest of the model uses them.
 */
module CsvParser {

  import opened Wrappers
  import opened Text
  import opened IngestionTypes

  datatype CsvEvent = Record(keys: seq<string>, data: Data) | StreamError(message: string)

  datatype CsvParseResult = CsvParseResult(rows: seq<ParsedRow>, errors: seq<IngestionError>)

  function MissingHeaderError(header: string): IngestionError {
    IngestionError(0, header, MissingHeader, "Missing required CSV header: '" + header + "'")
  }

  function ExtraHeaderError(header: string): IngestionError {
    IngestionError(0, Trim(header), ExtraHeader, "Unexpected CSV header: '" + Trim(header) + "'")
  }

  /** The actual header names as compared: trimmed, then lower-cased. */
  function ActualSet(actual: seq<string>): set<string> {
    set h | h in actual :: Lower(Trim(h))
  }

  /** The expected header names as compared: lower-cased. */
  function ExpectedSet(expected: seq<string>): set<string> {
    set h | h in expected :: Lower(h)
  }

  /** The number of expected headers (counted by position) that the actual set lacks. */
  function MissingCount(expected: seq<string>, actualSet: set<string>): nat {
    if expected == [] then 0
    else MissingCount(expected[..|expected| - 1], actualSet)
         + (if Lower(expected[|expected| - 1]) in actualSet then 0 else 1)
  }

  /** One MISSING_HEADER per expected header absent from the actual set, in expected order. */
  function MissingErrors(expected: seq<string>, actualSet: set<string>): (errs: seq<IngestionError>)
    ensures |errs| == MissingCount(expected, actualSet)
    ensures forall e | e in errs :: e.row == 0 && e.code == MissingHeader
    ensures forall e | e in errs :: e.column in expected && Lower(e.column) !in actualSet
    ensures forall h | h in expected && Lower(h) !in actualSet :: MissingHeaderError(h) in errs
  {
    if expected == [] then []
    else
      var h := expected[|expected| - 1];
      var rest := MissingErrors(expected[..|expected| - 1], actualSet);
      assert expected == expected[..|expected| - 1] + [h];
      rest + (if Lower(h) in actualSet then [] else [MissingHeaderError(h)])
  }

  /** One EXTRA_HEADER per actual header outside the expected set, in actual order. */
  function ExtraErrors(actual: seq<string>, expectedSet: set<string>): (errs: seq<IngestionError>)
    ensures forall e | e in errs :: e.row == 0 && e.code == ExtraHeader
    ensures forall e | e in errs :: exists j | 0 <= j < |actual| :: e.column == Trim(actual[j]) && Lower(Trim(actual[j])) !in expectedSet
    ensures forall h | h in actual && Lower(Trim(h)) !in expectedSet :: ExtraHeaderError(h) in errs
  {
    if actual == [] then []
    else
      var h := actual[|actual| - 1];
      var rest := ExtraErrors(actual[..|actual| - 1], expectedSet);
      assert actual == actual[..|actual| - 1] + [h];
      rest + (if Lower(Trim(h)) in expectedSet then [] else [ExtraHeaderError(h)])
  }

  /** `validateHeaders`: all MISSING_HEADER errors, then all EXTRA_HEADER errors. */
  function ValidateHeaders(actual: seq<string>, expected: seq<string>): (errs: seq<IngestionError>)
    ensures forall i, j | 0 <= i < j < |errs| :: errs[i].code == ExtraHeader ==> errs[j].code == ExtraHeader
    ensures forall e | e in errs :: e.row == 0 && e.code in {MissingHeader, ExtraHeader}
  {
    MissingErrors(expected, ActualSet(actual)) + ExtraErrors(actual, ExpectedSet(expected))
  }

  /** The header gate passes exactly when the trimmed, lower-cased actual set equals the lower-cased expected set. */
  lemma ValidateHeadersEmptyIff(actual: seq<string>, expected: seq<string>)
    ensures ValidateHeaders(actual, expected) == [] <==> ActualSet(actual) == ExpectedSet(expected)
  {
    MissingEmptyIff(actual, expected);
    ExtraEmptyIff(actual, expected);
  }

  lemma MissingEmptyIff(actual: seq<string>, expected: seq<string>)
    ensures MissingErrors(expected, ActualSet(actual)) == [] <==> ExpectedSet(expected) <= ActualSet(actual)
  {
    var missing := MissingErrors(expected, ActualSet(actual));
    if missing == [] {
      forall x | x in ExpectedSet(expected) ensures x in ActualSet(actual) {
        var h :| h in expected && Lower(h) == x;
        assert Lower(h) !in ActualSet(actual) ==> MissingHeaderError(h) in missing;
      }
    } else {
      assert missing[0] in missing;
    }
  }

  lemma ExtraEmptyIff(actual: seq<string>, expected: seq<string>)
    ensures ExtraErrors(actual, ExpectedSet(expected)) == [] <==> ActualSet(actual) <= ExpectedSet(expected)
  {
    var extra := ExtraErrors(actual, ExpectedSet(expected));
    if extra == [] {
      forall x | x in ActualSet(actual) ensures x in ExpectedSet(expected) {
        var h :| h in actual && Lower(Trim(h)) == x;
        assert Lower(Trim(h)) !in ExpectedSet(expected) ==> ExtraHeaderError(h) in extra;
      }
    } else {
      assert extra[0] in extra;
    }
  }

  /** The data records among the events, in order. */
  function Records(events: seq<CsvEvent>): (ds: seq<Data>)
    ensures |ds| <= |events|
  {
    if events == [] then []
    else
      var rest := Records(events[..|events| - 1]);
      match events[|events| - 1]
      case Record(_, data) => rest + [data]
      case StreamError(_) => rest
  }

  function ParseErrorAt(row: int, message: string): IngestionError {
    IngestionError(row, "", ParseError, "CSV parse error: " + message)
  }

  /** One PARSE_ERROR per stream error, at one past the number of records seen before it. */
  function StreamErrors(events: seq<CsvEvent>): (errs: seq<IngestionError>)
    ensures forall e | e in errs :: e.code == ParseError && e.row >= 1
  {
    if events == [] then []
    else
      var prefix := events[..|events| - 1];
      var rest := StreamErrors(prefix);
      match events[|events| - 1]
      case Record(_, _) => rest
      case StreamError(m) => rest + [ParseErrorAt(|Records(prefix)| + 1, m)]
  }

  /** The rows numbered 1, 2, 3, ... in input order. */
  function Numbered(ds: seq<Data>): (rows: seq<ParsedRow>)
    ensures |rows| == |ds|
    ensures forall k | 0 <= k < |ds| :: rows[k] == ParsedRow(k + 1, ds[k])
  {
    seq(|ds|, k requires 0 <= k < |ds| => ParsedRow(k + 1, ds[k]))
  }

  /** The position of the first data record, if any. */
  function FirstRecord(events: seq<CsvEvent>): (r: Option<nat>)
    ensures r.Some? ==> r.value < |events| && events[r.value].Record?
                        && forall j | 0 <= j < r.value :: events[j].StreamError?
    ensures r.None? ==> forall j | 0 <= j < |events| :: events[j].StreamError?
  {
    if events == [] then None
    else if events[0].Record? then Some(0)
    else match FirstRecord(events[1..])
         case None => None
         case Some(k) => Some(k + 1)
  }

  /**
   * What `parseCsv` resolves with. Headers are checked on the first data record
   * only; if they fail, no row is kept and the header errors follow the stream
   * errors seen so far; otherwise every record becomes a numbered row.
   */
  function ParseSpec(events: seq<CsvEvent>, expected: seq<string>): CsvParseResult {
    match FirstRecord(events)
    case None => CsvParseResult([], StreamErrors(events))
    case Some(k) =>
      var headerErrors := ValidateHeaders(events[k].keys, expected);
      if headerErrors != [] then CsvParseResult([], StreamErrors(events[..k]) + headerErrors)
      else CsvParseResult(Numbered(Records(events)), StreamErrors(events))
  }

  lemma FirstRecordOfPrefix(events: seq<CsvEvent>, i: nat, k: nat)
    requires i <= |events| && FirstRecord(events[..i]) == Some(k)
    ensures FirstRecord(events) == Some(k)
  {
    forall j | 0 <= j < k ensures events[j].StreamError? {
      assert events[..i][j] == events[j];
    }
    assert events[..i][k] == events[k];
    FirstRecordIs(events, k);
  }

  /** The first record of the file sits at `i` when no record precedes it. */
  lemma FirstRecordHere(events: seq<CsvEvent>, i: nat)
    requires i < |events| && events[i].Record? && FirstRecord(events[..i]).None?
    ensures FirstRecord(events[..i + 1]) == Some(i) && FirstRecord(events) == Some(i)
  {
    var p := events[..i + 1];
    forall j | 0 <= j < i ensures events[j].StreamError? && p[j].StreamError? {
      assert events[..i][j] == events[j] == p[j];
    }
    FirstRecordIs(events, i);
    FirstRecordIs(p, i);
  }

  /** A record with only stream errors before it is the first record. */
  lemma {:induction false} FirstRecordIs(events: seq<CsvEvent>, k: nat)
    requires k < |events| && events[k].Record?
    requires forall j | 0 <= j < k :: events[j].StreamError?
    ensures FirstRecord(events) == Some(k)
  {
    if k > 0 {
      var rest := events[1..];
      forall j | 0 <= j < k - 1 ensures rest[j].StreamError? {
        assert rest[j] == events[j + 1];
      }
      FirstRecordIs(rest, k - 1);
    }
  }

  lemma NoRecordPrefix(events: seq<CsvEvent>, i: nat)
    requires i <= |events| && FirstRecord(events[..i]) == None
    ensures Records(events[..i]) == []
    decreases i
  {
    if i > 0 {
      assert events[..i][..i - 1] == events[..i - 1];
      assert events[..i][i - 1] == events[i - 1];
      NoRecordPrefix(events, i - 1);
    }
  }

  lemma NumberedSnoc(ds: seq<Data>, d: Data)
    ensures Numbered(ds + [d]) == Numbered(ds) + [ParsedRow(|ds| + 1, d)]
  {
  }

  /** How the spec functions grow by a data record. */
  lemma StepRecord(events: seq<CsvEvent>, i: nat)
    requires i < |events| && events[i].Record?
    ensures Records(events[..i + 1]) == Records(events[..i]) + [events[i].data]
    ensures Numbered(Records(events[..i + 1])) == Numbered(Records(events[..i])) + [ParsedRow(|Records(events[..i])| + 1, events[i].data)]
    ensures StreamErrors(events[..i + 1]) == StreamErrors(events[..i])
    ensures FirstRecord(events[..i]).Some? ==> FirstRecord(events[..i + 1]) == FirstRecord(events[..i])
    ensures FirstRecord(events[..i]).None? ==> FirstRecord(events[..i + 1]) == Some(i)
  {
    var p := events[..i + 1];
    assert p[..i] == events[..i];
    NumberedSnoc(Records(events[..i]), events[i].data);
    if FirstRecord(events[..i]).Some? {
      FirstRecordOfPrefix(p, i, FirstRecord(events[..i]).value);
    } else {
      FirstRecordHere(events, i);
    }
  }

  /** How the spec functions grow by a stream error. */
  lemma StepError(events: seq<CsvEvent>, i: nat)
    requires i < |events| && events[i].StreamError?
    ensures Records(events[..i + 1]) == Records(events[..i])
    ensures StreamErrors(events[..i + 1]) == StreamErrors(events[..i]) + [ParseErrorAt(|Records(events[..i])| + 1, events[i].message)]
    ensures FirstRecord(events[..i + 1]).Some? <==> FirstRecord(events[..i]).Some?
    ensures FirstRecord(events[..i]).Some? ==> FirstRecord(events[..i + 1]) == FirstRecord(events[..i])
  {
    var p := events[..i + 1];
    assert p[..i] == events[..i];
    if FirstRecord(events[..i]).Some? {
      FirstRecordOfPrefix(p, i, FirstRecord(events[..i]).value);
    } else {
      forall j | 0 <= j < i + 1 ensures p[j].StreamError? {
        if j < i {
          assert p[j] == events[..i][j];
        }
      }
    }
  }

  /** The first record fails the header gate: parsing resolves with the stream errors so far plus the header errors. */
  lemma HeaderFailStep(events: seq<CsvEvent>, expected: seq<string>, i: nat)
    requires i < |events| && events[i].Record? && FirstRecord(events[..i]).None?
    requires ValidateHeaders(events[i].keys, expected) != []
    ensures ParseSpec(events, expected)
            == CsvParseResult([], StreamErrors(events[..i]) + ValidateHeaders(events[i].keys, expected))
  {
    assert events[..i + 1][i] == events[i];
    assert forall j | 0 <= j < i :: events[..i + 1][j] == events[..i][j];
    FirstRecordOfPrefix(events, i + 1, i);
  }

  /** A scan that got past the header gate resolves with every record numbered and every stream error. */
  lemma ScanFinished(events: seq<CsvEvent>, expected: seq<string>)
    requires FirstRecord(events).Some? ==> ValidateHeaders(events[FirstRecord(events).value].keys, expected) == []
    ensures ParseSpec(events, expected) == CsvParseResult(Numbered(Records(events)), StreamErrors(events))
  {
    if FirstRecord(events).None? {
      assert events[..|events|] == events;
      NoRecordPrefix(events, |events|);
    }
  }

  /**
   * `parseCsv`'s event handlers: the `data` handler validates the headers on the
   * first record and then numbers each record; the `error` handler adds a
   * PARSE_ERROR one past the rows accepted so far; `end` resolves.
   */
  method ParseCsv(events: seq<CsvEvent>, expected: seq<string>) returns (result: CsvParseResult)
    ensures result == ParseSpec(events, expected)
  {
    var rows: seq<ParsedRow> := [];
    var errors: seq<IngestionError> := [];
    var headerValidated := false;
    var rowNumber := 0;
    var i := 0;
    while i < |events|
      invariant Scanned(events, expected, i, rows, errors, headerValidated) && rowNumber == |rows|
      decreases |events| - i
    {
      ghost var rows0, errors0, validated0 := rows, errors, headerValidated;
      var event := events[i];
      if event.Record? {
        if !headerValidated {
          var headerErrors := ValidateHeaders(event.keys, expected);
          if |headerErrors| > 0 {
            HeaderFailStep(events, expected, i);
            errors := errors + headerErrors;
            return CsvParseResult([], errors);
          }
          headerValidated := true;
        }
        rowNumber := rowNumber + 1;
        rows := rows + [ParsedRow(rowNumber, event.data)];
        ScanRecord(events, expected, i, rows0, errors, validated0, rows);
      } else {
        errors := errors + [ParseErrorAt(rowNumber + 1, event.message)];
        ScanError(events, expected, i, rows, errors0, headerValidated, errors);
      }
      i := i + 1;
    }
    ScanDone(events, expected, rows, errors, headerValidated);
    return CsvParseResult(rows, errors);
  }

  /** The state of the scan after the first `i` events: what the spec functions give for that prefix. */
  ghost predicate Scanned(events: seq<CsvEvent>, expected: seq<string>, i: int,
                          rows: seq<ParsedRow>, errors: seq<IngestionError>, headerValidated: bool)
  {
    && 0 <= i <= |events|
    && (headerValidated <==> FirstRecord(events[..i]).Some?)
    && (headerValidated ==> ValidateHeaders(events[FirstRecord(events[..i]).value].keys, expected) == [])
    && rows == Numbered(Records(events[..i]))
    && errors == StreamErrors(events[..i])
  }

  /** A data record past a passed (or passing) header gate adds the next numbered row. */
  lemma ScanRecord(events: seq<CsvEvent>, expected: seq<string>, i: int,
                   rows: seq<ParsedRow>, errors: seq<IngestionError>, headerValidated: bool, next: seq<ParsedRow>)
    requires Scanned(events, expected, i, rows, errors, headerValidated) && i < |events| && events[i].Record?
    requires headerValidated || ValidateHeaders(events[i].keys, expected) == []
    requires next == rows + [ParsedRow(|rows| + 1, events[i].data)]
    ensures Scanned(events, expected, i + 1, next, errors, true)
  {
    StepRecord(events, i);
  }

  /** A stream error adds a PARSE_ERROR one past the rows so far. */
  lemma ScanError(events: seq<CsvEvent>, expected: seq<string>, i: int,
                  rows: seq<ParsedRow>, errors: seq<IngestionError>, headerValidated: bool, next: seq<IngestionError>)
    requires Scanned(events, expected, i, rows, errors, headerValidated) && i < |events| && events[i].StreamError?
    requires next == errors + [ParseErrorAt(|rows| + 1, events[i].message)]
    ensures Scanned(events, expected, i + 1, rows, next, headerValidated)
  {
    StepError(events, i);
    assert |rows| == |Records(events[..i])|;
    if headerValidated {
      assert FirstRecord(events[..i + 1]) == FirstRecord(events[..i]);
    }
  }

  /** A scan of every event resolves as the spec says. */
  lemma ScanDone(events: seq<CsvEvent>, expected: seq<string>,
                 rows: seq<ParsedRow>, errors: seq<IngestionError>, headerValidated: bool)
    requires Scanned(events, expected, |events|, rows, errors, headerValidated)
    ensures CsvParseResult(rows, errors) == ParseSpec(events, expected)
  {
    assert events[..|events|] == events;
    ScanFinished(events, expected);
  }

  /** Accepted rows are numbered 1, 2, 3, ... consecutively, one per data record, in input order. */
  lemma RowsNumberedConsecutively(events: seq<CsvEvent>, expected: seq<string>)
    ensures var r := ParseSpec(events, expected);
            r.rows != [] ==> |r.rows| == |Records(events)|
                             && forall k | 0 <= k < |r.rows| :: r.rows[k] == ParsedRow(k + 1, Records(events)[k])
  {
  }

  /** A file whose first record fails the header gate yields no rows and ends with exactly the header errors. */
  lemma HeaderFailureKeepsNoRows(events: seq<CsvEvent>, expected: seq<string>, k: nat)
    requires FirstRecord(events) == Some(k)
    requires ActualSet(events[k].keys) != ExpectedSet(expected)
    ensures var r := ParseSpec(events, expected);
            && r.rows == []
            && r.errors == StreamErrors(events[..k]) + ValidateHeaders(events[k].keys, expected)
            && forall e | e in StreamErrors(events[..k]) :: e.row == 1
  {
    ValidateHeadersEmptyIff(events[k].keys, expected);
    NoRecordPrefix(events, k);
    ParseErrorsBeforeAnyRecord(events[..k]);
  }

  /** Stream errors before any record are all reported at row 1. */
  lemma {:induction false} ParseErrorsBeforeAnyRecord(events: seq<CsvEvent>)
    requires forall j | 0 <= j < |events| :: events[j].StreamError?
    ensures forall e | e in StreamErrors(events) :: e.row == 1
  {
    if events != [] {
      var prefix := events[..|events| - 1];
      ParseErrorsBeforeAnyRecord(prefix);
      assert FirstRecord(prefix) == None;
      NoRecordPrefix(events, |events| - 1);
    }
  }

  /** Headers are only checked on the first data record: a file with no data records yields no rows and only stream errors. */
  lemma HeaderOnlyFileHasNoRows(events: seq<CsvEvent>, expected: seq<string>)
    requires forall j | 0 <= j < |events| :: events[j].StreamError?
    ensures ParseSpec(events, expected).rows == []
    ensures forall e | e in ParseSpec(events, expected).errors :: e.code == ParseError && e.row == 1
  {
    ParseErrorsBeforeAnyRecord(events);
  }

  // ----- the pending promise of a stream error -----

  predicate HasStreamError(events: seq<CsvEvent>) {
    exists i | 0 <= i < |events| :: events[i].StreamError?
  }

  /** The first event is a data record whose headers fail the gate: `parseCsv` resolves on it. */
  predicate HeaderRejectedFirst(events: seq<CsvEvent>, expected: seq<string>) {
    |events| > 0 && events[0].Record? && ValidateHeaders(events[0].keys, expected) != []
  }

  /**
   * What `parseCsv` settles with as written: `None` while its promise stays
   * pending. The header-failure branch resolves before anything else can
   * happen; otherwise a stream error means no `end`, hence no resolution.
   */
  function ParseOutcome(events: seq<CsvEvent>, expected: seq<string>): Option<CsvParseResult> {
    if HeaderRejectedFirst(events, expected) || !HasStreamError(events) then Some(ParseSpec(events, expected))
    else None
  }

  /**
   * As written: a file whose only event is a stream error (an unclosed quote,
   * say) leaves `parseCsv` pending, where the intended parser answers with
   * one PARSE_ERROR on row 1.
   */
  lemma LoneStreamErrorPending(message: string, expected: seq<string>)
    ensures ParseOutcome([StreamError(message)], expected) == None
    ensures ParseSpec([StreamError(message)], expected) == CsvParseResult([], [ParseErrorAt(1, message)])
  {
    var events := [StreamError(message)];
    assert events[0].StreamError?;
    assert events[1..] == [] && events[..|events| - 1] == [];
    assert FirstRecord(events) == None;
    assert StreamErrors(events) == [ParseErrorAt(1, message)];
  }

  /** The PARSE_ERROR of the stream error at `i` is among those of every longer prefix. */
  lemma {:induction false} StreamErrorListed(events: seq<CsvEvent>, i: nat, j: nat)
    requires i < j <= |events| && events[i].StreamError?
    ensures ParseErrorAt(|Records(events[..i])| + 1, events[i].message) in StreamErrors(events[..j])
    decreases j
  {
    var p := events[..j];
    assert p[..j - 1] == events[..j - 1];
    assert p[j - 1] == events[j - 1];
    if j - 1 > i {
      StreamErrorListed(events, i, j - 1);
    }
  }

  /** The errors of the intended parse: those of the prefix before a failing header record, else all stream errors. */
  lemma ParseSpecErrors(events: seq<CsvEvent>, expected: seq<string>)
    ensures var first := FirstRecord(events);
            ParseSpec(events, expected).errors
            == if first.Some? && ValidateHeaders(events[first.value].keys, expected) != []
               then StreamErrors(events[..first.value]) + ValidateHeaders(events[first.value].keys, expected)
               else StreamErrors(events)
  {
  }

  /**
   * In the intended parser every stream error met before a header failure is
   * reported, one past the records seen before it.
   */
  lemma EveryStreamErrorReported(events: seq<CsvEvent>, expected: seq<string>, i: nat)
    requires i < |events| && events[i].StreamError?
    requires FirstRecord(events).Some? && FirstRecord(events).value < i
             ==> ValidateHeaders(events[FirstRecord(events).value].keys, expected) == []
    ensures ParseErrorAt(|Records(events[..i])| + 1, events[i].message) in ParseSpec(events, expected).errors
  {
    ParseSpecErrors(events, expected);
    var first := FirstRecord(events);
    if first.Some? && ValidateHeaders(events[first.value].keys, expected) != [] {
      var k := first.value;
      assert events[k].Record? && k != i;
      StreamErrorListed(events, i, k);
    } else {
      assert events[..|events|] == events;
      StreamErrorListed(events, i, |events|);
    }
  }

  /**
   * A parse that stays pending as written is one the intended parser answers
   * with at least one PARSE_ERROR: the pending outcome replaces a reported
   * error.
   */
  lemma PendingParseHadErrors(events: seq<CsvEvent>, expected: seq<string>)
    requires ParseOutcome(events, expected).None?
    ensures exists e | e in ParseSpec(events, expected).errors :: e.code == ParseError && e.row >= 1
  {
    var i :| 0 <= i < |events| && events[i].StreamError?;
    if events[0].StreamError? {
      i := 0;
    }
    EveryStreamErrorReported(events, expected, i);
    var e := ParseErrorAt(|Records(events[..i])| + 1, events[i].message);
    assert e in ParseSpec(events, expected).errors && e.code == ParseError && e.row >= 1;
  }
}
