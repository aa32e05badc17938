/**
 * The request-body schemas of backend/src/schemas/timetable.schema.ts as
 * predicates over a body whose fields are strings: the create schema requires
 * every field and a start before the end; the update schema makes every field
 * optional and has no cross-field rule.
 */
module TimetableSchema {

  import opened Wrappers
  import opened Text
  import opened IngestionTypes
  import opened CommonSchema
  import opened RowValidator

  /** `DAYS_OF_WEEK`: Monday to Saturday. */
  const DaysOfWeek: seq<string> := ["Monday", "Tuesday", "Wednesday", "Thursday", "Friday", "Saturday"]

  /** The four reference fields of a timetable entry. */
  const RefFields: seq<string> := ["class_id", "teacher_id", "subject_id", "room_id"]

  type Body = map<string, string>

  predicate FieldOk(body: Body, field: string, ok: string -> bool) {
    field in body && ok(body[field])
  }

  predicate OptionalFieldOk(body: Body, field: string, ok: string -> bool) {
    field in body ==> ok(body[field])
  }

  predicate IsDay(s: string) {
    s in DaysOfWeek
  }

  /** Every field of the create schema, each on its own. */
  predicate CreateFieldsOk(body: Body) {
    && (forall f | f in RefFields :: FieldOk(body, f, IsObjectId))
    && FieldOk(body, "day_of_week", IsDay)
    && FieldOk(body, "start_time", IsTime)
    && FieldOk(body, "end_time", IsTime)
  }

  /** `createTimetableSchema`: all fields valid and `start_time < end_time` as strings. */
  predicate CreateOk(body: Body) {
    CreateFieldsOk(body) && LexLess(body["start_time"], body["end_time"])
  }

  /** `updateTimetableSchema`: each field, when present, valid on its own. */
  predicate UpdateOk(body: Body) {
    && (forall f | f in RefFields :: OptionalFieldOk(body, f, IsObjectId))
    && OptionalFieldOk(body, "day_of_week", IsDay)
    && OptionalFieldOk(body, "start_time", IsTime)
    && OptionalFieldOk(body, "end_time", IsTime)
  }

  /**
   * The issue the cross-field refinement of the create schema reports: once
   * the fields are valid, a start not before the end is reported on `end_time`.
   */
  function TimeOrderIssue(body: Body): (r: Option<Issue>)
    requires CreateFieldsOk(body)
    ensures r.None? <==> CreateOk(body)
    ensures r.Some? ==> r.value.path == ["end_time"] && r.value.code == "custom"
  {
    if LexLess(body["start_time"], body["end_time"]) then None
    else Some(Issue("custom", ["end_time"], "start_time must be before end_time"))
  }

  /** The refinement's issue becomes an INVALID_FORMAT error on column `end_time`. */
  lemma TimeOrderIssueIsFormatError(body: Body, rowNumber: int)
    requires CreateFieldsOk(body) && !CreateOk(body)
    ensures var errs := IssuesToErrors([TimeOrderIssue(body).value], rowNumber);
            errs[0].column == "end_time" && errs[0].code == InvalidFormat && errs[0].row == rowNumber
  {
    var errs := IssuesToErrors([TimeOrderIssue(body).value], rowNumber);
    assert errs[0].column == Join(["end_time"], '.');
  }

  /** An accepted create body has four ObjectIds, a weekday from Monday to Saturday, and a start strictly earlier than its end. */
  lemma CreateAccepted(body: Body)
    requires CreateOk(body)
    ensures forall f | f in RefFields :: f in body && IsObjectId(body[f])
    ensures body["day_of_week"] != "Sunday"
    ensures Minutes(body["start_time"]) < Minutes(body["end_time"])
  {
    TimeOrderIsChronological(body["start_time"], body["end_time"]);
  }

  /** Every body the create schema accepts the update schema accepts too. */
  lemma CreateImpliesUpdate(body: Body)
    requires CreateOk(body)
    ensures UpdateOk(body)
  {
  }

  /** The update schema has no start-before-end rule: it accepts an end before the start. */
  lemma UpdateAllowsInvertedTimes()
    ensures var body := map["start_time" := "10:00", "end_time" := "09:00"];
            UpdateOk(body) && !LexLess(body["start_time"], body["end_time"])
  {
    var body := map["start_time" := "10:00", "end_time" := "09:00"];
    assert "10:00"[0] == '1' && "09:00"[0] == '0';
  }
}
