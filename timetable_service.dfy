/**
 * The timetable service of backend/src/services/timetable.service.ts: before
 * an entry is created or updated, its references must exist, and it must
 * not overlap an existing entry of the same class, room or teacher on the
 * same day. Stored entries are the `"Timetable"` documents of the store;
 * `findOne` returns the first matching document in store order.
 */
module TimetableService {

  import opened Wrappers
  import opened Text
  import opened IngestionTypes
  import opened CommonSchema
  import opened RelationResolver
  import TimetableOverlaps

  const TimetableModel: string := "Timetable"

  /** `TIMETABLE_REFS`: each reference field and the model it points into. */
  const TimetableRefs: seq<RefCheck> := [
    RefCheck("class_id", "Class", false),
    RefCheck("teacher_id", "Teacher", false),
    RefCheck("subject_id", "Subject", false),
    RefCheck("room_id", "Room", false)
  ]

  /** A request body field is truthy: present and not the empty string. */
  predicate Truthy(data: Data, field: string) {
    field in data && data[field] != ""
  }

  /** A stored entry holds `value` in `field`. */
  predicate Holds(e: Doc, field: string, value: string) {
    field in e.fields && e.fields[field] == value
  }

  /**
   * `baseFilter`: the same day, starting before the new entry ends and
   * ending after it starts (string comparison), and, when an id to exclude
   * is given and non-empty, not that entry.
   */
  predicate InSlot(e: Doc, data: Data, excludeId: Option<string>)
    requires Truthy(data, "day_of_week") && Truthy(data, "start_time") && Truthy(data, "end_time")
  {
    && Holds(e, "day_of_week", data["day_of_week"])
    && "start_time" in e.fields && LexLess(e.fields["start_time"], data["end_time"])
    && "end_time" in e.fields && LexLess(data["start_time"], e.fields["end_time"])
    && !(excludeId.Some? && excludeId.value != "" && e.id == excludeId.value)
  }

  /** `Timetable.findOne({ ...baseFilter, [field]: data[field] })`. */
  function FindOne(docs: seq<Doc>, data: Data, excludeId: Option<string>, field: string): (r: Option<Doc>)
    requires Truthy(data, "day_of_week") && Truthy(data, "start_time") && Truthy(data, "end_time")
    requires field in data
    ensures r.Some? ==> r.value in docs && InSlot(r.value, data, excludeId) && Holds(r.value, field, data[field])
    ensures r.None? ==> forall e | e in docs :: !(InSlot(e, data, excludeId) && Holds(e, field, data[field]))
  {
    if docs == [] then None
    else if InSlot(docs[0], data, excludeId) && Holds(docs[0], field, data[field]) then Some(docs[0])
    else FindOne(docs[1..], data, excludeId, field)
  }

  /** The three resources a conflict can be about, in the order they are checked. */
  datatype Resource = ClassResource | RoomResource | TeacherResource

  function ResourceField(r: Resource): string {
    match r
    case ClassResource => "class_id"
    case RoomResource => "room_id"
    case TeacherResource => "teacher_id"
  }

  /** The 409 `checkOverlaps` throws: which resource, the entry it clashes with, and the message. */
  datatype Conflict = Conflict(resource: Resource, entry: Doc, message: string)

  const ClassClashText: string := "Time slot overlaps with existing class entry"
  const RoomClashText: string := "Room is double-booked"
  const TeacherClashText: string := "Teacher is double-booked"

  function ConflictMessage(r: Resource, day: string, e: Doc): string {
    var slot := " on " + day + " (" + FieldText(e, "start_time") + "–" + FieldText(e, "end_time") + ")";
    match r
    case ClassResource => ClassClashText + slot
    case RoomResource => RoomClashText + slot
    case TeacherResource => TeacherClashText + slot
  }

  /** The lookup for one resource, skipped when the body's id for it is not truthy. */
  function CheckResource(docs: seq<Doc>, data: Data, excludeId: Option<string>, r: Resource): Option<Conflict>
    requires Truthy(data, "day_of_week") && Truthy(data, "start_time") && Truthy(data, "end_time")
  {
    if !Truthy(data, ResourceField(r)) then None
    else
      match FindOne(docs, data, excludeId, ResourceField(r))
      case None => None
      case Some(e) => Some(Conflict(r, e, ConflictMessage(r, data["day_of_week"], e)))
  }

  /** `checkOverlaps`: nothing without a day, start and end; otherwise class, room and teacher in turn, the first conflict thrown. */
  function CheckOverlapsSpec(data: Data, excludeId: Option<string>, store: Store): Option<Conflict> {
    if !Truthy(data, "day_of_week") || !Truthy(data, "start_time") || !Truthy(data, "end_time") then None
    else
      var docs := DocsOf(store, TimetableModel);
      var byClass := CheckResource(docs, data, excludeId, ClassResource);
      if byClass.Some? then byClass
      else
        var byRoom := CheckResource(docs, data, excludeId, RoomResource);
        if byRoom.Some? then byRoom
        else CheckResource(docs, data, excludeId, TeacherResource)
  }

  /** `checkOverlaps` as the sequence of lookups that exits on the first conflict. */
  method CheckOverlaps(data: Data, excludeId: Option<string>, store: Store) returns (conflict: Option<Conflict>)
    ensures conflict == CheckOverlapsSpec(data, excludeId, store)
  {
    if !Truthy(data, "day_of_week") || !Truthy(data, "start_time") || !Truthy(data, "end_time") {
      return None;
    }
    var docs := DocsOf(store, TimetableModel);
    conflict := CheckResource(docs, data, excludeId, ClassResource);
    if conflict.Some? {
      return;
    }
    conflict := CheckResource(docs, data, excludeId, RoomResource);
    if conflict.Some? {
      return;
    }
    conflict := CheckResource(docs, data, excludeId, TeacherResource);
  }

  /** What a create or update leads to. */
  datatype ServiceError =
    | BadReferences(errors: seq<FieldError>)
    | Overlap(conflict: Conflict)
    | NotFound

  datatype Outcome = Written(store: Store, entry: Doc) | Refused(error: ServiceError)

  /** The request body's references, as `validateRefs` reads them: every field holds one id. */
  function AsRefs(data: Data): map<string, RefValue> {
    map k | k in data :: RefId(data[k])
  }

  /** `create`: references, then overlaps, then the insert, as a new entry with id `newId`. */
  function CreateSpec(data: Data, store: Store, newId: string): Outcome {
    match ValidateRefs(AsRefs(data), TimetableRefs, store)
    case Some(errors) => Refused(BadReferences(errors))
    case None =>
      match CheckOverlapsSpec(data, None, store)
      case Some(c) => Refused(Overlap(c))
      case None =>
        var entry := Doc(newId, data);
        Written(store[TimetableModel := DocsOf(store, TimetableModel) + [entry]], entry)
  }

  /** The position of the entry with id `id`, if any. */
  function IndexOfId(docs: seq<Doc>, id: string): (r: Option<nat>)
    ensures r.Some? ==> r.value < |docs| && docs[r.value].id == id
    ensures r.None? ==> forall e | e in docs :: e.id != id
  {
    if docs == [] then None
    else if docs[|docs| - 1].id == id then Some(|docs| - 1)
    else IndexOfId(docs[..|docs| - 1], id)
  }

  /** The fields of a stored entry after `findByIdAndUpdate` sets the body's fields. */
  function Merge(fields: Data, data: Data): (r: Data)
    ensures r.Keys == fields.Keys + data.Keys
    ensures forall k | k in data :: r[k] == data[k]
    ensures forall k | k in fields && k !in data :: r[k] == fields[k]
  {
    map k | k in fields.Keys + data.Keys :: if k in data then data[k] else fields[k]
  }

  /** `update`: references, then overlaps excluding the entry itself, then the update, or 404 when no entry has the id. */
  function UpdateSpec(id: string, data: Data, store: Store): Outcome {
    match ValidateRefs(AsRefs(data), TimetableRefs, store)
    case Some(errors) => Refused(BadReferences(errors))
    case None =>
      match CheckOverlapsSpec(data, Some(id), store)
      case Some(c) => Refused(Overlap(c))
      case None =>
        var docs := DocsOf(store, TimetableModel);
        match IndexOfId(docs, id)
        case None => Refused(NotFound)
        case Some(k) =>
          var entry := Doc(id, Merge(docs[k].fields, data));
          Written(store[TimetableModel := docs[k := entry]], entry)
  }

  // ----- properties -----

  /** Without a truthy day, start and end in the body there is no overlap check, whatever is stored. */
  lemma PartialBodyIsNotChecked(data: Data, excludeId: Option<string>, store: Store)
    requires !Truthy(data, "day_of_week") || !Truthy(data, "start_time") || !Truthy(data, "end_time")
    ensures CheckOverlapsSpec(data, excludeId, store).None?
  {
  }

  /** An existing entry clashes with the body on a resource: the body names it, the entry holds it, and the slots overlap. */
  predicate ClashesOn(e: Doc, data: Data, excludeId: Option<string>, r: Resource)
    requires Truthy(data, "day_of_week") && Truthy(data, "start_time") && Truthy(data, "end_time")
  {
    Truthy(data, ResourceField(r)) && InSlot(e, data, excludeId) && Holds(e, ResourceField(r), data[ResourceField(r)])
  }

  /**
   * With a day, start and end in the body, a conflict is reported exactly
   * when some stored entry clashes with it on the class, the room or the
   * teacher; what is reported is such a clash.
   */
  lemma ConflictIffClash(data: Data, excludeId: Option<string>, store: Store)
    requires Truthy(data, "day_of_week") && Truthy(data, "start_time") && Truthy(data, "end_time")
    ensures var c := CheckOverlapsSpec(data, excludeId, store);
            c.Some? <==> exists e, r | e in DocsOf(store, TimetableModel) :: ClashesOn(e, data, excludeId, r)
    ensures var c := CheckOverlapsSpec(data, excludeId, store);
            c.Some? ==> c.value.entry in DocsOf(store, TimetableModel) && ClashesOn(c.value.entry, data, excludeId, c.value.resource)
  {
    var docs := DocsOf(store, TimetableModel);
    if CheckOverlapsSpec(data, excludeId, store).None? {
      forall e, r | e in docs ensures !ClashesOn(e, data, excludeId, r) {
        assert CheckResource(docs, data, excludeId, r).None?;
      }
    } else {
      var c := CheckOverlapsSpec(data, excludeId, store).value;
      assert ClashesOn(c.entry, data, excludeId, c.resource);
    }
  }

  /**
   * Class comes first, then room, then teacher: a reported room conflict
   * means no class clash exists, a reported teacher conflict means no class
   * or room clash exists.
   */
  lemma FirstConflictWins(data: Data, excludeId: Option<string>, store: Store, e: Doc)
    requires Truthy(data, "day_of_week") && Truthy(data, "start_time") && Truthy(data, "end_time")
    requires e in DocsOf(store, TimetableModel)
    ensures var c := CheckOverlapsSpec(data, excludeId, store);
            && (ClashesOn(e, data, excludeId, ClassResource) ==> c.Some? && c.value.resource == ClassResource)
            && (c.Some? && c.value.resource != ClassResource ==> !ClashesOn(e, data, excludeId, ClassResource))
            && (c.Some? && c.value.resource == TeacherResource ==> !ClashesOn(e, data, excludeId, RoomResource))
  {
  }

  /** On update, the entry being updated is never its own conflict. */
  lemma UpdateNeverClashesWithItself(data: Data, id: string, store: Store)
    requires id != ""
    ensures var c := CheckOverlapsSpec(data, Some(id), store);
            c.Some? ==> c.value.entry.id != id
  {
    if Truthy(data, "day_of_week") && Truthy(data, "start_time") && Truthy(data, "end_time") {
      ConflictIffClash(data, Some(id), store);
    }
  }

  /** Back-to-back entries, one ending when the other starts, do not clash. */
  lemma BackToBackDoesNotClash(data: Data, e: Doc, excludeId: Option<string>)
    requires Truthy(data, "day_of_week") && Truthy(data, "start_time") && Truthy(data, "end_time")
    requires "end_time" in e.fields && e.fields["end_time"] == data["start_time"]
    ensures !InSlot(e, data, excludeId)
  {
    LexLessIrreflexive(data["start_time"]);
  }

  /**
   * For `HH:mm` times the string test of the filter is the test the import
   * uses on minutes: the two intervals share a minute of the day.
   */
  lemma SlotTestIsMinuteIntersection(data: Data, e: Doc, excludeId: Option<string>)
    requires Truthy(data, "day_of_week") && Truthy(data, "start_time") && Truthy(data, "end_time")
    requires "start_time" in e.fields && "end_time" in e.fields
    requires IsTime(data["start_time"]) && IsTime(data["end_time"]) && LexLess(data["start_time"], data["end_time"])
    requires IsTime(e.fields["start_time"]) && IsTime(e.fields["end_time"]) && LexLess(e.fields["start_time"], e.fields["end_time"])
    requires Holds(e, "day_of_week", data["day_of_week"]) && !(excludeId.Some? && excludeId.value != "" && e.id == excludeId.value)
    ensures InSlot(e, data, excludeId) <==>
              TimetableOverlaps.Intersect(TimetableOverlaps.Slot(0, data["start_time"], data["end_time"]),
                                          TimetableOverlaps.Slot(1, e.fields["start_time"], e.fields["end_time"]))
  {
    TimeOrderIsChronological(e.fields["start_time"], data["end_time"]);
    TimeOrderIsChronological(data["start_time"], e.fields["end_time"]);
  }

  /** A create writes exactly when the references exist and there is no conflict, and then adds one entry holding the body. */
  lemma CreateWritesIffChecksPass(data: Data, store: Store, newId: string)
    ensures CreateSpec(data, store, newId).Written? <==>
              ValidateRefs(AsRefs(data), TimetableRefs, store).None? && CheckOverlapsSpec(data, None, store).None?
    ensures var o := CreateSpec(data, store, newId);
            o.Written? ==> o.store[TimetableModel] == DocsOf(store, TimetableModel) + [Doc(newId, data)]
                           && (forall m | m in store && m != TimetableModel :: m in o.store && o.store[m] == store[m])
  {
  }

  /** A reference check failure is reported before any overlap check. */
  lemma BadReferencesReportedFirst(data: Data, store: Store, newId: string, id: string)
    requires ValidateRefs(AsRefs(data), TimetableRefs, store).Some?
    ensures CreateSpec(data, store, newId).Refused? && CreateSpec(data, store, newId).error.BadReferences?
    ensures UpdateSpec(id, data, store).Refused? && UpdateSpec(id, data, store).error.BadReferences?
  {
  }

  /**
   * An update that passes both checks sets the body's fields on the entry
   * with that id and leaves its other fields and every other entry alone;
   * without such an entry it answers 404.
   */
  lemma UpdateSetsFields(id: string, data: Data, store: Store)
    requires ValidateRefs(AsRefs(data), TimetableRefs, store).None? && CheckOverlapsSpec(data, Some(id), store).None?
    ensures var o := UpdateSpec(id, data, store);
            var docs := DocsOf(store, TimetableModel);
            && (o.Refused? <==> forall e | e in docs :: e.id != id)
            && (o.Written? ==> o.entry.id == id && (forall k | k in data :: k in o.entry.fields && o.entry.fields[k] == data[k])
                               && |o.store[TimetableModel]| == |docs|
                               && (forall k | 0 <= k < |docs| && docs[k].id != id :: o.store[TimetableModel][k] == docs[k]))
  {
  }
}
