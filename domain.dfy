/**
 * The ownership tables of backend/src/config/domain.ts: the collections,
 * what each role may do with each, which collections the admin panel owns
 * and which it may only read, the references between collections, and the
 * collections an import needs to be non-empty.
 */
module Domain {

  import opened Wrappers
  import opened Text
  import opened IngestionTypes
  import opened EntityConfigs

  /** `COLLECTIONS`. */
  datatype Collection =
    | Users | AuthAccounts | Students | Teachers | Classes | Subjects | Rooms | Timetable | Sessions | Attendance | UploadJobs

  function CollectionName(c: Collection): string {
    match c
    case Users => "users"
    case AuthAccounts => "auth_accounts"
    case Students => "students"
    case Teachers => "teachers"
    case Classes => "classes"
    case Subjects => "subjects"
    case Rooms => "rooms"
    case Timetable => "timetable"
    case Sessions => "sessions"
    case Attendance => "attendance"
    case UploadJobs => "upload_jobs"
  }

  /** The collection a name denotes, if any. */
  function ParseCollection(s: string): (r: Option<Collection>)
    ensures r.Some? ==> CollectionName(r.value) == s
    ensures r.None? ==> forall c: Collection :: CollectionName(c) != s
  {
    if s == "users" then Some(Users)
    else if s == "auth_accounts" then Some(AuthAccounts)
    else if s == "students" then Some(Students)
    else if s == "teachers" then Some(Teachers)
    else if s == "classes" then Some(Classes)
    else if s == "subjects" then Some(Subjects)
    else if s == "rooms" then Some(Rooms)
    else if s == "timetable" then Some(Timetable)
    else if s == "sessions" then Some(Sessions)
    else if s == "attendance" then Some(Attendance)
    else if s == "upload_jobs" then Some(UploadJobs)
    else None
  }

  datatype Permission = Create | Read | Update | Delete

  datatype OwnershipEntry = OwnershipEntry(collection: Collection, admin: seq<Permission>, teacher: seq<Permission>, student: seq<Permission>)

  const AllPermissions: seq<Permission> := [Create, Read, Update, Delete]

  /** `OWNERSHIP_MATRIX`. */
  const OwnershipMatrix: seq<OwnershipEntry> := [
    OwnershipEntry(Users, AllPermissions, [Read], [Read]),
    OwnershipEntry(AuthAccounts, AllPermissions, [], []),
    OwnershipEntry(Students, AllPermissions, [Read], [Read]),
    OwnershipEntry(Teachers, AllPermissions, [Read], []),
    OwnershipEntry(Classes, AllPermissions, [Read], [Read]),
    OwnershipEntry(Subjects, AllPermissions, [Read], [Read]),
    OwnershipEntry(Rooms, AllPermissions, [Read], []),
    OwnershipEntry(Timetable, AllPermissions, [Read], [Read]),
    OwnershipEntry(Sessions, [Read], [Create, Read, Update], [Read]),
    OwnershipEntry(Attendance, [Read], [Read], [Create, Read]),
    OwnershipEntry(UploadJobs, [Create, Read], [], [])
  ]

  /** `ADMIN_OWNED_COLLECTIONS`. */
  const AdminOwned: seq<Collection> := [Students, Teachers, Classes, Subjects, Rooms, Timetable]

  /** `ADMIN_READONLY_COLLECTIONS`. */
  const AdminReadonly: seq<Collection> := [Sessions, Attendance]

  /** `RELATION_MAP`: for each collection with references, each reference field and the collection it points into. */
  const RelationMap: seq<(Collection, seq<(string, Collection)>)> := [
    (AuthAccounts, [("userId", Users)]),
    (Students, [("userId", Users), ("class_id", Classes)]),
    (Teachers, [("userId", Users)]),
    (Timetable, [("class_id", Classes), ("teacher_id", Teachers), ("subject_id", Subjects), ("room_id", Rooms)]),
    (Sessions, [("timetable_id", Timetable)]),
    (Attendance, [("session_id", Sessions), ("student_id", Students)])
  ]

  /** `IMPORT_PRECONDITIONS`. */
  function ImportPreconditions(t: EntityType): seq<Collection> {
    match t
    case ClassImport => []
    case SubjectImport => []
    case RoomImport => []
    case StudentImport => [Classes]
    case TeacherImport => []
    case TimetableImport => [Classes, Teachers, Subjects, Rooms]
  }

  /** `ADMIN_OWNED.join(', ')`. */
  const AdminOwnedText: string := "students, teachers, classes, subjects, rooms, timetable"

  const ViolationPrefix: string := "[DOMAIN VIOLATION] Collection '"
  const ViolationMiddle: string := "' is NOT admin-owned. Mutation forbidden. Admin-owned: "

  /** `assertAdminOwned`: the message of the error it throws, or nothing when it returns. */
  function AssertAdminOwned(collection: string): (r: Option<string>)
    ensures r.Some? ==> r.value == ViolationPrefix + collection + ViolationMiddle + AdminOwnedText
  {
    if exists k | 0 <= k < |AdminOwned| :: CollectionName(AdminOwned[k]) == collection then None
    else Some(ViolationPrefix + collection + ViolationMiddle + AdminOwnedText)
  }

  /** `isAdminReadonly`. */
  predicate IsAdminReadonly(collection: string) {
    exists k | 0 <= k < |AdminReadonly| :: CollectionName(AdminReadonly[k]) == collection
  }

  // ----- properties -----

  /** No collection is both owned and read-only for the admin panel. */
  lemma OwnedAndReadonlyDisjoint()
    ensures forall c | c in AdminOwned :: c !in AdminReadonly
  {
  }

  /** `assertAdminOwned` returns exactly for the names of the six owned collections. */
  lemma AssertAdminOwnedIff(collection: string)
    ensures AssertAdminOwned(collection).None? <==>
              collection in {"students", "teachers", "classes", "subjects", "rooms", "timetable"}
  {
    if collection == "students" {
      assert CollectionName(AdminOwned[0]) == collection;
    } else if collection == "teachers" {
      assert CollectionName(AdminOwned[1]) == collection;
    } else if collection == "classes" {
      assert CollectionName(AdminOwned[2]) == collection;
    } else if collection == "subjects" {
      assert CollectionName(AdminOwned[3]) == collection;
    } else if collection == "rooms" {
      assert CollectionName(AdminOwned[4]) == collection;
    } else if collection == "timetable" {
      assert CollectionName(AdminOwned[5]) == collection;
    }
  }

  /** `isAdminReadonly` holds exactly for 'sessions' and 'attendance'. */
  lemma IsAdminReadonlyIff(collection: string)
    ensures IsAdminReadonly(collection) <==> collection == "sessions" || collection == "attendance"
  {
    if collection == "sessions" {
      assert CollectionName(AdminReadonly[0]) == collection;
    } else if collection == "attendance" {
      assert CollectionName(AdminReadonly[1]) == collection;
    }
  }

  /** The matrix row of each collection. */
  function MatrixRow(c: Collection): nat {
    match c
    case Users => 0 case AuthAccounts => 1 case Students => 2 case Teachers => 3 case Classes => 4
    case Subjects => 5 case Rooms => 6 case Timetable => 7 case Sessions => 8 case Attendance => 9
    case UploadJobs => 10
  }

  /** Every collection has exactly one row in the ownership matrix. */
  lemma MatrixCoversEachCollectionOnce()
    ensures forall c: Collection :: MatrixRow(c) < |OwnershipMatrix| && OwnershipMatrix[MatrixRow(c)].collection == c
    ensures forall i, j | 0 <= i < j < |OwnershipMatrix| :: OwnershipMatrix[i].collection != OwnershipMatrix[j].collection
  {
    forall i, j | 0 <= i < j < |OwnershipMatrix|
      ensures OwnershipMatrix[i].collection != OwnershipMatrix[j].collection
    {
      assert MatrixRow(OwnershipMatrix[i].collection) == i;
      assert MatrixRow(OwnershipMatrix[j].collection) == j;
    }
  }

  /**
   * The admin holds every permission on each collection it owns, and only
   * READ on the collections the running system writes (sessions, attendance).
   */
  lemma AdminPermissionsFollowOwnership()
    ensures forall k | 0 <= k < |OwnershipMatrix| && OwnershipMatrix[k].collection in AdminOwned ::
              forall p: Permission :: p in OwnershipMatrix[k].admin
    ensures forall k | 0 <= k < |OwnershipMatrix| && OwnershipMatrix[k].collection in AdminReadonly ::
              OwnershipMatrix[k].admin == [Read]
  {
    forall k, p: Permission | 0 <= k < |OwnershipMatrix| && OwnershipMatrix[k].collection in AdminOwned
      ensures p in OwnershipMatrix[k].admin
    {
      assert OwnershipMatrix[k].admin == AllPermissions;
      assert p == AllPermissions[0] || p == AllPermissions[1] || p == AllPermissions[2] || p == AllPermissions[3];
    }
  }

  /** The collection an import writes. */
  function ImportedCollection(t: EntityType): Collection {
    match t
    case ClassImport => Classes
    case SubjectImport => Subjects
    case RoomImport => Rooms
    case StudentImport => Students
    case TeacherImport => Teachers
    case TimetableImport => Timetable
  }

  /** The collection behind each model name an import config requires. */
  function ModelCollection(model: string): Option<Collection> {
    if model == "Class" then Some(Classes)
    else if model == "Teacher" then Some(Teachers)
    else if model == "Subject" then Some(Subjects)
    else if model == "Room" then Some(Rooms)
    else None
  }

  /** Every import writes an admin-owned collection. */
  lemma ImportsWriteOwnedCollections(t: EntityType)
    ensures ImportedCollection(t) in AdminOwned
    ensures AssertAdminOwned(CollectionName(ImportedCollection(t))).None?
  {
    AssertAdminOwnedIff(CollectionName(ImportedCollection(t)));
  }

  /**
   * An import requires exactly the collections its written collection
   * references, other than `users`, which the import creates itself: no
   * relation can point at a collection the import does not check first.
   */
  lemma PreconditionsAreReferencedCollections(t: EntityType)
    ensures var c := ImportedCollection(t);
            forall k | 0 <= k < |RelationMap| && RelationMap[k].0 == c ::
              forall r | r in RelationMap[k].1 && r.1 != Users :: r.1 in ImportPreconditions(t)
    ensures forall p | p in ImportPreconditions(t) ::
              exists k, r | 0 <= k < |RelationMap| && r in RelationMap[k].1 :: RelationMap[k].0 == ImportedCollection(t) && r.1 == p
  {
    forall k | 0 <= k < |RelationMap| && RelationMap[k].0 == ImportedCollection(t)
      ensures forall r | r in RelationMap[k].1 && r.1 != Users :: r.1 in ImportPreconditions(t)
    {
      ImportedRelationEntry(t, k);
    }
    forall p | p in ImportPreconditions(t)
      ensures exists k, r | 0 <= k < |RelationMap| && r in RelationMap[k].1 :: RelationMap[k].0 == ImportedCollection(t) && r.1 == p
    {
      var i :| 0 <= i < |ImportPreconditions(t)| && ImportPreconditions(t)[i] == p;
      var k := if t == StudentImport then 1 else 3;
      var j := if t == StudentImport then 1 else i;
      ReferenceOfPrecondition(t, i);
      assert RelationMap[k].1[j] in RelationMap[k].1;
    }
  }

  /** Only the student, teacher and timetable collections have an entry in the relation table among the imported ones. */
  lemma ImportedRelationEntry(t: EntityType, k: nat)
    requires k < |RelationMap| && RelationMap[k].0 == ImportedCollection(t)
    ensures (t == StudentImport && k == 1) || (t == TeacherImport && k == 2) || (t == TimetableImport && k == 3)
  {
  }

  /** The i-th precondition of an import is the target of a reference of its collection. */
  lemma ReferenceOfPrecondition(t: EntityType, i: nat)
    requires i < |ImportPreconditions(t)|
    ensures var k := if t == StudentImport then 1 else 3;
            var j := if t == StudentImport then 1 else i;
            j < |RelationMap[k].1| && RelationMap[k].0 == ImportedCollection(t)
            && RelationMap[k].1[j].1 == ImportPreconditions(t)[i]
  {
  }

  /** The import configs require the same collections as `IMPORT_PRECONDITIONS`, named by model. */
  lemma ConfigPreconditionsMatchDomain(t: EntityType)
    ensures var models := ConfigOf(t).preconditions;
            |models| == |ImportPreconditions(t)|
            && forall k | 0 <= k < |models| :: ModelCollection(models[k]) == Some(ImportPreconditions(t)[k])
  {
  }
}
