/**
 * The timetable overlap check of backend/src/ingestion/validators/consistency-checker.ts
 * (`checkTimetableOverlaps` and `findOverlaps`): rows are grouped by room and
 * day and by teacher and day; within a group the slots are sorted by start
 * time and every later slot that starts before an earlier one ends is a
 * conflict, reported on the later row.
 */
module TimetableOverlaps {

  import opened Text
  import opened IngestionTypes
  import opened CommonSchema

  /** One booking of a room or a teacher: its row and its times. */
  datatype Slot = Slot(rowNumber: int, start: string, end: string)

  /** A conflict: the earlier-sorted row and the row it is reported on. */
  datatype Overlap = Overlap(rowA: int, rowB: int)

  // ---------------------------------------------------------------------------
  // Sorting by start time
  // ---------------------------------------------------------------------------

  /** Inserting one slot after every slot whose start is not later than its own. */
  function InsertByStart(x: Slot, t: seq<Slot>): (r: seq<Slot>)
    ensures multiset(r) == multiset(t) + multiset{x}
    ensures |r| == |t| + 1
  {
    if t == [] || !LexLess(x.start, t[|t| - 1].start) then t + [x]
    else
      assert t == t[..|t| - 1] + [t[|t| - 1]];
      InsertByStart(x, t[..|t| - 1]) + [t[|t| - 1]]
  }

  /**
   * `[...slots].sort((a, b) => a.start.localeCompare(b.start))`: the
   * library's sort is stable, so slots with equal starts keep their order.
   */
  function SortByStart(slots: seq<Slot>): (r: seq<Slot>)
    ensures multiset(r) == multiset(slots)
    ensures |r| == |slots|
  {
    if slots == [] then []
    else
      assert slots == slots[..|slots| - 1] + [slots[|slots| - 1]];
      InsertByStart(slots[|slots| - 1], SortByStart(slots[..|slots| - 1]))
  }

  predicate SortedByStart(s: seq<Slot>) {
    forall i, j | 0 <= i < j < |s| :: !LexLess(s[j].start, s[i].start)
  }

  /** The slots of a sequence that start at `v`, in their order. */
  function StartingAt(s: seq<Slot>, v: string): seq<Slot> {
    if s == [] then []
    else StartingAt(s[..|s| - 1], v) + (if s[|s| - 1].start == v then [s[|s| - 1]] else [])
  }

  lemma {:induction false} InsertKeepsSorted(x: Slot, t: seq<Slot>)
    requires SortedByStart(t)
    ensures SortedByStart(InsertByStart(x, t))
  {
    if t != [] && LexLess(x.start, t[|t| - 1].start) {
      var prefix := t[..|t| - 1];
      var last := t[|t| - 1];
      SortedPrefix(t);
      InsertKeepsSorted(x, prefix);
      var r := InsertByStart(x, prefix);
      forall i | 0 <= i < |r| ensures !LexLess(last.start, r[i].start) {
        var e := r[i];
        assert e in multiset(r);
        if e == x {
          LexLessAsymmetric(x.start, last.start);
        } else {
          assert e in multiset(prefix);
          var k :| 0 <= k < |prefix| && prefix[k] == e;
          assert t[k] == e;
        }
      }
      SnocSorted(r, last);
    } else {
      forall i | 0 <= i < |t| ensures !LexLess(x.start, t[i].start) {
        if i < |t| - 1 {
          LexLeqTransitive(t[i].start, t[|t| - 1].start, x.start);
        }
      }
      SnocSorted(t, x);
    }
  }

  /** Dropping the last slot keeps the order. */
  lemma SortedPrefix(t: seq<Slot>)
    requires SortedByStart(t) && t != []
    ensures SortedByStart(t[..|t| - 1])
  {
    var prefix := t[..|t| - 1];
    forall i, j | 0 <= i < j < |prefix| ensures !LexLess(prefix[j].start, prefix[i].start) {
      assert prefix[i] == t[i] && prefix[j] == t[j];
    }
  }

  /** A slot starting no earlier than every slot of a sorted sequence can go after them. */
  lemma SnocSorted(r: seq<Slot>, y: Slot)
    requires SortedByStart(r)
    requires forall i | 0 <= i < |r| :: !LexLess(y.start, r[i].start)
    ensures SortedByStart(r + [y])
  {
    forall i, j | 0 <= i < j < |r| + 1 ensures !LexLess((r + [y])[j].start, (r + [y])[i].start) {
      if j < |r| {
        assert (r + [y])[j] == r[j] && (r + [y])[i] == r[i];
      }
    }
  }

  lemma StartingAtSnoc(s: seq<Slot>, e: Slot, v: string)
    ensures StartingAt(s + [e], v) == StartingAt(s, v) + (if e.start == v then [e] else [])
  {
    assert (s + [e])[..|s|] == s;
  }

  lemma {:induction false} InsertStable(x: Slot, t: seq<Slot>, v: string)
    requires SortedByStart(t)
    ensures StartingAt(InsertByStart(x, t), v) == StartingAt(t, v) + (if x.start == v then [x] else [])
  {
    if t == [] || !LexLess(x.start, t[|t| - 1].start) {
      StartingAtSnoc(t, x, v);
    } else {
      var prefix := t[..|t| - 1];
      var last := t[|t| - 1];
      SortedPrefix(t);
      InsertStable(x, prefix, v);
      var r := InsertByStart(x, prefix);
      assert InsertByStart(x, t) == r + [last];
      StartingAtSnoc(r, last, v);
      assert t == prefix + [last];
      StartingAtSnoc(prefix, last, v);
      if x.start == v {
        LexLessIrreflexive(v);
      }
    }
  }

  /** The sort orders by start and keeps slots with equal starts in their original order. */
  lemma {:induction false} SortByStartCorrect(slots: seq<Slot>)
    ensures SortedByStart(SortByStart(slots))
    ensures forall v :: StartingAt(SortByStart(slots), v) == StartingAt(slots, v)
  {
    if slots != [] {
      var prefix := slots[..|slots| - 1];
      var x := slots[|slots| - 1];
      SortByStartCorrect(prefix);
      InsertKeepsSorted(x, SortByStart(prefix));
      forall v ensures StartingAt(SortByStart(slots), v) == StartingAt(slots, v) {
        InsertStable(x, SortByStart(prefix), v);
      }
    }
  }

  // ---------------------------------------------------------------------------
  // Finding overlaps in one group
  // ---------------------------------------------------------------------------

  /** The later slot `j` starts before the earlier slot `i` ends. */
  predicate Flagged(s: seq<Slot>, i: int, j: int) {
    0 <= i < j < |s| && LexLess(s[j].start, s[i].end)
  }

  /** The pairs the inner loop reports for slot `i`, against the slots `i + 1 .. n - 1`. */
  function PairsWith(s: seq<Slot>, i: nat, n: nat): seq<Overlap>
    requires i < |s| && n <= |s|
  {
    if n <= i + 1 then []
    else PairsWith(s, i, n - 1) + (if LexLess(s[n - 1].start, s[i].end) then [Overlap(s[i].rowNumber, s[n - 1].rowNumber)] else [])
  }

  /** The pairs both loops report for the slots `0 .. m - 1` as the earlier slot. */
  function PairsUpTo(s: seq<Slot>, m: nat): seq<Overlap>
    requires m <= |s|
  {
    if m == 0 then [] else PairsUpTo(s, m - 1) + PairsWith(s, m - 1, |s|)
  }

  /** `findOverlaps`: the pairs found in the group once sorted. */
  function Overlaps(slots: seq<Slot>): seq<Overlap> {
    PairsUpTo(SortByStart(slots), |slots|)
  }

  lemma {:induction false} PairsWithExact(s: seq<Slot>, i: nat, n: nat)
    requires i < |s| && n <= |s|
    ensures forall o :: o in PairsWith(s, i, n) <==>
              exists j | i < j < n :: Flagged(s, i, j) && o == Overlap(s[i].rowNumber, s[j].rowNumber)
  {
    if n > i + 1 {
      PairsWithExact(s, i, n - 1);
    }
  }

  /** A pair is reported exactly when the later-sorted slot starts before the earlier one ends. */
  lemma {:induction false} PairsUpToExact(s: seq<Slot>, m: nat)
    requires m <= |s|
    ensures forall o :: o in PairsUpTo(s, m) <==>
              exists i, j | 0 <= i < m && i < j < |s| :: Flagged(s, i, j) && o == Overlap(s[i].rowNumber, s[j].rowNumber)
  {
    if m > 0 {
      PairsUpToExact(s, m - 1);
      PairsWithExact(s, m - 1, |s|);
      forall o | o in PairsUpTo(s, m)
        ensures exists i, j | 0 <= i < m && i < j < |s| :: Flagged(s, i, j) && o == Overlap(s[i].rowNumber, s[j].rowNumber)
      {
        if o in PairsUpTo(s, m - 1) {
          var i, j :| 0 <= i < m - 1 && i < j < |s| && Flagged(s, i, j) && o == Overlap(s[i].rowNumber, s[j].rowNumber);
        } else {
          var j :| m - 1 < j < |s| && Flagged(s, m - 1, j) && o == Overlap(s[m - 1].rowNumber, s[j].rowNumber);
        }
      }
      forall o, i, j | 0 <= i < m && i < j < |s| && Flagged(s, i, j) && o == Overlap(s[i].rowNumber, s[j].rowNumber)
        ensures o in PairsUpTo(s, m)
      {
        if i < m - 1 {
          assert o in PairsUpTo(s, m - 1);
        } else {
          assert o in PairsWith(s, m - 1, |s|);
        }
      }
    }
  }

  /** `findOverlaps`, with the library sort as `SortByStart`. */
  method FindOverlaps(slots: seq<Slot>) returns (overlaps: seq<Overlap>)
    ensures overlaps == Overlaps(slots)
  {
    overlaps := [];
    var sorted := SortByStart(slots);
    for i := 0 to |sorted|
      invariant overlaps == PairsUpTo(sorted, i)
    {
      ghost var before := overlaps;
      for j := i + 1 to |sorted|
        invariant overlaps == before + PairsWith(sorted, i, j)
      {
        if LexLess(sorted[j].start, sorted[i].end) {
          overlaps := overlaps + [Overlap(sorted[i].rowNumber, sorted[j].rowNumber)];
        }
      }
    }
  }

  /** A slot with two valid `HH:mm` times, the start before the end: what a validated timetable row carries. */
  predicate ValidSlot(x: Slot) {
    IsTime(x.start) && IsTime(x.end) && LexLess(x.start, x.end)
  }

  /** The two slots share at least one minute of the day. */
  predicate Intersect(x: Slot, y: Slot)
    requires ValidSlot(x) && ValidSlot(y)
  {
    Minutes(x.start) < Minutes(y.end) && Minutes(y.start) < Minutes(x.end)
  }

  /** In a sorted group of valid slots, a pair is flagged exactly when their times intersect. */
  lemma FlaggedIffIntersect(s: seq<Slot>, i: int, j: int)
    requires SortedByStart(s) && 0 <= i < j < |s|
    requires ValidSlot(s[i]) && ValidSlot(s[j])
    ensures Flagged(s, i, j) <==> Intersect(s[i], s[j])
  {
    TimeOrderIsChronological(s[j].start, s[i].end);
    TimeOrderIsChronological(s[j].start, s[i].start);
    TimeOrderIsChronological(s[i].start, s[j].end);
    TimeOrderIsChronological(s[j].start, s[j].end);
  }

  /** No two slots carry the same row number. */
  predicate DistinctRows(s: seq<Slot>) {
    forall i, j | 0 <= i < j < |s| :: s[i].rowNumber != s[j].rowNumber
  }

  lemma {:induction false} InsertKeepsDistinct(x: Slot, t: seq<Slot>)
    requires DistinctRows(t) && forall y | y in t :: y.rowNumber != x.rowNumber
    ensures DistinctRows(InsertByStart(x, t))
  {
    if t != [] && LexLess(x.start, t[|t| - 1].start) {
      var prefix := t[..|t| - 1];
      var last := t[|t| - 1];
      assert forall y | y in prefix :: y in t;
      InsertKeepsDistinct(x, prefix);
      var r := InsertByStart(x, prefix);
      forall e | e in r ensures e.rowNumber != last.rowNumber {
        assert e in multiset(r);
        if e != x {
          assert e in multiset(prefix);
          var k :| 0 <= k < |prefix| && prefix[k] == e;
          assert t[k] == e;
        }
      }
    }
  }

  lemma {:induction false} SortKeepsDistinct(slots: seq<Slot>)
    requires DistinctRows(slots)
    ensures DistinctRows(SortByStart(slots))
  {
    if slots != [] {
      var prefix := slots[..|slots| - 1];
      var x := slots[|slots| - 1];
      SortKeepsDistinct(prefix);
      forall y | y in SortByStart(prefix) ensures y.rowNumber != x.rowNumber {
        assert y in multiset(prefix);
        var k :| 0 <= k < |prefix| && prefix[k] == y;
        assert slots[k] == y;
      }
      InsertKeepsDistinct(x, SortByStart(prefix));
    }
  }

  /** Every reported pair is two slots of the group, of different rows, whose times intersect. */
  lemma OverlapsSound(slots: seq<Slot>, o: Overlap)
    requires DistinctRows(slots) && forall x | x in slots :: ValidSlot(x)
    requires o in Overlaps(slots)
    ensures exists x, y | x in slots && y in slots ::
              o == Overlap(x.rowNumber, y.rowNumber) && x.rowNumber != y.rowNumber && Intersect(x, y)
  {
    var s := SortByStart(slots);
    SortByStartCorrect(slots);
    SortKeepsDistinct(slots);
    PairsUpToExact(s, |s|);
    var i, j :| 0 <= i < |s| && i < j < |s| && Flagged(s, i, j) && o == Overlap(s[i].rowNumber, s[j].rowNumber);
    assert s[i] in multiset(s) && s[j] in multiset(s);
    FlaggedIffIntersect(s, i, j);
  }

  /** Two different slots of a group whose times intersect are reported, the earlier-sorted one first. */
  lemma OverlapsComplete(slots: seq<Slot>, x: Slot, y: Slot)
    requires forall z | z in slots :: ValidSlot(z)
    requires x in slots && y in slots && x != y && Intersect(x, y)
    ensures Overlap(x.rowNumber, y.rowNumber) in Overlaps(slots) || Overlap(y.rowNumber, x.rowNumber) in Overlaps(slots)
  {
    var s := SortByStart(slots);
    SortByStartCorrect(slots);
    PairsUpToExact(s, |s|);
    assert x in multiset(s) && y in multiset(s);
    var i :| 0 <= i < |s| && s[i] == x;
    var j :| 0 <= j < |s| && s[j] == y;
    if i < j {
      FlaggedIffIntersect(s, i, j);
    } else {
      FlaggedIffIntersect(s, j, i);
    }
  }

  /** A slot ending when the next begins does not conflict with it: the comparison is strict. */
  lemma TouchingSlotsDoNotOverlap(a: Slot, b: Slot)
    requires ValidSlot(a) && ValidSlot(b) && a.end == b.start
    ensures Overlaps([a, b]) == []
  {
    var s := [a, b];
    assert s[..1] == [a] && s[1] == b;
    assert SortByStart([a]) == [a];
    assert SortByStart(s) == s by {
      LexLessAsymmetric(a.start, b.start);
    }
    assert !LexLess(b.start, a.end) by { LexLessIrreflexive(b.start); }
    assert PairsWith(s, 0, 2) == [];
    assert PairsUpTo(s, 1) == PairsWith(s, 0, 2) by {
      assert PairsUpTo(s, 0) == [];
    }
    assert PairsWith(s, 1, 2) == [];
  }

  // ---------------------------------------------------------------------------
  // Grouping rows by room and day, and by teacher and day
  // ---------------------------------------------------------------------------

  /** `${row[column]}|${day_of_week}`; a missing column reads "undefined". */
  function GroupKey(data: Data, column: string): string {
    ValueText(data, column) + "|" + ValueText(data, "day_of_week")
  }

  function SlotOf(row: ParsedRow): Slot {
    Slot(row.rowNumber, ValueText(row.data, "start_time"), ValueText(row.data, "end_time"))
  }

  /** The keys of the groups in the order a `Map` meets them: first occurrence first. */
  function GroupKeys(rows: seq<ParsedRow>, column: string): seq<string> {
    if rows == [] then []
    else
      var keys := GroupKeys(rows[..|rows| - 1], column);
      var k := GroupKey(rows[|rows| - 1].data, column);
      if k in keys then keys else keys + [k]
  }

  /** The slots of the rows with a given key, in row order. */
  function Group(rows: seq<ParsedRow>, column: string, key: string): seq<Slot> {
    if rows == [] then []
    else
      var row := rows[|rows| - 1];
      Group(rows[..|rows| - 1], column, key) + (if GroupKey(row.data, column) == key then [SlotOf(row)] else [])
  }

  /** Each key is listed once, and exactly the keys of the rows are. */
  lemma {:induction false} GroupKeysExact(rows: seq<ParsedRow>, column: string)
    ensures NoDup(GroupKeys(rows, column))
    ensures forall k :: k in GroupKeys(rows, column) <==> exists i | 0 <= i < |rows| :: GroupKey(rows[i].data, column) == k
  {
    if rows != [] {
      var prefix := rows[..|rows| - 1];
      GroupKeysExact(prefix, column);
      assert forall i | 0 <= i < |prefix| :: prefix[i] == rows[i];
    }
  }

  /** A group holds only slots of rows with its key. */
  lemma {:induction false} GroupSound(rows: seq<ParsedRow>, column: string, key: string, x: Slot)
    requires x in Group(rows, column, key)
    ensures exists i | 0 <= i < |rows| :: GroupKey(rows[i].data, column) == key && SlotOf(rows[i]) == x
  {
    var prefix := rows[..|rows| - 1];
    var row := rows[|rows| - 1];
    if x in Group(prefix, column, key) {
      GroupSound(prefix, column, key, x);
      var i :| 0 <= i < |prefix| && GroupKey(prefix[i].data, column) == key && SlotOf(prefix[i]) == x;
      assert prefix[i] == rows[i];
    } else {
      assert GroupKey(row.data, column) == key && SlotOf(row) == x;
    }
  }

  /** Every row's slot is in its own group. */
  lemma {:induction false} InOwnGroup(rows: seq<ParsedRow>, column: string, i: nat)
    requires i < |rows|
    ensures SlotOf(rows[i]) in Group(rows, column, GroupKey(rows[i].data, column))
  {
    var prefix := rows[..|rows| - 1];
    if i < |rows| - 1 {
      InOwnGroup(prefix, column, i);
      assert prefix[i] == rows[i];
    }
  }

  /** `roomSlots` or `teacherSlots` once every row is added. */
  function Groups(rows: seq<ParsedRow>, column: string): map<string, seq<Slot>> {
    map k | k in GroupKeys(rows, column) :: Group(rows, column, k)
  }

  /** `key.split('|')[1]`, which reads "undefined" when the key has no '|'. */
  function KeyDay(key: string): string {
    var parts := Split(key, '|');
    if |parts| >= 2 then parts[1] else "undefined"
  }

  function ConflictError(resource: string, errorColumn: string, key: string, o: Overlap): IngestionError {
    IngestionError(o.rowB, errorColumn, ConflictOverlap,
      resource + " double-booked on " + KeyDay(key) + " — conflicts with row " + IntToString(o.rowA))
  }

  function ConflictErrors(resource: string, errorColumn: string, key: string, overlaps: seq<Overlap>): (errs: seq<IngestionError>)
    ensures |errs| == |overlaps|
    ensures forall k | 0 <= k < |overlaps| :: errs[k] == ConflictError(resource, errorColumn, key, overlaps[k])
  {
    seq(|overlaps|, k requires 0 <= k < |overlaps| => ConflictError(resource, errorColumn, key, overlaps[k]))
  }

  /** The errors of the groups, group by group in key order. */
  function GroupErrors(keys: seq<string>, groups: map<string, seq<Slot>>, resource: string, errorColumn: string): seq<IngestionError> {
    if keys == [] then []
    else
      var k := keys[|keys| - 1];
      GroupErrors(keys[..|keys| - 1], groups, resource, errorColumn)
      + ConflictErrors(resource, errorColumn, k, Overlaps(if k in groups then groups[k] else []))
  }

  /** The slots of a group of valid rows are valid. */
  lemma GroupValid(rows: seq<ParsedRow>, column: string, key: string)
    requires ValidTimetableRows(rows)
    ensures forall x | x in Group(rows, column, key) :: ValidSlot(x)
  {
    forall x | x in Group(rows, column, key) ensures ValidSlot(x) {
      GroupSound(rows, column, key, x);
    }
  }

  /** The conflicts of one column: groups by `column` and day, reported on `errorColumn`. */
  function ColumnConflicts(rows: seq<ParsedRow>, column: string, resource: string, errorColumn: string): seq<IngestionError> {
    GroupErrors(GroupKeys(rows, column), Groups(rows, column), resource, errorColumn)
  }

  /**
   * `checkTimetableOverlaps`, with the room read from `roomColumn`: room
   * conflicts (on column `room_id`) first, then teacher conflicts (on column
   * `teacher_id`).
   */
  function TimetableOverlapErrors(rows: seq<ParsedRow>, roomColumn: string): seq<IngestionError> {
    ColumnConflicts(rows, roomColumn, "Room", "room_id") + ColumnConflicts(rows, "teacher_id", "Teacher", "teacher_id")
  }

  /** How the keys grow by one row. */
  lemma GroupKeysStep(rows: seq<ParsedRow>, column: string, i: nat)
    requires i < |rows|
    ensures var keys := GroupKeys(rows[..i], column);
            var k := GroupKey(rows[i].data, column);
            GroupKeys(rows[..i + 1], column) == if k in keys then keys else keys + [k]
  {
    assert rows[..i + 1][..i] == rows[..i];
  }

  /** How each group grows by one row. */
  lemma GroupStep(rows: seq<ParsedRow>, column: string, i: nat)
    requires i < |rows|
    ensures forall key :: Group(rows[..i + 1], column, key)
                          == Group(rows[..i], column, key) + (if GroupKey(rows[i].data, column) == key then [SlotOf(rows[i])] else [])
  {
    assert rows[..i + 1][..i] == rows[..i];
  }

  /** A key no row carries has an empty group. */
  lemma {:induction false} GroupEmptyUnlessKey(rows: seq<ParsedRow>, column: string, key: string)
    requires key !in GroupKeys(rows, column)
    ensures Group(rows, column, key) == []
  {
    if rows != [] {
      GroupEmptyUnlessKey(rows[..|rows| - 1], column, key);
    }
  }

  /** How the table of groups grows by one row. */
  lemma GroupsStep(rows: seq<ParsedRow>, column: string, i: nat)
    requires i < |rows|
    ensures var groups := Groups(rows[..i], column);
            var k := GroupKey(rows[i].data, column);
            Groups(rows[..i + 1], column) == groups[k := (if k in groups then groups[k] else []) + [SlotOf(rows[i])]]
  {
    GroupKeysStep(rows, column, i);
    GroupStep(rows, column, i);
    var k := GroupKey(rows[i].data, column);
    var before, after := Groups(rows[..i], column), Groups(rows[..i + 1], column);
    var expected := before[k := (if k in before then before[k] else []) + [SlotOf(rows[i])]];
    if k !in GroupKeys(rows[..i], column) {
      GroupEmptyUnlessKey(rows[..i], column, k);
    }
    assert after.Keys == expected.Keys;
    forall key | key in after ensures after[key] == expected[key] {
      assert after[key] == Group(rows[..i + 1], column, key);
    }
  }

  /** The grouping loop of `checkTimetableOverlaps` for one column. */
  method BuildGroups(rows: seq<ParsedRow>, column: string) returns (keys: seq<string>, groups: map<string, seq<Slot>>)
    ensures keys == GroupKeys(rows, column)
    ensures groups == Groups(rows, column)
  {
    keys, groups := [], map[];
    for i := 0 to |rows|
      invariant keys == GroupKeys(rows[..i], column)
      invariant groups == Groups(rows[..i], column)
    {
      GroupKeysStep(rows, column, i);
      GroupsStep(rows, column, i);
      var row := rows[i];
      var key := GroupKey(row.data, column);
      var current := if key in groups then groups[key] else [];
      if key !in groups {
        keys := keys + [key];
      }
      groups := groups[key := current + [SlotOf(row)]];
    }
    assert rows[..|rows|] == rows;
  }

  lemma GroupErrorsStep(keys: seq<string>, groups: map<string, seq<Slot>>, resource: string, errorColumn: string, g: nat)
    requires g < |keys|
    ensures GroupErrors(keys[..g + 1], groups, resource, errorColumn)
            == GroupErrors(keys[..g], groups, resource, errorColumn)
               + ConflictErrors(resource, errorColumn, keys[g], Overlaps(if keys[g] in groups then groups[keys[g]] else []))
  {
    assert keys[..g + 1][..g] == keys[..g];
  }

  /** The reporting loop of `checkTimetableOverlaps` for one kind of group. */
  method ReportGroups(keys: seq<string>, groups: map<string, seq<Slot>>, resource: string, errorColumn: string)
    returns (errors: seq<IngestionError>)
    ensures errors == GroupErrors(keys, groups, resource, errorColumn)
  {
    errors := [];
    for g := 0 to |keys|
      invariant errors == GroupErrors(keys[..g], groups, resource, errorColumn)
    {
      GroupErrorsStep(keys, groups, resource, errorColumn, g);
      var key := keys[g];
      var overlaps := FindOverlaps(if key in groups then groups[key] else []);
      var groupErrors := ReportOverlaps(overlaps, resource, errorColumn, key);
      errors := errors + groupErrors;
    }
    assert keys[..|keys|] == keys;
  }

  /** The loop over one group's overlaps. */
  method ReportOverlaps(overlaps: seq<Overlap>, resource: string, errorColumn: string, key: string)
    returns (errors: seq<IngestionError>)
    ensures errors == ConflictErrors(resource, errorColumn, key, overlaps)
  {
    errors := [];
    for k := 0 to |overlaps|
      invariant errors == ConflictErrors(resource, errorColumn, key, overlaps[..k])
    {
      errors := errors + [ConflictError(resource, errorColumn, key, overlaps[k])];
    }
    assert overlaps[..|overlaps|] == overlaps;
  }

  /** `checkTimetableOverlaps`, with the room read from `roomColumn`. */
  method CheckTimetableOverlaps(rows: seq<ParsedRow>, roomColumn: string) returns (errors: seq<IngestionError>)
    ensures errors == TimetableOverlapErrors(rows, roomColumn)
  {
    var roomKeys, roomSlots := BuildGroups(rows, roomColumn);
    var teacherKeys, teacherSlots := BuildGroups(rows, "teacher_id");
    var roomErrors := ReportGroups(roomKeys, roomSlots, "Room", "room_id");
    var teacherErrors := ReportGroups(teacherKeys, teacherSlots, "Teacher", "teacher_id");
    errors := roomErrors + teacherErrors;
  }

  // ---------------------------------------------------------------------------
  // What the check reports, row by row
  // ---------------------------------------------------------------------------

  /** Every row's times are valid `HH:mm` with the start first, and no two rows share a number. */
  predicate ValidTimetableRows(rows: seq<ParsedRow>) {
    && (forall i | 0 <= i < |rows| :: ValidSlot(SlotOf(rows[i])))
    && (forall i, j | 0 <= i < j < |rows| :: rows[i].rowNumber != rows[j].rowNumber)
  }

  lemma {:induction false} GroupErrorsSound(keys: seq<string>, groups: map<string, seq<Slot>>, resource: string, errorColumn: string, e: IngestionError)
    requires e in GroupErrors(keys, groups, resource, errorColumn)
    ensures exists k, o | k in keys && k in groups && o in Overlaps(groups[k]) :: e == ConflictError(resource, errorColumn, k, o)
  {
    var prefix := keys[..|keys| - 1];
    var k := keys[|keys| - 1];
    if e in GroupErrors(prefix, groups, resource, errorColumn) {
      GroupErrorsSound(prefix, groups, resource, errorColumn, e);
      assert forall k' | k' in prefix :: k' in keys;
    } else {
      var overlaps := Overlaps(if k in groups then groups[k] else []);
      var n :| 0 <= n < |overlaps| && ConflictErrors(resource, errorColumn, k, overlaps)[n] == e;
      assert overlaps[n] in overlaps;
    }
  }

  lemma {:induction false} GroupErrorsComplete(keys: seq<string>, groups: map<string, seq<Slot>>, resource: string, errorColumn: string, k: string, o: Overlap)
    requires k in keys && k in groups && o in Overlaps(groups[k])
    ensures ConflictError(resource, errorColumn, k, o) in GroupErrors(keys, groups, resource, errorColumn)
  {
    var prefix := keys[..|keys| - 1];
    if k == keys[|keys| - 1] {
      var overlaps := Overlaps(groups[k]);
      var n :| 0 <= n < |overlaps| && overlaps[n] == o;
      assert ConflictErrors(resource, errorColumn, k, overlaps)[n] == ConflictError(resource, errorColumn, k, o);
    } else {
      assert keys == prefix + [keys[|keys| - 1]];
      GroupErrorsComplete(prefix, groups, resource, errorColumn, k, o);
    }
  }

  /** No two rows of a group share a number when no two rows do. */
  lemma {:induction false} GroupDistinct(rows: seq<ParsedRow>, column: string, key: string)
    requires forall i, j | 0 <= i < j < |rows| :: rows[i].rowNumber != rows[j].rowNumber
    ensures DistinctRows(Group(rows, column, key))
  {
    if rows != [] {
      var prefix := rows[..|rows| - 1];
      var row := rows[|rows| - 1];
      GroupDistinct(prefix, column, key);
      var g := Group(prefix, column, key);
      forall x | x in g ensures x.rowNumber != row.rowNumber {
        GroupSound(prefix, column, key, x);
      }
    }
  }

  /**
   * Every conflict reported for a column is on a row that shares its key
   * (`column` and day) with another row whose times intersect its own.
   */
  lemma ConflictsSound(rows: seq<ParsedRow>, column: string, resource: string, errorColumn: string, e: IngestionError)
    requires ValidTimetableRows(rows)
    requires e in ColumnConflicts(rows, column, resource, errorColumn)
    ensures e.column == errorColumn && e.code == ConflictOverlap
    ensures exists a, b | 0 <= a < |rows| && 0 <= b < |rows| ::
              && e.row == rows[b].rowNumber && a != b
              && GroupKey(rows[a].data, column) == GroupKey(rows[b].data, column)
              && Intersect(SlotOf(rows[a]), SlotOf(rows[b]))
  {
    var keys, groups := GroupKeys(rows, column), Groups(rows, column);
    GroupErrorsSound(keys, groups, resource, errorColumn, e);
    var k, o :| k in keys && k in groups && o in Overlaps(groups[k]) && e == ConflictError(resource, errorColumn, k, o);
    var g := Group(rows, column, k);
    GroupDistinct(rows, column, k);
    GroupValid(rows, column, k);
    OverlapsSound(g, o);
    var x, y :| x in g && y in g && o == Overlap(x.rowNumber, y.rowNumber) && x.rowNumber != y.rowNumber && Intersect(x, y);
    GroupSound(rows, column, k, x);
    GroupSound(rows, column, k, y);
    var a :| 0 <= a < |rows| && GroupKey(rows[a].data, column) == k && SlotOf(rows[a]) == x;
    var b :| 0 <= b < |rows| && GroupKey(rows[b].data, column) == k && SlotOf(rows[b]) == y;
  }

  /** Two different rows with the same key whose times intersect are paired within their group. */
  lemma PairedInGroup(rows: seq<ParsedRow>, column: string, a: nat, b: nat)
    requires ValidTimetableRows(rows)
    requires a < |rows| && b < |rows| && a != b
    requires GroupKey(rows[a].data, column) == GroupKey(rows[b].data, column)
    requires Intersect(SlotOf(rows[a]), SlotOf(rows[b]))
    ensures var k := GroupKey(rows[a].data, column);
            && k in GroupKeys(rows, column) && k in Groups(rows, column)
            && (|| Overlap(rows[a].rowNumber, rows[b].rowNumber) in Overlaps(Groups(rows, column)[k])
                || Overlap(rows[b].rowNumber, rows[a].rowNumber) in Overlaps(Groups(rows, column)[k]))
  {
    var k := GroupKey(rows[a].data, column);
    assert k in GroupKeys(rows, column) by {
      GroupKeysExact(rows, column);
    }
    var g := Group(rows, column, k);
    InOwnGroup(rows, column, a);
    InOwnGroup(rows, column, b);
    GroupValid(rows, column, k);
    assert SlotOf(rows[a]) != SlotOf(rows[b]) by {
      if a < b {
        assert rows[a].rowNumber != rows[b].rowNumber;
      } else {
        assert rows[b].rowNumber != rows[a].rowNumber;
      }
    }
    OverlapsComplete(g, SlotOf(rows[a]), SlotOf(rows[b]));
  }

  /** Two different rows with the same key whose times intersect: one of them is reported. */
  lemma ConflictsComplete(rows: seq<ParsedRow>, column: string, resource: string, errorColumn: string, a: nat, b: nat)
    requires ValidTimetableRows(rows)
    requires a < |rows| && b < |rows| && a != b
    requires GroupKey(rows[a].data, column) == GroupKey(rows[b].data, column)
    requires Intersect(SlotOf(rows[a]), SlotOf(rows[b]))
    ensures exists e | e in ColumnConflicts(rows, column, resource, errorColumn) ::
              e.code == ConflictOverlap && e.column == errorColumn && (e.row == rows[a].rowNumber || e.row == rows[b].rowNumber)
  {
    var k := GroupKey(rows[a].data, column);
    PairedInGroup(rows, column, a, b);
    if Overlap(rows[a].rowNumber, rows[b].rowNumber) in Overlaps(Groups(rows, column)[k]) {
      ConflictReported(rows, column, resource, errorColumn, k, Overlap(rows[a].rowNumber, rows[b].rowNumber));
    } else {
      ConflictReported(rows, column, resource, errorColumn, k, Overlap(rows[b].rowNumber, rows[a].rowNumber));
    }
  }

  /** A pair found in one of the column's groups is reported, on its later row. */
  lemma ConflictReported(rows: seq<ParsedRow>, column: string, resource: string, errorColumn: string, k: string, o: Overlap)
    requires k in GroupKeys(rows, column) && k in Groups(rows, column) && o in Overlaps(Groups(rows, column)[k])
    ensures var e := ConflictError(resource, errorColumn, k, o);
            && e in ColumnConflicts(rows, column, resource, errorColumn)
            && e.code == ConflictOverlap && e.column == errorColumn && e.row == o.rowB
  {
    GroupErrorsComplete(GroupKeys(rows, column), Groups(rows, column), resource, errorColumn, k, o);
  }

  // ---------------------------------------------------------------------------
  // Which column holds the room
  // ---------------------------------------------------------------------------

  /**
   * With a day that holds no '|', rows sharing a room key share both the
   * room value and the day.
   */
  lemma GroupKeyParts(d1: Data, d2: Data, column: string)
    requires '|' !in ValueText(d1, "day_of_week") && '|' !in ValueText(d2, "day_of_week")
    requires GroupKey(d1, column) == GroupKey(d2, column)
    ensures ValueText(d1, column) == ValueText(d2, column)
    ensures ValueText(d1, "day_of_week") == ValueText(d2, "day_of_week")
  {
    JoinedPartsUnique(ValueText(d1, column), ValueText(d1, "day_of_week"), ValueText(d2, column), ValueText(d2, "day_of_week"), '|');
  }

  /**
   * The room conflicts the check reports when it reads the room from the
   * `room_number` column the rows carry: only rows booking the same room on
   * the same day at intersecting times.
   */
  lemma RoomConflictsShareRoom(rows: seq<ParsedRow>, e: IngestionError)
    requires ValidTimetableRows(rows)
    requires forall i | 0 <= i < |rows| :: '|' !in ValueText(rows[i].data, "day_of_week")
    requires e in TimetableOverlapErrors(rows, "room_number") && e.column == "room_id"
    ensures exists a, b | 0 <= a < |rows| && 0 <= b < |rows| ::
              && e.row == rows[b].rowNumber && a != b
              && ValueText(rows[a].data, "room_number") == ValueText(rows[b].data, "room_number")
              && ValueText(rows[a].data, "day_of_week") == ValueText(rows[b].data, "day_of_week")
              && Intersect(SlotOf(rows[a]), SlotOf(rows[b]))
  {
    if e in ColumnConflicts(rows, "teacher_id", "Teacher", "teacher_id") {
      ConflictsSound(rows, "teacher_id", "Teacher", "teacher_id", e);
    }
    ConflictsSound(rows, "room_number", "Room", "room_id", e);
    var a, b :| 0 <= a < |rows| && 0 <= b < |rows| && e.row == rows[b].rowNumber && a != b
                && GroupKey(rows[a].data, "room_number") == GroupKey(rows[b].data, "room_number")
                && Intersect(SlotOf(rows[a]), SlotOf(rows[b]));
    GroupKeyParts(rows[a].data, rows[b].data, "room_number");
  }

  /**
   * As written, the room key reads `room_id`, which timetable rows do not
   * carry: every room key is "undefined|<day>", so any two rows on the same
   * day whose times intersect are reported as a double-booked room, whatever
   * their rooms.
   */
  lemma RoomIdKeyConflatesRooms(rows: seq<ParsedRow>, a: nat, b: nat)
    requires ValidTimetableRows(rows)
    requires a < |rows| && b < |rows| && a != b
    requires "room_id" !in rows[a].data && "room_id" !in rows[b].data
    requires ValueText(rows[a].data, "day_of_week") == ValueText(rows[b].data, "day_of_week")
    requires Intersect(SlotOf(rows[a]), SlotOf(rows[b]))
    ensures exists e | e in TimetableOverlapErrors(rows, "room_id") ::
              e.code == ConflictOverlap && e.column == "room_id" && (e.row == rows[a].rowNumber || e.row == rows[b].rowNumber)
  {
    ConflictsComplete(rows, "room_id", "Room", "room_id", a, b);
  }

  /** Two rows of a timetable file: different rooms, different teachers, the same Monday morning. */
  function TwoRoomsExample(): seq<ParsedRow> {
    [ ParsedRow(2, map["teacher_id" := "T1", "room_number" := "R1", "day_of_week" := "Monday", "start_time" := "09:00", "end_time" := "10:00"]),
      ParsedRow(3, map["teacher_id" := "T2", "room_number" := "R2", "day_of_week" := "Monday", "start_time" := "09:30", "end_time" := "10:30"]) ]
  }

  /** The example rows are valid, carry no `room_id`, and differ in room and teacher. */
  lemma TwoRoomsExampleFacts(rows: seq<ParsedRow>)
    requires rows == TwoRoomsExample()
    ensures ValidTimetableRows(rows) && |rows| == 2 && rows[0].rowNumber == 2 && rows[1].rowNumber == 3
    ensures "room_id" !in rows[0].data && "room_id" !in rows[1].data
    ensures ValueText(rows[0].data, "room_number") != ValueText(rows[1].data, "room_number")
    ensures ValueText(rows[0].data, "teacher_id") != ValueText(rows[1].data, "teacher_id")
    ensures ValueText(rows[0].data, "day_of_week") == ValueText(rows[1].data, "day_of_week") == "Monday"
    ensures Intersect(SlotOf(rows[0]), SlotOf(rows[1]))
    ensures forall i | 0 <= i < |rows| :: '|' !in ValueText(rows[i].data, "day_of_week")
    ensures forall a, b | 0 <= a < |rows| && 0 <= b < |rows| && a != b ::
              && ValueText(rows[a].data, "room_number") != ValueText(rows[b].data, "room_number")
              && ValueText(rows[a].data, "teacher_id") != ValueText(rows[b].data, "teacher_id")
  {
    TwoRoomsSlots(rows);
    TwoRoomsValues(rows);
  }

  /** The example's slots: valid, on distinct rows, and intersecting. */
  lemma TwoRoomsSlots(rows: seq<ParsedRow>)
    requires rows == TwoRoomsExample()
    ensures ValidTimetableRows(rows) && Intersect(SlotOf(rows[0]), SlotOf(rows[1]))
  {
    assert SlotOf(rows[0]) == Slot(2, "09:00", "10:00");
    assert SlotOf(rows[1]) == Slot(3, "09:30", "10:30");
    assert LexLess("09:00", "10:00") by { assert "09:00"[0] < "10:00"[0]; }
    assert LexLess("09:30", "10:30") by { assert "09:30"[0] < "10:30"[0]; }
  }

  /** The example's cells: rooms R1 and R2, teachers T1 and T2, both on Monday. */
  lemma TwoRoomsValues(rows: seq<ParsedRow>)
    requires rows == TwoRoomsExample()
    ensures ValueText(rows[0].data, "room_number") == "R1" && ValueText(rows[1].data, "room_number") == "R2"
    ensures ValueText(rows[0].data, "teacher_id") == "T1" && ValueText(rows[1].data, "teacher_id") == "T2"
    ensures ValueText(rows[0].data, "day_of_week") == ValueText(rows[1].data, "day_of_week") == "Monday"
  {
  }

  /**
   * Reading the room from `room_number`: rows that pairwise differ in room
   * and in teacher raise no conflict at all.
   */
  lemma NoSharedResourceNoConflict(rows: seq<ParsedRow>)
    requires ValidTimetableRows(rows)
    requires forall i | 0 <= i < |rows| :: '|' !in ValueText(rows[i].data, "day_of_week")
    requires forall a, b | 0 <= a < |rows| && 0 <= b < |rows| && a != b ::
               && ValueText(rows[a].data, "room_number") != ValueText(rows[b].data, "room_number")
               && ValueText(rows[a].data, "teacher_id") != ValueText(rows[b].data, "teacher_id")
    ensures TimetableOverlapErrors(rows, "room_number") == []
  {
    var errs := TimetableOverlapErrors(rows, "room_number");
    if errs != [] {
      var e := errs[0];
      assert e in errs;
      var column := if e in ColumnConflicts(rows, "room_number", "Room", "room_id") then "room_number" else "teacher_id";
      var resource := if column == "room_number" then "Room" else "Teacher";
      ConflictsSound(rows, column, resource, if column == "room_number" then "room_id" else "teacher_id", e);
      var a, b :| 0 <= a < |rows| && 0 <= b < |rows| && a != b
                  && GroupKey(rows[a].data, column) == GroupKey(rows[b].data, column);
      GroupKeyParts(rows[a].data, rows[b].data, column);
    }
  }

  /**
   * The two example rows, in rooms R1 and R2 with teachers T1 and T2, are
   * reported as a room conflict by the check as written, and raise no
   * conflict at all when the room is read from `room_number`.
   */
  lemma TwoRoomsExampleConflict(rows: seq<ParsedRow>)
    requires rows == TwoRoomsExample()
    ensures exists e | e in TimetableOverlapErrors(rows, "room_id") :: e.column == "room_id" && (e.row == 2 || e.row == 3)
    ensures TimetableOverlapErrors(rows, "room_number") == []
  {
    TwoRoomsExampleFacts(rows);
    RoomIdKeyConflatesRooms(rows, 0, 1);
    NoSharedResourceNoConflict(rows);
  }
}
