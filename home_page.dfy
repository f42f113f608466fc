/**
 * The public attendance log: records grouped by calendar day, each group
 * newest first, and the days listed newest first.
 */
module HomePage {
  import opened Sequences
  import opened Types
  import opened Calendar
  import opened Sorting
  import opened DayGroups
  import opened Firestore

  /** The total size of the groups listed by keys, as the log renders them. */
  function GroupSizes(groups: map<DayKey, seq<AttendanceRecord>>, keys: seq<DayKey>): nat
    requires forall i :: 0 <= i < |keys| ==> keys[i] in groups
  {
    if keys == [] then 0
    else |groups[keys[0]]| + GroupSizes(groups, keys[1..])
  }

  lemma {:induction false} GroupSizesAreSizeSum(rs: seq<AttendanceRecord>, groups: map<DayKey, seq<AttendanceRecord>>, keys: seq<DayKey>)
    requires forall i :: 0 <= i < |keys| ==> keys[i] in groups && |groups[keys[i]]| == |OnDay(rs, keys[i])|
    ensures GroupSizes(groups, keys) == SizeSum(rs, keys)
  {
    if keys != [] {
      GroupSizesAreSizeSum(rs, groups, keys[1..]);
    }
  }

  /** One step of the reduce: pushing r onto its day's group keeps every group a permutation of that day's records. */
  lemma PushKeepsGroups(pre: seq<AttendanceRecord>, r: AttendanceRecord, groups: map<DayKey, seq<AttendanceRecord>>, g: seq<AttendanceRecord>)
    requires DayOf(r) in groups
    requires forall k :: k in groups ==> multiset(groups[k]) == multiset(OnDay(pre, k))
    requires multiset(g) == multiset(groups[DayOf(r)] + [r])
    ensures forall k :: k in groups[DayOf(r) := g] ==> multiset(groups[DayOf(r) := g][k]) == multiset(OnDay(pre + [r], k))
  {
    forall k | k in groups ensures multiset(groups[DayOf(r) := g][k]) == multiset(OnDay(pre + [r], k)) {
      OnDaySnoc(pre, r, k);
    }
  }

  /** The accumulator of the groupedRecords reduce after the records pre: one sorted group per day seen. */
  ghost predicate Accumulated(pre: seq<AttendanceRecord>, groups: map<DayKey, seq<AttendanceRecord>>, seen: seq<DayKey>) {
    && NoDuplicates(seen)
    && (forall k :: k in groups <==> k in seen)
    && (forall k :: k in seen <==> k in DaysOf(pre))
    && (forall k :: k in groups ==> multiset(groups[k]) == multiset(OnDay(pre, k)))
    && (forall k :: k in groups ==> SortedBy(groups[k], NewestFirst))
  }

  /** One step of the reduce: push r onto its day's list, creating it if needed, and re-sort that list newest first. */
  method Push(pre: seq<AttendanceRecord>, r: AttendanceRecord, groups: map<DayKey, seq<AttendanceRecord>>, seen: seq<DayKey>)
    returns (groups': map<DayKey, seq<AttendanceRecord>>, seen': seq<DayKey>)
    requires Accumulated(pre, groups, seen)
    ensures Accumulated(pre + [r], groups', seen')
  {
    NewestFirstIsPreorder();
    DaysOfSnoc(pre, r);
    var k := DayOf(r);
    groups', seen' := groups, seen;
    if k !in groups {
      OnDayNonEmpty(pre, k);
      groups' := groups[k := []];
      seen' := seen + [k];
      assert k !in seen;
    }
    assert forall d :: d in seen' <==> d in DaysOf(pre + [r]);
    // Pushing onto a sorted group and re-sorting it is inserting into it.
    var g := Insert(groups'[k], r, NewestFirst);
    assert multiset(g) == multiset(groups'[k] + [r]);
    PushKeepsGroups(pre, r, groups', g);
    groups' := groups'[k := g];
  }

  /**
   * The groupedRecords reduce: each record is pushed onto its day's list,
   * which is then re-sorted newest first.
   */
  method GroupNewestFirst(rs: seq<AttendanceRecord>) returns (groups: map<DayKey, seq<AttendanceRecord>>, seen: seq<DayKey>)
    ensures Accumulated(rs, groups, seen)
  {
    groups, seen := map[], [];
    var i := 0;
    while i < |rs|
      invariant 0 <= i <= |rs|
      invariant Accumulated(rs[..i], groups, seen)
    {
      assert rs[..i + 1] == rs[..i] + [rs[i]];
      groups, seen := Push(rs[..i], rs[i], groups, seen);
      i := i + 1;
    }
    assert rs[..i] == rs;
  }

  /**
   * The public log: records grouped by day, each group newest first
   * (groupedRecords), the days newest first (sortedDayKeys); the group sizes
   * add up to the record count shown as the total.
   */
  method GroupForLog(rs: seq<AttendanceRecord>) returns (groups: map<DayKey, seq<AttendanceRecord>>, keys: seq<DayKey>)
    ensures forall k :: k in groups <==> k in DaysOf(rs)
    ensures forall k :: k in keys <==> k in groups
    ensures StrictlyDescending(keys)
    ensures forall i :: 0 <= i < |keys| ==> keys[i] in groups
    ensures forall k :: k in groups ==> multiset(groups[k]) == multiset(OnDay(rs, k))
    ensures forall k :: k in groups ==> SortedBy(groups[k], NewestFirst)
    ensures GroupSizes(groups, keys) == |rs|
  {
    var seen;
    groups, seen := GroupNewestFirst(rs);
    keys := SortDaysDescending(seen);
    forall i | 0 <= i < |keys| ensures keys[i] in groups && |groups[keys[i]]| == |OnDay(rs, keys[i])| {
      assert keys[i] in keys;
      assert |multiset(groups[keys[i]])| == |multiset(OnDay(rs, keys[i]))|;
    }
    GroupSizesAreSizeSum(rs, groups, keys);
    SizeSumCoversAll(rs, keys);
  }
}
