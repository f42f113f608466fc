/**
 * Grouping attendance records by calendar day, shared by the public log and
 * the approved-records export: which records belong to a day, which days
 * occur, and how the group sizes add up.
 */
module DayGroups {
  import opened Types
  import opened Sequences
  import opened Calendar
  import opened Sorting

  function DayOf(r: AttendanceRecord): DayKey {
    DayKeyOf(r.timestamp)
  }

  /** The records of day k, in the order they appear in rs. */
  function OnDay(rs: seq<AttendanceRecord>, k: DayKey): seq<AttendanceRecord> {
    if rs == [] then []
    else OnDay(rs[..|rs| - 1], k) + (if DayOf(rs[|rs| - 1]) == k then [rs[|rs| - 1]] else [])
  }

  function DaysOf(rs: seq<AttendanceRecord>): set<DayKey> {
    set r | r in rs :: DayOf(r)
  }

  predicate StrictlyDescending(keys: seq<DayKey>) {
    forall i, j :: 0 <= i < j < |keys| ==> keys[i] > keys[j]
  }

  /** A record is in the group of day k exactly when it is a record of that day. */
  lemma {:induction false} OnDayMembers(rs: seq<AttendanceRecord>, k: DayKey)
    ensures forall r :: r in OnDay(rs, k) <==> r in rs && DayOf(r) == k
  {
    if rs != [] {
      var p := rs[..|rs| - 1];
      OnDayMembers(p, k);
      assert rs == p + [rs[|rs| - 1]];
    }
  }

  /** Grouping commutes with concatenation: each group keeps the input order. */
  lemma {:induction false} OnDayConcat(a: seq<AttendanceRecord>, b: seq<AttendanceRecord>, k: DayKey)
    ensures OnDay(a + b, k) == OnDay(a, k) + OnDay(b, k)
  {
    if b == [] {
      assert a + b == a;
    } else {
      var p := b[..|b| - 1];
      OnDayConcat(a, p, k);
      assert (a + b)[..|a + b| - 1] == a + p;
    }
  }

  /** A day occurs among the records exactly when its group is non-empty. */
  lemma OnDayNonEmpty(rs: seq<AttendanceRecord>, k: DayKey)
    ensures k in DaysOf(rs) <==> OnDay(rs, k) != []
  {
    OnDayMembers(rs, k);
    if k in DaysOf(rs) {
      var r :| r in rs && DayOf(r) == k;
      assert r in OnDay(rs, k);
    }
  }

  /** The days of rs, for one new record appended at the end. */
  lemma DaysOfSnoc(rs: seq<AttendanceRecord>, r: AttendanceRecord)
    ensures DaysOf(rs + [r]) == DaysOf(rs) + {DayOf(r)}
  {
    forall d | d in DaysOf(rs) ensures d in DaysOf(rs + [r]) {
      var q :| q in rs && DayOf(q) == d;
      assert q in rs + [r];
    }
    assert r in rs + [r];
  }

  /** The group of day k, for one new record appended at the end. */
  lemma OnDaySnoc(rs: seq<AttendanceRecord>, r: AttendanceRecord, k: DayKey)
    ensures OnDay(rs + [r], k) == OnDay(rs, k) + (if DayOf(r) == k then [r] else [])
  {
    assert (rs + [r])[..|rs + [r]| - 1] == rs;
  }

  function Occurrences(keys: seq<DayKey>, d: DayKey): nat {
    if keys == [] then 0 else (if keys[0] == d then 1 else 0) + Occurrences(keys[1..], d)
  }

  lemma {:induction false} OccurrencesOfDistinct(keys: seq<DayKey>, d: DayKey)
    requires NoDuplicates(keys)
    ensures Occurrences(keys, d) == if d in keys then 1 else 0
  {
    if keys != [] {
      OccurrencesOfDistinct(keys[1..], d);
      if keys[0] == d {
        assert d !in keys[1..] by {
          forall j | 0 <= j < |keys[1..]| ensures keys[1..][j] != d {
            assert keys[1..][j] == keys[j + 1];
          }
        }
      }
    }
  }

  /** The total size of the groups named by keys. */
  function SizeSum(rs: seq<AttendanceRecord>, keys: seq<DayKey>): nat {
    if keys == [] then 0 else |OnDay(rs, keys[0])| + SizeSum(rs, keys[1..])
  }

  lemma {:induction false} SizeSumOfNone(keys: seq<DayKey>)
    ensures SizeSum([], keys) == 0
  {
    if keys != [] {
      SizeSumOfNone(keys[1..]);
    }
  }

  lemma {:induction false} SizeSumSnoc(rs: seq<AttendanceRecord>, r: AttendanceRecord, keys: seq<DayKey>)
    ensures SizeSum(rs + [r], keys) == SizeSum(rs, keys) + Occurrences(keys, DayOf(r))
  {
    if keys != [] {
      OnDaySnoc(rs, r, keys[0]);
      SizeSumSnoc(rs, r, keys[1..]);
    }
  }

  /** When the keys list every day of rs once, the group sizes add up to |rs|. */
  lemma {:induction false} SizeSumCoversAll(rs: seq<AttendanceRecord>, keys: seq<DayKey>)
    requires NoDuplicates(keys)
    requires forall d :: d in DaysOf(rs) ==> d in keys
    ensures SizeSum(rs, keys) == |rs|
  {
    if rs == [] {
      SizeSumOfNone(keys);
    } else {
      var p, r := rs[..|rs| - 1], rs[|rs| - 1];
      assert rs == p + [r];
      assert DayOf(r) in DaysOf(rs);
      forall d | d in DaysOf(p) ensures d in keys {
        var q :| q in p && DayOf(q) == d;
        assert q in rs;
      }
      SizeSumCoversAll(p, keys);
      SizeSumSnoc(p, r, keys);
      OccurrencesOfDistinct(keys, DayOf(r));
    }
  }

  const Later := (a: DayKey, b: DayKey) => a >= b

  /** Object.keys(groups).sort((a, b) => b.localeCompare(a)): distinct day keys, newest first. */
  method SortDaysDescending(keys: seq<DayKey>) returns (days: seq<DayKey>)
    requires NoDuplicates(keys)
    ensures StrictlyDescending(days)
    ensures forall k :: k in days <==> k in keys
  {
    days := Sort(keys, Later);
    NoDuplicatesPermutation(keys, days);
    forall k ensures k in days <==> k in keys {
      assert k in days <==> k in multiset(days);
    }
  }
}
