/**
 * The worker and attendance-record collections of the document store, held
 * in memory. The order of each sequence is the store's default query order
 * (by document id); queries with an explicit orderBy sort a copy.
 */
module Firestore {
  import opened Wrappers
  import opened Types
  import opened Sequences
  import opened Sorting

  /** A worker document before the store has given it an id. */
  datatype WorkerDraft = WorkerDraft(name: string, role: WorkerRole, schedule: Schedule, pin: string)

  /** A partial worker update: present fields replace the stored ones. */
  datatype WorkerPatch = WorkerPatch(
    name: Option<string>,
    role: Option<WorkerRole>,
    schedule: Option<Schedule>,
    pin: Option<string>)

  /** An attendance-record document before the store has given it an id. */
  datatype RecordDraft = RecordDraft(
    workerId: Id,
    name: string,
    role: WorkerRole,
    shift: Shift,
    notes: string,
    timestamp: Timestamp,
    status: AttendanceStatus)

  /** updateDoc on a document that does not exist is refused by the store. */
  datatype StoreError = NotFound

  function WorkerWithId(d: WorkerDraft, id: Id): Worker {
    Worker(id, d.name, d.role, d.schedule, d.pin)
  }

  function RecordWithId(d: RecordDraft, id: Id): AttendanceRecord {
    AttendanceRecord(id, d.workerId, d.name, d.role, d.shift, d.notes, d.timestamp, d.status)
  }

  predicate UniqueWorkerIds(ws: seq<Worker>) {
    forall i, j :: 0 <= i < j < |ws| ==> ws[i].id != ws[j].id
  }

  predicate UniqueRecordIds(rs: seq<AttendanceRecord>) {
    forall i, j :: 0 <= i < j < |rs| ==> rs[i].id != rs[j].id
  }

  /** No two workers share a PIN; the store itself does not enforce this. */
  predicate PinsUnique(ws: seq<Worker>) {
    forall i, j :: 0 <= i < j < |ws| ==> ws[i].pin != ws[j].pin
  }

  /** No two workers agree on key. */
  ghost predicate DistinctBy<K>(ws: seq<Worker>, key: Worker -> K) {
    forall i, j :: 0 <= i < j < |ws| ==> key(ws[i]) != key(ws[j])
  }

  predicate HasWorker(ws: seq<Worker>, id: Id) {
    exists i :: 0 <= i < |ws| && ws[i].id == id
  }

  predicate HasRecord(rs: seq<AttendanceRecord>, id: Id) {
    exists i :: 0 <= i < |rs| && rs[i].id == id
  }

  // ---- Ordering of query results ----

  /** Lexicographic order on strings by character code, the store's string order. */
  predicate TextLe(a: string, b: string) {
    if a == [] then true
    else if b == [] then false
    else if a[0] != b[0] then a[0] < b[0]
    else TextLe(a[1..], b[1..])
  }

  lemma {:induction false} TextLeTotal(a: string, b: string)
    ensures TextLe(a, b) || TextLe(b, a)
  {
    if a != [] && b != [] && a[0] == b[0] {
      TextLeTotal(a[1..], b[1..]);
    }
  }

  lemma {:induction false} TextLeTransitive(a: string, b: string, c: string)
    requires TextLe(a, b) && TextLe(b, c)
    ensures TextLe(a, c)
  {
    if a != [] && b != [] && c != [] && a[0] == b[0] && b[0] == c[0] {
      TextLeTransitive(a[1..], b[1..], c[1..]);
    }
  }

  const ByName: (Worker, Worker) -> bool := (a: Worker, b: Worker) => TextLe(a.name, b.name)

  const NewestFirst: (AttendanceRecord, AttendanceRecord) -> bool :=
    (a: AttendanceRecord, b: AttendanceRecord) => a.timestamp >= b.timestamp

  lemma ByNameIsPreorder()
    ensures TotalPreorder(ByName)
  {
    forall x: Worker, y: Worker ensures ByName(x, y) || ByName(y, x) {
      TextLeTotal(x.name, y.name);
    }
    forall x: Worker, y: Worker, z: Worker | ByName(x, y) && ByName(y, z) ensures ByName(x, z) {
      TextLeTransitive(x.name, y.name, z.name);
    }
  }

  lemma NewestFirstIsPreorder()
    ensures TotalPreorder(NewestFirst)
  {
  }

  // ---- Specification functions of the store operations ----

  /** The first worker in query order whose PIN is pin, if any. */
  function FirstWithPin(ws: seq<Worker>, pin: string): (r: Option<Worker>)
    ensures r.None? <==> forall i :: 0 <= i < |ws| ==> ws[i].pin != pin
    ensures r.Some? ==> r.value.pin == pin && exists i :: 0 <= i < |ws| && ws[i] == r.value
                                                     && forall j :: 0 <= j < i ==> ws[j].pin != pin
  {
    if ws == [] then None
    else if ws[0].pin == pin then Some(ws[0])
    else
      var r := FirstWithPin(ws[1..], pin);
      assert r.Some? ==> exists i :: 1 <= i < |ws| && ws[i] == r.value
                                   && forall j :: 1 <= j < i ==> ws[j].pin != pin;
      r
  }

  /** When PINs are unique, the PIN lookup finds exactly the worker holding it. */
  lemma FirstWithPinUnique(ws: seq<Worker>, k: nat)
    requires PinsUnique(ws) && k < |ws|
    ensures FirstWithPin(ws, ws[k].pin) == Some(ws[k])
  {
    var r := FirstWithPin(ws, ws[k].pin);
    var i :| 0 <= i < |ws| && ws[i] == r.value && forall j :: 0 <= j < i ==> ws[j].pin != ws[k].pin;
    assert i == k;
  }

  function Patched(w: Worker, p: WorkerPatch): (v: Worker) {
    Worker(w.id, p.name.GetOr(w.name), p.role.GetOr(w.role), p.schedule.GetOr(w.schedule), p.pin.GetOr(w.pin))
  }

  /** Applies patch p to the worker with the given id, leaving every other worker alone. */
  function PatchWorker(ws: seq<Worker>, id: Id, p: WorkerPatch): (r: seq<Worker>) {
    seq(|ws|, i requires 0 <= i < |ws| => if ws[i].id == id then Patched(ws[i], p) else ws[i])
  }

  lemma PatchWorkerEffect(ws: seq<Worker>, id: Id, p: WorkerPatch)
    ensures |PatchWorker(ws, id, p)| == |ws|
    ensures forall i :: 0 <= i < |ws| && ws[i].id != id ==> PatchWorker(ws, id, p)[i] == ws[i]
    ensures forall i :: 0 <= i < |ws| && ws[i].id == id ==>
      var v := PatchWorker(ws, id, p)[i];
      && v.id == id
      && (p.name.Some? ==> v.name == p.name.value) && (p.name.None? ==> v.name == ws[i].name)
      && (p.role.Some? ==> v.role == p.role.value) && (p.role.None? ==> v.role == ws[i].role)
      && (p.schedule.Some? ==> v.schedule == p.schedule.value) && (p.schedule.None? ==> v.schedule == ws[i].schedule)
      && (p.pin.Some? ==> v.pin == p.pin.value) && (p.pin.None? ==> v.pin == ws[i].pin)
  {
  }

  /** The workers other than the one with the given id, in their original order. */
  function WithoutWorker(ws: seq<Worker>, id: Id): (r: seq<Worker>)
    ensures |r| <= |ws|
  {
    if ws == [] then []
    else WithoutWorker(ws[..|ws| - 1], id) + (if ws[|ws| - 1].id == id then [] else [ws[|ws| - 1]])
  }

  lemma {:induction false} WithoutWorkerMembers(ws: seq<Worker>, id: Id)
    ensures forall w :: w in WithoutWorker(ws, id) <==> w in ws && w.id != id
  {
    if ws != [] {
      WithoutWorkerMembers(ws[..|ws| - 1], id);
      assert ws == ws[..|ws| - 1] + [ws[|ws| - 1]];
    }
  }

  /** Deleting an id that is not stored changes nothing. */
  lemma {:induction false} WithoutAbsentWorker(ws: seq<Worker>, id: Id)
    requires !HasWorker(ws, id)
    ensures WithoutWorker(ws, id) == ws
  {
    if ws != [] {
      WithoutAbsentWorker(ws[..|ws| - 1], id);
      assert ws == ws[..|ws| - 1] + [ws[|ws| - 1]];
    }
  }

  /** Removing a worker keeps any field that was distinct across workers distinct. */
  lemma {:induction false} WithoutWorkerKeepsDistinct<K>(ws: seq<Worker>, id: Id, key: Worker -> K)
    requires DistinctBy(ws, key)
    ensures DistinctBy(WithoutWorker(ws, id), key)
  {
    if ws != [] {
      var p, w := ws[..|ws| - 1], ws[|ws| - 1];
      assert forall i :: 0 <= i < |p| ==> p[i] == ws[i];
      WithoutWorkerKeepsDistinct(p, id, key);
      WithoutWorkerMembers(p, id);
      var q := WithoutWorker(p, id);
      if w.id == id {
        assert WithoutWorker(ws, id) == q;
      } else {
        forall k | 0 <= k < |q| ensures key(q[k]) != key(w) {
          assert q[k] in q;
          var m :| 0 <= m < |p| && p[m] == q[k];
          assert ws[m] == q[k];
        }
        var r := q + [w];
        assert WithoutWorker(ws, id) == r;
        forall i, j | 0 <= i < j < |r| ensures key(r[i]) != key(r[j]) {
          if j == |q| {
            assert r[i] == q[i] && r[j] == w;
          } else {
            assert r[i] == q[i] && r[j] == q[j];
          }
        }
      }
    }
  }

  /** Removing a worker keeps ids and PINs unique where they were. */
  lemma WithoutWorkerKeepsUniqueness(ws: seq<Worker>, id: Id)
    ensures UniqueWorkerIds(ws) ==> UniqueWorkerIds(WithoutWorker(ws, id))
    ensures PinsUnique(ws) ==> PinsUnique(WithoutWorker(ws, id))
  {
    if UniqueWorkerIds(ws) {
      WithoutWorkerKeepsDistinct(ws, id, (w: Worker) => w.id);
    }
    if PinsUnique(ws) {
      WithoutWorkerKeepsDistinct(ws, id, (w: Worker) => w.pin);
    }
  }

  /** Sets the status of the record with the given id; nothing else changes. */
  function SetStatus(rs: seq<AttendanceRecord>, id: Id, s: AttendanceStatus): (r: seq<AttendanceRecord>) {
    seq(|rs|, i requires 0 <= i < |rs| => if rs[i].id == id then rs[i].(status := s) else rs[i])
  }

  lemma SetStatusOnlyStatus(rs: seq<AttendanceRecord>, id: Id, s: AttendanceStatus)
    ensures |SetStatus(rs, id, s)| == |rs|
    ensures forall i :: 0 <= i < |rs| ==> SetStatus(rs, id, s)[i].(status := rs[i].status) == rs[i]
    ensures forall i :: 0 <= i < |rs| && rs[i].id == id ==> SetStatus(rs, id, s)[i].status == s
    ensures forall i :: 0 <= i < |rs| && rs[i].id != id ==> SetStatus(rs, id, s)[i] == rs[i]
  {
  }

  lemma SetStatusIdempotent(rs: seq<AttendanceRecord>, id: Id, s: AttendanceStatus)
    ensures SetStatus(SetStatus(rs, id, s), id, s) == SetStatus(rs, id, s)
  {
  }

  // ---- The store ----

  class Store {
    var workers: seq<Worker>
    var records: seq<AttendanceRecord>
    /** Every id handed out so far is below nextId; stands for the store's fresh document ids. */
    var nextId: Id

    ghost predicate Valid()
      reads this
    {
      && (forall i :: 0 <= i < |workers| ==> workers[i].id < nextId)
      && (forall i :: 0 <= i < |records| ==> records[i].id < nextId)
      && UniqueWorkerIds(workers)
      && UniqueRecordIds(records)
    }

    constructor ()
      ensures Valid() && workers == [] && records == []
    {
      workers, records, nextId := [], [], 0;
    }

    /**
     * addWorker: stores a new worker document under a fresh id. The store's
     * ids are random, so the new document may sort anywhere in id order;
     * slot is the position it takes (past the end means last).
     */
    method AddWorker(d: WorkerDraft, slot: nat) returns (id: Id)
      requires Valid()
      modifies this
      ensures Valid()
      ensures !HasWorker(old(workers), id)
      ensures var k := if slot < |old(workers)| then slot else |old(workers)|;
        workers == old(workers)[..k] + [WorkerWithId(d, id)] + old(workers)[k..]
      ensures records == old(records)
    {
      id := nextId;
      var k := if slot < |workers| then slot else |workers|;
      var w := WorkerWithId(d, id);
      ghost var ws := workers;
      workers := workers[..k] + [w] + workers[k..];
      forall i | 0 <= i < |workers| ensures workers[i] == w || workers[i] in ws {
        if i < k {
          assert workers[i] == ws[i];
        } else if i > k {
          assert workers[i] == ws[i - 1];
        }
      }
      nextId := nextId + 1;
      forall i, j | 0 <= i < j < |workers| ensures workers[i].id != workers[j].id {
        if i < k && j > k {
          assert workers[i] == ws[i] && workers[j] == ws[j - 1];
        } else if i > k {
          assert workers[i] == ws[i - 1] && workers[j] == ws[j - 1];
        } else if j < k {
          assert workers[i] == ws[i] && workers[j] == ws[j];
        }
      }
    }

    /** getWorkers: every stored worker, in ascending name order. */
    method GetWorkers() returns (ws: seq<Worker>)
      ensures multiset(ws) == multiset(workers)
      ensures SortedBy(ws, ByName)
    {
      ByNameIsPreorder();
      ws := Sort(workers, ByName);
    }

    /** updateWorker: merges a partial update into an existing worker document. */
    method UpdateWorker(id: Id, p: WorkerPatch) returns (result: Outcome<StoreError>)
      requires Valid()
      modifies this`workers
      ensures Valid()
      ensures result == (if HasWorker(old(workers), id) then Pass else Fail(NotFound))
      ensures workers == (if result.Pass? then PatchWorker(old(workers), id, p) else old(workers))
    {
      if exists i :: 0 <= i < |workers| && workers[i].id == id {
        workers := PatchWorker(workers, id, p);
        result := Pass;
      } else {
        result := Fail(NotFound);
      }
    }

    /** deleteWorker: removes the worker document; attendance records are not touched. */
    method DeleteWorker(id: Id)
      requires Valid()
      modifies this`workers
      ensures Valid()
      ensures workers == WithoutWorker(old(workers), id)
      ensures forall w :: w in workers <==> w in old(workers) && w.id != id
    {
      WithoutWorkerMembers(workers, id);
      WithoutWorkerKeepsUniqueness(workers, id);
      workers := WithoutWorker(workers, id);
      forall i | 0 <= i < |workers| ensures workers[i].id < nextId {
        assert workers[i] in old(workers);
      }
    }

    /** getWorkerByPin: the first worker in query order with that PIN, or nothing. */
    method GetWorkerByPin(pin: string) returns (w: Option<Worker>)
      ensures w == FirstWithPin(workers, pin)
    {
      var i := 0;
      while i < |workers| && workers[i].pin != pin
        invariant 0 <= i <= |workers|
        invariant FirstWithPin(workers[i..], pin) == FirstWithPin(workers, pin)
      {
        assert workers[i..][1..] == workers[i + 1..];
        i := i + 1;
      }
      if i == |workers| {
        w := None;
      } else {
        w := Some(workers[i]);
      }
    }

    /** addAttendanceRecord: appends a record document under a fresh id. */
    method AddAttendanceRecord(d: RecordDraft) returns (id: Id)
      requires Valid()
      modifies this`records, this`nextId
      ensures Valid()
      ensures !HasRecord(old(records), id)
      ensures records == old(records) + [RecordWithId(d, id)]
    {
      id := nextId;
      records := records + [RecordWithId(d, id)];
      nextId := nextId + 1;
    }

    /** getAttendanceRecords: every stored record, newest first. */
    method GetAttendanceRecords() returns (rs: seq<AttendanceRecord>)
      ensures multiset(rs) == multiset(records)
      ensures SortedBy(rs, NewestFirst)
    {
      NewestFirstIsPreorder();
      rs := Sort(records, NewestFirst);
    }

    /** updateAttendanceStatus: writes the moderation decision into the record's status field. */
    method UpdateAttendanceStatus(id: Id, status: AttendanceStatus) returns (result: Outcome<StoreError>)
      requires Valid()
      requires status == Approved || status == Rejected
      modifies this`records
      ensures Valid()
      ensures result == (if HasRecord(old(records), id) then Pass else Fail(NotFound))
      ensures records == (if result.Pass? then SetStatus(old(records), id, status) else old(records))
    {
      if exists i :: 0 <= i < |records| && records[i].id == id {
        records := SetStatus(records, id, status);
        result := Pass;
      } else {
        result := Fail(NotFound);
      }
    }
  }
}
