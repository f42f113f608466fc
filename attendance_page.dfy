/**
 * The attendance submission page: a PIN and optional notes, submitted at
 * instant now, either refuse (unknown PIN, not scheduled today) or write one
 * pending attendance record that snapshots the worker's name, role and shift.
 */
module AttendancePage {
  import opened Wrappers
  import opened Types
  import opened Calendar
  import opened Firestore
  import opened AttendancePinForm

  /** What a submission should do, as decided from the workers in query order. */
  datatype Decision = RefuseInvalidPin | RefuseNotScheduled | Write(draft: RecordDraft)

  /** The notification the page ends with. */
  datatype SubmitOutcome = InvalidPin | NotScheduled | Submitted(id: Id) | DatabaseError

  /** Which awaited store call, if any, is rejected by the network. */
  datatype StoreFault = NoFault | LookupFails | WriteFails

  predicate ScheduledOn(w: Worker, day: DayOfWeek) {
    day in w.schedule && w.schedule[day] != OffDay
  }

  /** The decision of handleAddRecord: refusals before any write, else the record to write. */
  function Decide(ws: seq<Worker>, pin: string, notes: Option<string>, now: Timestamp): (d: Decision)
    ensures d.RefuseInvalidPin? <==> FirstWithPin(ws, pin).None?
    ensures d.Write? ==>
      && FirstWithPin(ws, pin).Some?
      && d.draft.workerId == FirstWithPin(ws, pin).value.id
      && d.draft.status == Pending && d.draft.shift != OffDay
  {
    match FirstWithPin(ws, pin)
    case None => RefuseInvalidPin
    case Some(w) =>
      var today := WeekdayOf(now);
      if !ScheduledOn(w, today) then RefuseNotScheduled
      else Write(RecordDraft(w.id, w.name, w.role, w.schedule[today], notes.GetOr(""), now, Pending))
  }

  /** A submission is refused as an invalid PIN exactly when no worker holds that PIN. */
  lemma InvalidPinExactly(ws: seq<Worker>, pin: string, notes: Option<string>, now: Timestamp)
    ensures Decide(ws, pin, notes, now) == RefuseInvalidPin <==> forall i :: 0 <= i < |ws| ==> ws[i].pin != pin
  {
  }

  /** Refused as not scheduled exactly when the matched worker is off or unscheduled today. */
  lemma NotScheduledExactly(ws: seq<Worker>, pin: string, notes: Option<string>, now: Timestamp)
    ensures Decide(ws, pin, notes, now) == RefuseNotScheduled <==>
      FirstWithPin(ws, pin).Some? && !ScheduledOn(FirstWithPin(ws, pin).value, WeekdayOf(now))
  {
  }

  /**
   * A written record is pending, stamped now, and snapshots the first worker
   * holding the PIN: its id, name, role and today's (non-off) shift; absent
   * notes become the empty string.
   */
  lemma WrittenRecordSnapshot(ws: seq<Worker>, pin: string, notes: Option<string>, now: Timestamp)
    requires Decide(ws, pin, notes, now).Write?
    ensures var d := Decide(ws, pin, notes, now).draft;
      exists i :: 0 <= i < |ws| && ws[i].pin == pin && (forall j :: 0 <= j < i ==> ws[j].pin != pin)
        && d.workerId == ws[i].id && d.name == ws[i].name && d.role == ws[i].role
        && WeekdayOf(d.timestamp) in ws[i].schedule && d.shift == ws[i].schedule[WeekdayOf(d.timestamp)]
    ensures var d := Decide(ws, pin, notes, now).draft;
      && d.status == Pending && d.timestamp == now && d.shift != OffDay
      && d.notes == (if notes.Some? then notes.value else "")
  {
  }

  /** With unique PINs, a worker who is off on today's weekday is always refused. */
  lemma OffDayRefused(ws: seq<Worker>, k: nat, notes: Option<string>, now: Timestamp)
    requires PinsUnique(ws) && k < |ws|
    requires WeekdayOf(now) in ws[k].schedule && ws[k].schedule[WeekdayOf(now)] == OffDay
    ensures Decide(ws, ws[k].pin, notes, now) == RefuseNotScheduled
  {
    FirstWithPinUnique(ws, k);
  }

  /** With unique PINs, a worker scheduled today gets a record in its own name. */
  lemma ScheduledWorkerRecorded(ws: seq<Worker>, k: nat, notes: Option<string>, now: Timestamp)
    requires PinsUnique(ws) && k < |ws|
    requires ScheduledOn(ws[k], WeekdayOf(now))
    ensures Decide(ws, ws[k].pin, notes, now).Write?
    ensures Decide(ws, ws[k].pin, notes, now).draft.workerId == ws[k].id
  {
    FirstWithPinUnique(ws, k);
  }

  /**
   * A submission the PIN form lets through never stores more than 500
   * characters of notes: the record's notes are the submitted ones, or empty.
   */
  lemma WrittenNotesBounded(ws: seq<Worker>, d: PinFormData, now: Timestamp)
    requires IsValidSubmission(d)
    requires Decide(ws, d.pin, d.notes, now).Write?
    ensures Decide(ws, d.pin, d.notes, now).draft.notes == d.notes.GetOr("")
    ensures |Decide(ws, d.pin, d.notes, now).draft.notes| <= MaxNotesLength
  {
  }

  /** handleAddRecord: the lookup, the schedule check, then at most one store write. */
  method HandleAddRecord(store: Store, pin: string, notes: Option<string>, now: Timestamp, fault: StoreFault)
    returns (outcome: SubmitOutcome)
    requires store.Valid()
    modifies store`records, store`nextId
    ensures store.Valid()
    ensures outcome == InvalidPin <==>
      fault != LookupFails && Decide(old(store.workers), pin, notes, now) == RefuseInvalidPin
    ensures outcome == NotScheduled <==>
      fault != LookupFails && Decide(old(store.workers), pin, notes, now) == RefuseNotScheduled
    ensures outcome == DatabaseError <==>
      fault == LookupFails || (fault == WriteFails && Decide(old(store.workers), pin, notes, now).Write?)
    ensures outcome.Submitted? ==>
      && Decide(old(store.workers), pin, notes, now).Write?
      && !HasRecord(old(store.records), outcome.id)
      && store.records == old(store.records) + [RecordWithId(Decide(old(store.workers), pin, notes, now).draft, outcome.id)]
    ensures !outcome.Submitted? ==> store.records == old(store.records)
  {
    if fault == LookupFails {
      return DatabaseError;
    }
    var worker := store.GetWorkerByPin(pin);
    if worker.None? {
      return InvalidPin;
    }
    var w := worker.value;
    var today := WeekdayOf(now);
    if today !in w.schedule || w.schedule[today] == OffDay {
      return NotScheduled;
    }
    var draft := RecordDraft(w.id, w.name, w.role, w.schedule[today], notes.GetOr(""), now, Pending);
    if fault == WriteFails {
      return DatabaseError;
    }
    var id := store.AddAttendanceRecord(draft);
    outcome := Submitted(id);
  }
}
