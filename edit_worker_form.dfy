/**
 * The worker edit form: the schedule schema built day by day, the field
 * rules (name length, role, four-digit PIN, a shift for every day), and the
 * submit handler's check that no other worker already holds the PIN.
 */
module EditWorkerForm {
  import opened Wrappers
  import opened Sequences
  import opened Types
  import opened Firestore
  import opened AttendancePinForm

  /** The shift labels this form offers for every day; note Night, not Evening. */
  const EditShiftLabels: seq<string> := ["Morning", "Afternoon", "Night", "Off Day"]

  /** scheduleSchema: for each weekday, the labels accepted for it. */
  type ScheduleSchema = map<DayOfWeek, seq<string>>

  predicate IsEditSchema(schema: ScheduleSchema) {
    forall d: DayOfWeek :: d in schema && schema[d] == EditShiftLabels
  }

  /** The reduce over daysOfWeek that assigns every day the same shift enumeration. */
  method BuildScheduleSchema() returns (schema: ScheduleSchema)
    ensures IsEditSchema(schema)
  {
    schema := map[];
    var i := 0;
    while i < |DaysOfWeek|
      invariant 0 <= i <= |DaysOfWeek|
      invariant forall d :: d in schema <==> d in DaysOfWeek[..i]
      invariant forall d :: d in schema ==> schema[d] == EditShiftLabels
    {
      schema := schema[DaysOfWeek[i] := EditShiftLabels];
      i := i + 1;
    }
    DaysOfWeekIsTheWeek();
    assert DaysOfWeek[..i] == DaysOfWeek;
  }

  /** The form's raw values: role and shifts are labels, the schedule is keyed by day name. */
  datatype WorkerFormInput = WorkerFormInput(name: string, role: string, pin: string, schedule: map<string, string>)

  /** The values the schema lets through. */
  datatype WorkerFormData = WorkerFormData(name: string, role: WorkerRole, pin: string, schedule: Schedule)

  datatype FormField = NameField | RoleField | PinField | ShiftField(day: DayOfWeek)

  const MinNameLength: nat := 2
  const MaxNameLength: nat := 50

  predicate NameOk(name: string) {
    MinNameLength <= |name| <= MaxNameLength
  }

  predicate ShiftOk(schema: ScheduleSchema, raw: map<string, string>, d: DayOfWeek)
    requires d in schema
  {
    DayLabel(d) in raw && raw[DayLabel(d)] in schema[d] && ParseShift(raw[DayLabel(d)]).Some?
  }

  predicate ScheduleOk(schema: ScheduleSchema, raw: map<string, string>) {
    forall d :: d in schema ==> ShiftOk(schema, raw, d)
  }

  /** Every field the schema refuses. */
  function FormErrors(schema: ScheduleSchema, input: WorkerFormInput): set<FormField> {
    (if NameOk(input.name) then {} else {NameField})
    + (if ParseRole(input.role).Some? then {} else {RoleField})
    + (if IsFourDigitPin(input.pin) then {} else {PinField})
    + (set d | d in schema && !ShiftOk(schema, input.schedule, d) :: ShiftField(d))
  }

  /** workerSchema: the parsed form, or the fields it refuses. */
  function ValidateWorkerForm(schema: ScheduleSchema, input: WorkerFormInput): Result<WorkerFormData, set<FormField>> {
    if NameOk(input.name) && ParseRole(input.role).Some? && IsFourDigitPin(input.pin) && ScheduleOk(schema, input.schedule) then
      Success(WorkerFormData(
        input.name,
        ParseRole(input.role).value,
        input.pin,
        map d | d in schema :: ParseShift(input.schedule[DayLabel(d)]).value))
    else
      Failure(FormErrors(schema, input))
  }

  /** The form is refused exactly when some field is in error, and then every erroneous field is reported. */
  lemma RefusedIffErrors(schema: ScheduleSchema, input: WorkerFormInput)
    ensures ValidateWorkerForm(schema, input).Success? <==> FormErrors(schema, input) == {}
    ensures ValidateWorkerForm(schema, input).Failure? ==> ValidateWorkerForm(schema, input).error == FormErrors(schema, input)
  {
    if !ScheduleOk(schema, input.schedule) {
      var d :| d in schema && !ShiftOk(schema, input.schedule, d);
      assert ShiftField(d) in FormErrors(schema, input);
    }
  }

  /** The schema accepts exactly inputs meeting every rule, and then yields a complete, parsed schedule. */
  lemma ValidationRules(schema: ScheduleSchema, input: WorkerFormInput)
    requires IsEditSchema(schema)
    ensures ValidateWorkerForm(schema, input).Success? <==>
      && 2 <= |input.name| <= 50
      && input.role in {"Carer", "Cook", "Cleaner", "Executive", "Volunteer"}
      && |input.pin| == 4 && (forall i :: 0 <= i < 4 ==> '0' <= input.pin[i] <= '9')
      && forall d: DayOfWeek :: DayLabel(d) in input.schedule
                               && input.schedule[DayLabel(d)] in {"Morning", "Afternoon", "Night", "Off Day"}
    ensures ValidateWorkerForm(schema, input).Success? ==>
      var f := ValidateWorkerForm(schema, input).value;
      && IsTotalSchedule(f.schedule)
      && (forall d: DayOfWeek :: f.schedule[d] != Evening && ShiftLabel(f.schedule[d]) == input.schedule[DayLabel(d)])
      && RoleLabel(f.role) == input.role && f.name == input.name && f.pin == input.pin
  {
    var raw := input.schedule;
    forall d: DayOfWeek
      ensures ShiftOk(schema, raw, d) <==>
        DayLabel(d) in raw && raw[DayLabel(d)] in {"Morning", "Afternoon", "Night", "Off Day"}
    {
      if DayLabel(d) in raw && raw[DayLabel(d)] in {"Morning", "Afternoon", "Night", "Off Day"} {
        var v := raw[DayLabel(d)];
        assert v in EditShiftLabels;
        assert ParseShift(v).Some?;
      }
    }
    if ValidateWorkerForm(schema, input).Success? {
      var f := ValidateWorkerForm(schema, input).value;
      forall d: DayOfWeek ensures f.schedule[d] != Evening {
        assert raw[DayLabel(d)] in EditShiftLabels;
      }
    }
  }

  /** The raw schedule field values of a complete schedule, keyed by day name. */
  function RawSchedule(s: Schedule): map<string, string>
    requires IsTotalSchedule(s)
  {
    map[
      DayLabel(Monday) := ShiftLabel(s[Monday]), DayLabel(Tuesday) := ShiftLabel(s[Tuesday]),
      DayLabel(Wednesday) := ShiftLabel(s[Wednesday]), DayLabel(Thursday) := ShiftLabel(s[Thursday]),
      DayLabel(Friday) := ShiftLabel(s[Friday]), DayLabel(Saturday) := ShiftLabel(s[Saturday]),
      DayLabel(Sunday) := ShiftLabel(s[Sunday])]
  }

  lemma RawScheduleAt(s: Schedule, d: DayOfWeek)
    requires IsTotalSchedule(s)
    ensures DayLabel(d) in RawSchedule(s) && RawSchedule(s)[DayLabel(d)] == ShiftLabel(s[d])
  {
  }

  /** How a worker's values appear in the form's fields. */
  function FormInputOf(f: WorkerFormData): WorkerFormInput
    requires IsTotalSchedule(f.schedule)
  {
    WorkerFormInput(f.name, RoleLabel(f.role), f.pin, RawSchedule(f.schedule))
  }

  /** Form values that meet the rules survive the schema unchanged. */
  lemma ValidFormRoundTrip(schema: ScheduleSchema, f: WorkerFormData)
    requires IsEditSchema(schema)
    requires NameOk(f.name) && IsFourDigitPin(f.pin) && IsTotalSchedule(f.schedule)
    requires forall d: DayOfWeek :: f.schedule[d] != Evening
    ensures ValidateWorkerForm(schema, FormInputOf(f)) == Success(f)
  {
    var input := FormInputOf(f);
    forall d | d in schema ensures ShiftOk(schema, input.schedule, d) {
      RawScheduleAt(f.schedule, d);
      ShiftLabelRoundTrip(f.schedule[d]);
    }
    RoleLabelRoundTrip(f.role);
    var s := map d | d in schema :: ParseShift(input.schedule[DayLabel(d)]).value;
    forall d: DayOfWeek ensures d in s && s[d] == f.schedule[d] {
      RawScheduleAt(f.schedule, d);
      ShiftLabelRoundTrip(f.schedule[d]);
    }
    assert s == f.schedule;
  }

  /**
   * The vocabulary clash: a worker whose schedule uses the shared type's
   * Evening shift cannot be saved through this form unchanged.
   */
  lemma EveningRefused(schema: ScheduleSchema, f: WorkerFormData, d: DayOfWeek)
    requires IsEditSchema(schema) && IsTotalSchedule(f.schedule)
    requires f.schedule[d] == Evening
    ensures ValidateWorkerForm(schema, FormInputOf(f)) == Failure(FormErrors(schema, FormInputOf(f)))
    ensures ShiftField(d) in FormErrors(schema, FormInputOf(f))
  {
    var input := FormInputOf(f);
    RawScheduleAt(f.schedule, d);
    assert !ShiftOk(schema, input.schedule, d);
  }

  // ---- PIN uniqueness on submit ----

  /** workers.some(w => w.id !== worker.id && w.pin === pin) */
  predicate IsPinTaken(ws: seq<Worker>, selfId: Id, pin: string) {
    exists i :: 0 <= i < |ws| && ws[i].id != selfId && ws[i].pin == pin
  }

  /** With unique PINs, a worker keeping its own PIN never conflicts. */
  lemma OwnPinNeverTaken(ws: seq<Worker>, k: nat)
    requires PinsUnique(ws) && k < |ws|
    ensures !IsPinTaken(ws, ws[k].id, ws[k].pin)
  {
    forall i | 0 <= i < |ws| && ws[i].pin == ws[k].pin ensures ws[i].id == ws[k].id {
      assert i == k;
    }
  }

  /** The worker onSubmit receives: { ...worker, ...data }, same id, every form field replaced. */
  function Edited(w: Worker, f: WorkerFormData): Worker {
    Worker(w.id, f.name, f.role, f.schedule, f.pin)
  }

  /** The partial update handleUpdateWorker sends for an edited worker: every field. */
  function FullPatch(w: Worker): WorkerPatch {
    WorkerPatch(Some(w.name), Some(w.role), Some(w.schedule), Some(w.pin))
  }

  /** Saving an edit that passed the check keeps the stored PINs unique. */
  lemma SavedEditKeepsPinsUnique(ws: seq<Worker>, w: Worker, f: WorkerFormData)
    requires UniqueWorkerIds(ws) && PinsUnique(ws)
    requires !IsPinTaken(ws, w.id, f.pin)
    ensures PinsUnique(PatchWorker(ws, w.id, FullPatch(Edited(w, f))))
  {
    var r := PatchWorker(ws, w.id, FullPatch(Edited(w, f)));
    forall i, j | 0 <= i < j < |r| ensures r[i].pin != r[j].pin {
      if ws[i].id == w.id {
        assert ws[j].id != w.id;
      } else if ws[j].id == w.id {
        assert r[j].pin == f.pin;
      }
    }
  }

  /** PIN Already Exists from the form; Failed to update worker from the admin page's handler. */
  datatype EditError = PinAlreadyExists | UpdateFailed

  /** handleSubmit: reads every worker, refuses a PIN another worker holds, else hands on the edited worker. */
  method HandleSubmit(store: Store, worker: Worker, f: WorkerFormData) returns (r: Result<Worker, EditError>)
    ensures r == (if IsPinTaken(store.workers, worker.id, f.pin) then Failure(PinAlreadyExists) else Success(Edited(worker, f)))
  {
    var ws := store.GetWorkers();
    assert forall w :: w in ws <==> w in store.workers by {
      forall w ensures w in ws <==> w in store.workers {
        assert w in ws <==> w in multiset(ws);
      }
    }
    var taken := exists i :: 0 <= i < |ws| && ws[i].id != worker.id && ws[i].pin == f.pin;
    assert taken == IsPinTaken(store.workers, worker.id, f.pin) by {
      if taken {
        var i :| 0 <= i < |ws| && ws[i].id != worker.id && ws[i].pin == f.pin;
        assert ws[i] in store.workers;
      }
      if IsPinTaken(store.workers, worker.id, f.pin) {
        var i :| 0 <= i < |store.workers| && store.workers[i].id != worker.id && store.workers[i].pin == f.pin;
        assert store.workers[i] in ws;
      }
    }
    if taken {
      r := Failure(PinAlreadyExists);
    } else {
      r := Success(Edited(worker, f));
    }
  }

  /**
   * handleSubmit followed by the admin page's onSubmit (handleUpdateWorker):
   * a refused edit writes nothing; an accepted one overwrites every field of
   * the stored worker, or fails if that worker is no longer stored. Stored
   * PINs that were unique stay unique.
   */
  method SaveEdit(store: Store, worker: Worker, f: WorkerFormData) returns (r: Result<Worker, EditError>)
    requires store.Valid()
    modifies store`workers
    ensures store.Valid()
    ensures old(PinsUnique(store.workers)) ==> PinsUnique(store.workers)
    ensures r == Failure(PinAlreadyExists) <==> IsPinTaken(old(store.workers), worker.id, f.pin)
    ensures r == Failure(UpdateFailed) <==>
      !IsPinTaken(old(store.workers), worker.id, f.pin) && !HasWorker(old(store.workers), worker.id)
    ensures r.Failure? ==> store.workers == old(store.workers)
    ensures r.Success? ==>
      && r.value == Edited(worker, f)
      && store.workers == PatchWorker(old(store.workers), worker.id, FullPatch(Edited(worker, f)))
  {
    r := HandleSubmit(store, worker, f);
    if r.Success? {
      if PinsUnique(store.workers) {
        SavedEditKeepsPinsUnique(store.workers, worker, f);
      }
      var saved := store.UpdateWorker(worker.id, FullPatch(r.value));
      if saved.Fail? {
        r := Failure(UpdateFailed);
      }
    }
  }
}
