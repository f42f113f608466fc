/**
 * The shared vocabulary of the attendance system: roles, weekdays, shifts,
 * statuses, the weekly schedule, workers and attendance records, and the
 * labels under which each enumeration value is stored and shown.
 */
module Types {
  import opened Wrappers
  import opened Sequences

  datatype WorkerRole = Carer | Cook | Cleaner | Executive | Volunteer

  datatype DayOfWeek = Monday | Tuesday | Wednesday | Thursday | Friday | Saturday | Sunday

  /**
   * The shift vocabulary is not the same everywhere in the system: the shared
   * type declares Evening, while the worker edit form and the admin shift
   * badge use Night. The model keeps both so that each call site can be
   * modelled as written.
   */
  datatype Shift = Morning | Afternoon | Evening | Night | OffDay

  datatype AttendanceStatus = Pending | Approved | Rejected

  const DaysOfWeek: seq<DayOfWeek> := [Monday, Tuesday, Wednesday, Thursday, Friday, Saturday, Sunday]

  const ShiftOptions: seq<Shift> := [Morning, Afternoon, Evening, OffDay]

  /** A weekly schedule as stored; the declared type makes it total, stored data need not be. */
  type Schedule = map<DayOfWeek, Shift>

  predicate IsTotalSchedule(s: Schedule) {
    forall d: DayOfWeek :: d in s
  }

  /** Opaque document identifiers. */
  type Id = nat

  /** Milliseconds of local wall-clock time since 1970-01-01 00:00. */
  type Timestamp = int

  datatype Worker = Worker(id: Id, name: string, role: WorkerRole, schedule: Schedule, pin: string)

  datatype AttendanceRecord = AttendanceRecord(
    id: Id,
    workerId: Id,
    name: string,
    role: WorkerRole,
    shift: Shift,
    notes: string,
    timestamp: Timestamp,
    status: AttendanceStatus)

  lemma DaysOfWeekIsTheWeek()
    ensures |DaysOfWeek| == 7 && NoDuplicates(DaysOfWeek)
    ensures forall d: DayOfWeek :: d in DaysOfWeek
    ensures DaysOfWeek[0] == Monday && DaysOfWeek[6] == Sunday
  {
    forall d: DayOfWeek ensures d in DaysOfWeek {
      match d
      case Monday => assert DaysOfWeek[0] == d;
      case Tuesday => assert DaysOfWeek[1] == d;
      case Wednesday => assert DaysOfWeek[2] == d;
      case Thursday => assert DaysOfWeek[3] == d;
      case Friday => assert DaysOfWeek[4] == d;
      case Saturday => assert DaysOfWeek[5] == d;
      case Sunday => assert DaysOfWeek[6] == d;
    }
  }

  lemma ShiftOptionsOnce()
    ensures NoDuplicates(ShiftOptions)
    ensures forall s: Shift :: s in ShiftOptions <==> s != Night
    ensures OffDay in ShiftOptions
  {
  }

  lemma StatusHasThreeValues(s: AttendanceStatus)
    ensures s == Pending || s == Approved || s == Rejected
  {
  }

  lemma RoleHasFiveValues(r: WorkerRole)
    ensures r in {Carer, Cook, Cleaner, Executive, Volunteer}
  {
  }

  // Labels: the strings under which the enumerations are stored and submitted.

  function RoleLabel(r: WorkerRole): string {
    match r
    case Carer => "Carer"
    case Cook => "Cook"
    case Cleaner => "Cleaner"
    case Executive => "Executive"
    case Volunteer => "Volunteer"
  }

  function ParseRole(s: string): (r: Option<WorkerRole>)
    ensures r.Some? ==> RoleLabel(r.value) == s
  {
    if s == "Carer" then Some(Carer)
    else if s == "Cook" then Some(Cook)
    else if s == "Cleaner" then Some(Cleaner)
    else if s == "Executive" then Some(Executive)
    else if s == "Volunteer" then Some(Volunteer)
    else None
  }

  lemma RoleLabelRoundTrip(r: WorkerRole)
    ensures ParseRole(RoleLabel(r)) == Some(r)
  {
  }

  function DayLabel(d: DayOfWeek): string {
    match d
    case Monday => "Monday"
    case Tuesday => "Tuesday"
    case Wednesday => "Wednesday"
    case Thursday => "Thursday"
    case Friday => "Friday"
    case Saturday => "Saturday"
    case Sunday => "Sunday"
  }

  lemma DayLabelInjective(d: DayOfWeek, e: DayOfWeek)
    ensures DayLabel(d) == DayLabel(e) ==> d == e
  {
  }

  function ShiftLabel(s: Shift): string {
    match s
    case Morning => "Morning"
    case Afternoon => "Afternoon"
    case Evening => "Evening"
    case Night => "Night"
    case OffDay => "Off Day"
  }

  function ParseShift(text: string): (r: Option<Shift>)
    ensures r.Some? ==> ShiftLabel(r.value) == text
  {
    if text == "Morning" then Some(Morning)
    else if text == "Afternoon" then Some(Afternoon)
    else if text == "Evening" then Some(Evening)
    else if text == "Night" then Some(Night)
    else if text == "Off Day" then Some(OffDay)
    else None
  }

  lemma ShiftLabelRoundTrip(s: Shift)
    ensures ParseShift(ShiftLabel(s)) == Some(s)
  {
  }
}
