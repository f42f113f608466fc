/**
 * Calendar arithmetic on local wall-clock timestamps: the calendar-day key
 * (shown as yyyy-MM-dd), the weekday name and the time of day. The day key
 * is the number of whole days since 1970-01-01; it orders days exactly as
 * their yyyy-MM-dd strings do.
 */
module Calendar {
  import opened Types

  const MsPerMinute: int := 60_000
  const MsPerDay: int := 86_400_000

  type DayKey = int

  function DayKeyOf(t: Timestamp): DayKey {
    t / MsPerDay
  }

  /** 1970-01-01 was a Thursday, the fourth entry of the Monday-first week. */
  function WeekdayOf(t: Timestamp): DayOfWeek {
    DaysOfWeek[(DayKeyOf(t) + 3) % 7]
  }

  datatype ClockTime = ClockTime(hour: nat, minute: nat)

  function ClockTimeOf(t: Timestamp): (c: ClockTime)
    ensures c.hour < 24 && c.minute < 60
    ensures DayKeyOf(t) * MsPerDay + (c.hour * 60 + c.minute) * MsPerMinute <= t
    ensures t < DayKeyOf(t) * MsPerDay + (c.hour * 60 + c.minute + 1) * MsPerMinute
  {
    var m := (t % MsPerDay) / MsPerMinute;
    ClockTime(m / 60, m % 60)
  }

  /** The day key of t names the day whose midnight-to-midnight span holds t. */
  lemma DayKeySpan(t: Timestamp)
    ensures DayKeyOf(t) * MsPerDay <= t < (DayKeyOf(t) + 1) * MsPerDay
  {
  }

  /** A later instant never falls on an earlier day. */
  lemma DayKeyMonotone(t1: Timestamp, t2: Timestamp)
    requires t1 <= t2
    ensures DayKeyOf(t1) <= DayKeyOf(t2)
  {
    DayKeySpan(t1);
    DayKeySpan(t2);
  }

  lemma EpochIsThursday()
    ensures WeekdayOf(0) == Thursday
  {
  }

  /** Instants on the same calendar day share its weekday. */
  lemma SameDaySameWeekday(t1: Timestamp, t2: Timestamp)
    requires DayKeyOf(t1) == DayKeyOf(t2)
    ensures WeekdayOf(t1) == WeekdayOf(t2)
  {
  }

  /** The weekday repeats every seven days. */
  lemma WeekdayWeekly(t: Timestamp)
    ensures WeekdayOf(t + 7 * MsPerDay) == WeekdayOf(t)
  {
    assert DayKeyOf(t + 7 * MsPerDay) == DayKeyOf(t) + 7;
  }
}
