/** Dates and times as the modelled code sees them, without time zones.

    An instant is a day number and a second within that day. The day number
    is the proleptic Gregorian ordinal of Python's `date.toordinal()`
    (0001-01-01 is day 1, a Monday), so the weekday is computed as Python
    does it. Sub-second parts are not modelled: every instant is a whole
    second. */
module Clock {

  const SecondsPerDay: int := 86400
  const SecondsPerHour: int := 3600

  type SecondOfDay = s: int | 0 <= s < SecondsPerDay

  datatype Instant = Instant(day: int, sec: SecondOfDay)

  type Hour = h: int | 0 <= h < 24
  type Minute = m: int | 0 <= m < 60

  /** A `datetime.time` value (a `TimeField`). */
  datatype ClockTime = ClockTime(hour: Hour, minute: Minute, second: Minute)

  /** Seconds since the start of day 0; instants compare as their ticks. */
  function Ticks(t: Instant): int
  {
    t.day * SecondsPerDay + t.sec
  }

  function FromTicks(n: int): (t: Instant)
    ensures Ticks(t) == n
  {
    Instant(n / SecondsPerDay, n % SecondsPerDay)
  }

  lemma {:induction false} TicksInjective(a: Instant, b: Instant)
    requires Ticks(a) == Ticks(b)
    ensures a == b
  {
  }

  lemma {:induction false} FromTicksOfTicks(t: Instant)
    ensures FromTicks(Ticks(t)) == t
  {
    TicksInjective(FromTicks(Ticks(t)), t);
  }

  predicate Before(a: Instant, b: Instant) { Ticks(a) < Ticks(b) }

  /** `t + timedelta(seconds=n)`. */
  function AddSeconds(t: Instant, n: int): (r: Instant)
    ensures Ticks(r) == Ticks(t) + n
  {
    FromTicks(Ticks(t) + n)
  }

  /** `t + timedelta(days=n)`: same time of day, `n` days on. */
  function AddDays(t: Instant, n: int): (r: Instant)
    ensures Ticks(r) == Ticks(t) + n * SecondsPerDay
  {
    Instant(t.day + n, t.sec)
  }

  lemma {:induction false} AddDaysIsAddSeconds(t: Instant, n: int)
    ensures AddDays(t, n) == AddSeconds(t, n * SecondsPerDay)
  {
    TicksInjective(AddDays(t, n), AddSeconds(t, n * SecondsPerDay));
  }

  /** `date.weekday()`: Monday is 0 and Sunday is 6. */
  function Weekday(day: int): (w: int)
    ensures 0 <= w < 7
  {
    (day + 6) % 7
  }

  lemma {:induction false} WeekdayPeriodic(day: int)
    ensures Weekday(day + 7) == Weekday(day)
    ensures Weekday(day + 1) == (Weekday(day) + 1) % 7
  {
  }

  /** `t.hour`. */
  function HourOf(t: Instant): (h: Hour)
  {
    t.sec / SecondsPerHour
  }

  /** `t.replace(hour=h, minute=0, second=0)`. */
  function AtHour(t: Instant, h: Hour): (r: Instant)
    ensures r.day == t.day && HourOf(r) == h
  {
    Instant(t.day, h * SecondsPerHour)
  }

  /** `t.hour < h` compares the second of day with the start of hour `h`. */
  lemma {:induction false} HourBelow(t: Instant, h: Hour)
    ensures HourOf(t) < h <==> t.sec < h * SecondsPerHour
  {
  }
}
