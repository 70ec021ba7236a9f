/** Business-time arithmetic of core/utils/helpers.py: the business seconds
    between two instants (Monday to Friday, 09:00 to 18:00) and the estimated
    closing date of a ticket from its service and priority.

    Durations are whole seconds. The source answers business time in
    fractional hours (`seconds / 3600`); the model answers the seconds, from
    which the hours follow exactly. */
module BusinessTime {
  import opened Text
  import opened Clock
  import opened Models

  const OpeningHour: Hour := 9
  const ClosingHour: Hour := 18
  const OpeningSecond: int := OpeningHour * SecondsPerHour
  const ClosingSecond: int := ClosingHour * SecondsPerHour
  /** Nine hours: the most one day can contribute. */
  const WorkdaySeconds: int := ClosingSecond - OpeningSecond

  function Max(a: int, b: int): int { if a < b then b else a }
  function Min(a: int, b: int): int { if a < b then a else b }

  /** The interval, in ticks, that day `d`'s window 09:00-18:00 has in
      common with [s, e); empty when its low end is not below its high end. */
  function Segment(d: int, s: int, e: int): (int, int)
  {
    (Max(s, d * SecondsPerDay + OpeningSecond), Min(e, d * SecondsPerDay + ClosingSecond))
  }

  /** What day `d` adds to the business time between ticks `s` and `e`. */
  function DayContribution(d: int, s: int, e: int): (r: int)
    ensures 0 <= r <= WorkdaySeconds
    ensures Weekday(d) >= 5 ==> r == 0
    ensures r > 0 ==> s <= Segment(d, s, e).0 && Segment(d, s, e).1 <= e
    ensures r > 0 ==> r == Segment(d, s, e).1 - Segment(d, s, e).0
  {
    var (lo, hi) := Segment(d, s, e);
    if Weekday(d) < 5 && lo < hi then hi - lo else 0
  }

  /** The contributions of the days d0 .. d1 - 1. */
  function SumDays(d0: int, d1: int, s: int, e: int): (r: int)
    ensures r >= 0
    decreases d1 - d0
  {
    if d1 <= d0 then 0 else SumDays(d0, d1 - 1, s, e) + DayContribution(d1 - 1, s, e)
  }

  /** The business seconds between two instants: the contributions of every
      day from the start's day to the end's day. */
  function BusinessSeconds(start: Instant, end: Instant): int
  {
    SumDays(start.day, end.day + 1, Ticks(start), Ticks(end))
  }

  /** The number of Monday-to-Friday days among d0 .. d1 - 1. */
  function WeekdaysBetween(d0: int, d1: int): (n: nat)
    decreases d1 - d0
  {
    if d1 <= d0 then 0 else WeekdaysBetween(d0, d1 - 1) + (if Weekday(d1 - 1) < 5 then 1 else 0)
  }

  /** `get_business_hours_diff(start_date, end_date)`: walks day by day from
      the start, adding the part of each weekday's 09:00-18:00 window that
      lies between the two instants. */
  method BusinessHoursDiff(start: Instant, end: Instant) returns (seconds: int)
    ensures seconds == BusinessSeconds(start, end)
  {
    seconds := 0;
    var current := start;
    while Before(current, end)
      invariant current == start || (start.day < current.day <= end.day + 1 && current.sec == OpeningSecond)
      invariant seconds == SumDays(start.day, current.day, Ticks(start), Ticks(end))
      decreases Ticks(end) - Ticks(current)
    {
      var added := WeekdayPortion(current, end);
      ContributionFromCurrent(start, end, current);
      seconds := seconds + added;
      current := AtHour(AddDays(current, 1), OpeningHour);
      if !Before(current, end) {
        break;
      }
    }
    LoopExit(start, end, current);
  }

  /** One pass of the loop body: on a weekday, the part of the 09:00-18:00
      window of `current`'s day that lies between `current` and `end`. */
  method WeekdayPortion(current: Instant, end: Instant) returns (added: int)
    ensures added == DayContribution(current.day, Ticks(current), Ticks(end))
  {
    added := 0;
    if Weekday(current.day) < 5 {
      var startOfDay := AtHour(current, OpeningHour);
      var endOfDay := AtHour(current, ClosingHour);
      if Before(startOfDay, current) {
        startOfDay := current;
      }
      if Before(end, endOfDay) {
        endOfDay := end;
      }
      HourBelow(startOfDay, ClosingHour);
      if Before(startOfDay, endOfDay) && HourOf(startOfDay) < ClosingHour {
        added := Ticks(endOfDay) - Ticks(startOfDay);
      }
      OneDayMatchesContribution(end, current, startOfDay, endOfDay, added);
    }
  }

  /** Every instant the walk visits sees the same window as the start: the
      start itself, or the opening of a later day. */
  lemma {:induction false} ContributionFromCurrent(start: Instant, end: Instant, current: Instant)
    requires current == start || (start.day < current.day && current.sec == OpeningSecond)
    ensures DayContribution(current.day, Ticks(current), Ticks(end)) == DayContribution(current.day, Ticks(start), Ticks(end))
  {
    if current != start {
      assert Ticks(start) < current.day * SecondsPerDay;
      assert Segment(current.day, Ticks(current), Ticks(end)) == Segment(current.day, Ticks(start), Ticks(end));
    }
  }

  /** When the walk stops, the days it visited are all the days that count. */
  lemma {:induction false} LoopExit(start: Instant, end: Instant, current: Instant)
    requires current == start || (start.day < current.day <= end.day + 1 && current.sec == OpeningSecond)
    requires !Before(current, end)
    ensures SumDays(start.day, current.day, Ticks(start), Ticks(end)) == BusinessSeconds(start, end)
  {
    if current == start {
      SumDaysEmptyInterval(start.day, end.day + 1, Ticks(start), Ticks(end));
    } else {
      SumDaysTail(start.day, current.day, end.day + 1, Ticks(start), Ticks(end));
    }
  }

  /** On a weekday, the clamped window the loop body computes is that
      day's contribution. */
  lemma {:induction false} OneDayMatchesContribution(end: Instant, current: Instant, startOfDay: Instant, endOfDay: Instant, added: int)
    requires Weekday(current.day) < 5
    requires Ticks(startOfDay) == Max(Ticks(current), current.day * SecondsPerDay + OpeningSecond) && startOfDay.day == current.day
    requires Ticks(endOfDay) == Min(Ticks(end), current.day * SecondsPerDay + ClosingSecond)
    requires added == if Ticks(startOfDay) < Ticks(endOfDay) && startOfDay.sec < ClosingSecond then Ticks(endOfDay) - Ticks(startOfDay) else 0
    ensures added == DayContribution(current.day, Ticks(current), Ticks(end))
  {
  }

  /** Days whose opening is at or after `e` add nothing. */
  lemma {:induction false} SumDaysTail(d0: int, d: int, d1: int, s: int, e: int)
    requires d0 <= d <= d1
    requires d * SecondsPerDay + OpeningSecond >= e
    ensures SumDays(d0, d1, s, e) == SumDays(d0, d, s, e)
    decreases d1 - d
  {
    if d1 > d {
      SumDaysTail(d0, d, d1 - 1, s, e);
    }
  }

  /** Nothing is counted between an instant and one not after it. */
  lemma {:induction false} SumDaysEmptyInterval(d0: int, d1: int, s: int, e: int)
    requires s >= e
    ensures SumDays(d0, d1, s, e) == 0
    decreases d1 - d0
  {
    if d1 > d0 {
      SumDaysEmptyInterval(d0, d1 - 1, s, e);
    }
  }

  lemma {:induction false} BusinessSecondsZeroUnlessBefore(start: Instant, end: Instant)
    requires !Before(start, end)
    ensures BusinessSeconds(start, end) == 0
  {
    SumDaysEmptyInterval(start.day, end.day + 1, Ticks(start), Ticks(end));
  }

  /** The days d0 .. d1 - 1 together add no more than the part of [s, e)
      that falls within them. */
  lemma {:induction false} SumDaysWithinSpan(d0: int, d1: int, s: int, e: int)
    requires d0 <= d1
    ensures SumDays(d0, d1, s, e) <= Max(0, Min(e, d1 * SecondsPerDay) - Max(s, d0 * SecondsPerDay))
    decreases d1 - d0
  {
    if d1 > d0 {
      SumDaysWithinSpan(d0, d1 - 1, s, e);
      assert (d1 - 1) * SecondsPerDay + SecondsPerDay == d1 * SecondsPerDay;
    }
  }

  /** Business time is never negative and never more than the time elapsed. */
  lemma {:induction false} BusinessSecondsBounds(start: Instant, end: Instant)
    ensures 0 <= BusinessSeconds(start, end)
    ensures BusinessSeconds(start, end) <= Max(0, Ticks(end) - Ticks(start))
  {
    if start.day <= end.day + 1 {
      SumDaysWithinSpan(start.day, end.day + 1, Ticks(start), Ticks(end));
    }
  }

  /** Only Monday to Friday count, nine hours at most each. */
  lemma {:induction false} SumDaysPerWeekday(d0: int, d1: int, s: int, e: int)
    ensures SumDays(d0, d1, s, e) <= WorkdaySeconds * WeekdaysBetween(d0, d1)
    decreases d1 - d0
  {
    if d1 > d0 {
      SumDaysPerWeekday(d0, d1 - 1, s, e);
    }
  }

  lemma {:induction false} BusinessSecondsPerWeekday(start: Instant, end: Instant)
    ensures BusinessSeconds(start, end) <= WorkdaySeconds * WeekdaysBetween(start.day, end.day + 1)
  {
    SumDaysPerWeekday(start.day, end.day + 1, Ticks(start), Ticks(end));
  }

  /** Two days that both contribute count disjoint pieces of [s, e): the
      earlier day's segment ends before the later day's begins, so together
      they add less than the time elapsed. */
  lemma {:induction false} SegmentsDisjoint(d: int, d': int, s: int, e: int)
    requires d < d'
    ensures DayContribution(d, s, e) > 0 && DayContribution(d', s, e) > 0 ==>
      Segment(d, s, e).1 < Segment(d', s, e).0 && DayContribution(d, s, e) + DayContribution(d', s, e) < e - s
  {
    assert d * SecondsPerDay + ClosingSecond < d' * SecondsPerDay + OpeningSecond by {
      assert d * SecondsPerDay + SecondsPerDay <= d' * SecondsPerDay;
    }
  }

  /** Splitting [s, e) at m splits each day's contribution. */
  lemma {:induction false} DayContributionAdditive(d: int, s: int, m: int, e: int)
    requires s <= m <= e
    ensures DayContribution(d, s, e) == DayContribution(d, s, m) + DayContribution(d, m, e)
  {
  }

  lemma {:induction false} SumDaysAdditive(d0: int, d1: int, s: int, m: int, e: int)
    requires s <= m <= e
    ensures SumDays(d0, d1, s, e) == SumDays(d0, d1, s, m) + SumDays(d0, d1, m, e)
    decreases d1 - d0
  {
    if d1 > d0 {
      SumDaysAdditive(d0, d1 - 1, s, m, e);
      DayContributionAdditive(d1 - 1, s, m, e);
    }
  }

  lemma {:induction false} SumDaysSplit(d0: int, k: int, d1: int, s: int, e: int)
    requires d0 <= k <= d1
    ensures SumDays(d0, d1, s, e) == SumDays(d0, k, s, e) + SumDays(k, d1, s, e)
    decreases d1 - k
  {
    if d1 > k {
      SumDaysSplit(d0, k, d1 - 1, s, e);
    }
  }

  /** Days that begin at or after `e` add nothing. */
  lemma {:induction false} LaterDaysAddNothing(k: int, d1: int, s: int, e: int)
    requires e <= k * SecondsPerDay
    ensures SumDays(k, d1, s, e) == 0
    decreases d1 - k
  {
    if d1 > k {
      LaterDaysAddNothing(k, d1 - 1, s, e);
      assert k * SecondsPerDay <= (d1 - 1) * SecondsPerDay;
    }
  }

  /** Days that end at or before `s` add nothing. */
  lemma {:induction false} EarlierDaysAddNothing(d0: int, k: int, s: int, e: int)
    requires k * SecondsPerDay <= s
    ensures SumDays(d0, k, s, e) == 0
    decreases k - d0
  {
    if k > d0 {
      assert (k - 1) * SecondsPerDay + SecondsPerDay <= s;
      EarlierDaysAddNothing(d0, k - 1, s, e);
    }
  }

  /** An instant not after another is on the same day or an earlier one. */
  lemma {:induction false} DayMonotone(a: Instant, b: Instant)
    requires Ticks(a) <= Ticks(b)
    ensures a.day <= b.day
  {
    assert a.day * SecondsPerDay <= Ticks(a) <= Ticks(b) < (b.day + 1) * SecondsPerDay;
  }

  /** Dropping the days that begin at or after `e`. */
  lemma {:induction false} SumDaysDropLater(d0: int, k: int, d1: int, s: int, e: int)
    requires d0 <= k <= d1 && e <= k * SecondsPerDay
    ensures SumDays(d0, d1, s, e) == SumDays(d0, k, s, e)
  {
    SumDaysSplit(d0, k, d1, s, e);
    LaterDaysAddNothing(k, d1, s, e);
  }

  /** Dropping the days that end at or before `s`. */
  lemma {:induction false} SumDaysDropEarlier(d0: int, k: int, d1: int, s: int, e: int)
    requires d0 <= k <= d1 && k * SecondsPerDay <= s
    ensures SumDays(d0, d1, s, e) == SumDays(k, d1, s, e)
  {
    SumDaysSplit(d0, k, d1, s, e);
    EarlierDaysAddNothing(d0, k, s, e);
  }

  /** Splitting [s, e) at m, where m falls on day dm: the days up to dm
      carry [s, m) and the days from dm carry [m, e). */
  lemma {:induction false} SumDaysSplitAt(da: int, dm: int, db: int, s: int, m: int, e: int)
    requires da <= dm <= db && s <= m <= e
    requires dm * SecondsPerDay <= m <= (dm + 1) * SecondsPerDay
    ensures SumDays(da, db + 1, s, e) == SumDays(da, dm + 1, s, m) + SumDays(dm, db + 1, m, e)
  {
    SumDaysAdditive(da, db + 1, s, m, e);
    SumDaysDropLater(da, dm + 1, db + 1, s, m);
    SumDaysDropEarlier(da, dm, db + 1, m, e);
  }

  /** Business time is additive: the time from a to b is the time from a to
      m plus the time from m to b, for any m between them. */
  lemma {:induction false} BusinessSecondsAdditive(a: Instant, m: Instant, b: Instant)
    requires Ticks(a) <= Ticks(m) <= Ticks(b)
    ensures BusinessSeconds(a, b) == BusinessSeconds(a, m) + BusinessSeconds(m, b)
  {
    DayMonotone(a, m);
    DayMonotone(m, b);
    DayBounds(m);
    SumDaysSplitAt(a.day, m.day, b.day, Ticks(a), Ticks(m), Ticks(b));
  }

  /** An instant lies within its own day. */
  lemma {:induction false} DayBounds(t: Instant)
    ensures t.day * SecondsPerDay <= Ticks(t) <= (t.day + 1) * SecondsPerDay
  {
  }

  /** 2024-01-01, a Monday. */
  const Monday20240101: int := 738886

  /** Monday 08:00 to Tuesday 12:00: Monday's nine hours and three on Tuesday. */
  lemma MondayToTuesdayExample()
    ensures BusinessSeconds(Instant(Monday20240101, 8 * SecondsPerHour), Instant(Monday20240101 + 1, 12 * SecondsPerHour))
         == 12 * SecondsPerHour
  {
    var s, e := Monday20240101 * SecondsPerDay + 8 * SecondsPerHour, (Monday20240101 + 1) * SecondsPerDay + 12 * SecondsPerHour;
    assert Weekday(Monday20240101) == 0;
    assert DayContribution(Monday20240101, s, e) == WorkdaySeconds;
    assert DayContribution(Monday20240101 + 1, s, e) == 3 * SecondsPerHour;
    assert SumDays(Monday20240101, Monday20240101 + 2, s, e)
        == SumDays(Monday20240101, Monday20240101 + 1, s, e) + DayContribution(Monday20240101 + 1, s, e);
  }

  /** Friday 17:00 to the next Monday 10:00: one hour on each side of the
      weekend. */
  lemma FridayToMondayExample()
    ensures BusinessSeconds(Instant(Monday20240101 + 4, 17 * SecondsPerHour), Instant(Monday20240101 + 7, 10 * SecondsPerHour))
         == 2 * SecondsPerHour
  {
    var fri := Monday20240101 + 4;
    var s, e := fri * SecondsPerDay + 17 * SecondsPerHour, (fri + 3) * SecondsPerDay + 10 * SecondsPerHour;
    assert Weekday(fri) == 4 && Weekday(fri + 1) == 5 && Weekday(fri + 2) == 6 && Weekday(fri + 3) == 0;
    assert DayContribution(fri, s, e) == SecondsPerHour;
    assert DayContribution(fri + 3, s, e) == SecondsPerHour;
    assert SumDays(fri, fri + 4, s, e) == SumDays(fri, fri + 3, s, e) + DayContribution(fri + 3, s, e);
    assert SumDays(fri, fri + 3, s, e) == SumDays(fri, fri + 2, s, e) + DayContribution(fri + 2, s, e);
    assert SumDays(fri, fri + 2, s, e) == SumDays(fri, fri + 1, s, e) + DayContribution(fri + 1, s, e);
  }

  // ---------------------------------------------------------------------
  // calculate_estimated_closing_date

  /** The priority multiplier in quarters (0.25 is 1, 0.5 is 2, 1.0 is 4,
      1.5 is 6), looked up by the lower-cased label; unknown labels get 1.0. */
  function MultiplierQuarters(priority: string): (q: nat)
    ensures 1 <= q <= 6
  {
    var p := Lower(priority);
    if p == "alta" then 2
    else if p == "media" then 4
    else if p == "baja" then 6
    else if p == "crítica" then 1
    else 4
  }

  /** The multiplier table as the source writes it, with real numbers. */
  function Multiplier(priority: string): real
  {
    var p := Lower(priority);
    if p == "alta" then 0.5
    else if p == "media" then 1.0
    else if p == "baja" then 1.5
    else if p == "crítica" then 0.25
    else 1.0
  }

  /** Hours granted when there is no estimated time, by lower-cased label. */
  function DefaultHours(priority: string): (h: nat)
    ensures 4 <= h <= 48
  {
    var p := Lower(priority);
    if p == "crítica" then 4
    else if p == "alta" then 8
    else if p == "media" then 24
    else if p == "baja" then 48
    else 24
  }

  /** `calculate_estimated_closing_date(service, priority, creation_date)`;
      `now` stands for `datetime.now()`, used when no creation date is given.
      A present `datetime.time` is always true, midnight included. */
  function EstimatedClosingDate(service: Option<Service>, priority: string, creation: Option<Instant>, now: Instant): (due: Instant)
    ensures Ticks(due) >= Ticks(if creation.Some? then creation.value else now)
  {
    var base := if creation.Some? then creation.value else now;
    var estimated := if service.Some? then service.value.estimatedSolutionTime else None;
    if estimated.Some? then
      var t := estimated.value;
      // (hour + minute / 60) * (q / 4) hours is (60 * hour + minute) * 15 * q seconds
      AddSeconds(base, (60 * t.hour + t.minute) * 15 * MultiplierQuarters(priority))
    else
      AddSeconds(base, DefaultHours(priority) * SecondsPerHour)
  }

  /** With an estimated time, the due instant is the creation instant plus
      (hour + minute / 60) hours scaled by the priority multiplier; the
      seconds of the estimate are ignored. */
  lemma {:induction false} EstimatedClosingDateScaled(service: Service, priority: string, creation: Instant, now: Instant)
    requires service.estimatedSolutionTime.Some?
    ensures var t := service.estimatedSolutionTime.value;
      (Ticks(EstimatedClosingDate(Some(service), priority, Some(creation), now)) - Ticks(creation)) as real
      == ((t.hour as real) + (t.minute as real) / 60.0) * Multiplier(priority) * 3600.0
  {
    var t := service.estimatedSolutionTime.value;
    var q := MultiplierQuarters(priority);
    assert Multiplier(priority) == (q as real) / 4.0;
    var k := 60 * t.hour + t.minute;
    assert ((t.hour as real) + (t.minute as real) / 60.0) * 3600.0 == (k as real) * 60.0;
    assert (k * 15 * q) as real == (k as real) * 60.0 * ((q as real) / 4.0);
  }

  /** Without a service, or with one that has no estimated time, the due
      instant is 4, 8, 24 or 48 hours after creation for crítica, alta,
      media and baja, and 24 hours for any other label. */
  lemma {:induction false} EstimatedClosingDateDefault(service: Option<Service>, priority: string, creation: Instant, now: Instant)
    requires service.None? || service.value.estimatedSolutionTime.None?
    ensures var offset := Ticks(EstimatedClosingDate(service, priority, Some(creation), now)) - Ticks(creation);
      && (Lower(priority) == "crítica" ==> offset == 4 * SecondsPerHour)
      && (Lower(priority) == "alta" ==> offset == 8 * SecondsPerHour)
      && (Lower(priority) == "media" ==> offset == 24 * SecondsPerHour)
      && (Lower(priority) == "baja" ==> offset == 48 * SecondsPerHour)
      && (Lower(priority) !in {"crítica", "alta", "media", "baja"} ==> offset == 24 * SecondsPerHour)
  {
  }

  /** Without a creation date the clock reading is the base. */
  lemma {:induction false} EstimatedClosingDateUsesNow(service: Option<Service>, priority: string, now: Instant)
    ensures EstimatedClosingDate(service, priority, None, now) == EstimatedClosingDate(service, priority, Some(now), now)
  {
  }

  /** The label is matched without regard to case. */
  lemma {:induction false} EstimatedClosingDateIgnoresCase(service: Option<Service>, priority: string, creation: Option<Instant>, now: Instant)
    ensures EstimatedClosingDate(service, priority, creation, now) == EstimatedClosingDate(service, Lower(priority), creation, now)
  {
    LowerIdempotent(priority);
  }

  /** A label outside the four is treated exactly like `media`. */
  lemma {:induction false} UnknownPriorityIsMedia(service: Option<Service>, priority: string, media: string, creation: Option<Instant>, now: Instant)
    requires Lower(priority) !in {"crítica", "alta", "media", "baja"} && Lower(media) == "media"
    ensures EstimatedClosingDate(service, priority, creation, now) == EstimatedClosingDate(service, media, creation, now)
  {
  }

  /** A label with no larger multiplier and no larger default allowance
      is never due later. */
  lemma {:induction false} DueMonotone(service: Option<Service>, p: string, q: string, creation: Option<Instant>, now: Instant)
    requires MultiplierQuarters(p) <= MultiplierQuarters(q) && DefaultHours(p) <= DefaultHours(q)
    ensures Ticks(EstimatedClosingDate(service, p, creation, now)) <= Ticks(EstimatedClosingDate(service, q, creation, now))
  {
    var estimated := if service.Some? then service.value.estimatedSolutionTime else None;
    if estimated.Some? {
      var t := estimated.value;
      var k := (60 * t.hour + t.minute) * 15;
      assert k >= 0;
      assert k * MultiplierQuarters(p) <= k * MultiplierQuarters(q);
    }
  }

  /** A more urgent priority is never due later: labels reading crítica,
      alta, media and baja in any case are due in that order. */
  lemma {:induction false} UrgencyOrder(service: Option<Service>, creation: Option<Instant>, now: Instant, c: string, a: string, m: string, b: string)
    requires Lower(c) == "crítica" && Lower(a) == "alta" && Lower(m) == "media" && Lower(b) == "baja"
    ensures Ticks(EstimatedClosingDate(service, c, creation, now)) <= Ticks(EstimatedClosingDate(service, a, creation, now))
    ensures Ticks(EstimatedClosingDate(service, a, creation, now)) <= Ticks(EstimatedClosingDate(service, m, creation, now))
    ensures Ticks(EstimatedClosingDate(service, m, creation, now)) <= Ticks(EstimatedClosingDate(service, b, creation, now))
  {
    DueMonotone(service, c, a, creation, now);
    DueMonotone(service, a, m, creation, now);
    DueMonotone(service, m, b, creation, now);
  }
}
