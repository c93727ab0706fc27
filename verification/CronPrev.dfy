/** The imperative backward search: five nested fields, each of which may
    restart the whole check. */
module CronPrev {
  import opened Wrappers
  import opened Calendar
  import opened Cron

  /** Before the first of a month comes the previous month, of the same year
      unless it is December. */
  lemma BeforeMonth(zone: int, t: Instant)
    ensures var u := InstantOf(zone, DateAt(zone, t).(day := 1), 0) - 1;
      DateAt(zone, u).month != 12 ==> YearAt(zone, u) == YearAt(zone, t)
  {
    var first := DateAt(zone, t).(day := 1);
    var u := InstantOf(zone, first, 0) - 1;
    assert DayAt(zone, u) == DayNumber(first) - 1;
    DateOfDayNumber(first);
    PreviousDay(DayNumber(first));
  }

  lemma BeforeDay(zone: int, t: Instant)
    requires DateAt(zone, t).day != 1
    ensures var u := InstantOf(zone, DateAt(zone, t), 0) - 1;
      DateAt(zone, u) == DayBefore(DateAt(zone, t))
  {
    HourOfDay(zone, t, 0);
    assert DayAt(zone, InstantOf(zone, DateAt(zone, t), 0) - 1) == DayAt(zone, t) - 1;
    PreviousDay(DayAt(zone, t));
  }

  lemma BeforeHour(zone: int, t: Instant)
    ensures var u := InstantOf(zone, DateAt(zone, t), HourAt(zone, t)) - 1;
      HourAt(zone, u) != 23 ==> DayAt(zone, u) == DayAt(zone, t)
  {
    var day, hour := DayAt(zone, t), HourAt(zone, t);
    LastSecondBefore(day, hour);
    HourOfDay(zone, t, hour);
    assert InstantOf(zone, DateAt(zone, t), hour) - 1 + zone == day * DAY + hour * HOUR - 1;
  }

  lemma LastSecondBefore(day: int, hour: int)
    requires 0 <= hour < 24
    ensures var x := day * DAY + hour * HOUR - 1;
      if hour == 0 then x % DAY / HOUR == 23 else x / DAY == day
  {
    if hour == 0 {
      assert (day * DAY - 1) % DAY == DAY - 1;
    }
  }

  lemma BeforeMinute(zone: int, t: Instant, u: Instant)
    requires t - 60 <= u < t && MinuteAt(zone, u) != 59
    ensures DayAt(zone, u) == DayAt(zone, t) && HourAt(zone, u) == HourAt(zone, t)
  {
    var x, y := (t + zone) / MINUTE, (u + zone) / MINUTE;
    assert x - 1 <= y <= x && y / 60 == x / 60;
    HourOfMinute(zone, t);
    HourOfMinute(zone, u);
  }

  lemma HourOfMinute(zone: int, t: Instant)
    ensures DayAt(zone, t) == (t + zone) / MINUTE / 60 / 24
    ensures HourAt(zone, t) == (t + zone) / MINUTE / 60 % 24
  {
  }

  lemma BeforeSecond(zone: int, t: Instant)
    requires SecondAt(zone, t - 1) != 59
    ensures (t - 1 + zone) / MINUTE == (t + zone) / MINUTE
    ensures DayAt(zone, t - 1) == DayAt(zone, t) && HourAt(zone, t - 1) == HourAt(zone, t)
    ensures MinuteAt(zone, t - 1) == MinuteAt(zone, t)
  {
    assert (t - 1 + zone) / MINUTE == (t + zone) / MINUTE;
    HourOfMinute(zone, t);
    HourOfMinute(zone, t - 1);
  }

  lemma SameYear(zone: int, t: Instant, u: Instant, yearLimit: int)
    requires YearStart(zone, yearLimit) <= t && YearAt(zone, u) == YearAt(zone, t)
    ensures YearStart(zone, yearLimit) <= u
  {
    YearBound(zone, t, yearLimit);
    YearBound(zone, u, yearLimit);
  }

  /** The month, the day and the year are those of the day number. */
  lemma SameDate(spec: SpecSchedule, zone: int, yearLimit: int, t: Instant, u: Instant)
    requires YearStart(zone, yearLimit) <= t && DayAt(zone, u) == DayAt(zone, t)
    requires MonthMatches(spec, zone, t) && DayMatches(spec, zone, t)
    ensures YearStart(zone, yearLimit) <= u && MonthMatches(spec, zone, u) && DayMatches(spec, zone, u)
  {
    SameYear(zone, t, u, yearLimit);
  }

  // The loops, one method each. They are given the rest of the search as a
  // function value, so that its body stays out of their proofs, and they keep its
  // result while moving back. A loop that wraps has moved back; one that ends has
  // matched its field in a searched year, and the coarser fields still match.

  ghost predicate IsSearch(search: Instant -> Option<Instant>, spec: SpecSchedule, zone: int, from: Instant) {
    forall u {:trigger Search(spec, zone, from, u)} :: search(u) == Search(spec, zone, from, u)
  }

  lemma StepBack(search: Instant -> Option<Instant>, spec: SpecSchedule, zone: int, from: Instant, t: Instant)
    requires IsSearch(search, spec, zone, from) && from <= t && !Matches(spec, zone, t)
    ensures search(SkipBack(spec, zone, t)) == search(t)
  {
    assert Search(spec, zone, from, t) == Search(spec, zone, from, SkipBack(spec, zone, t));
  }

  ghost predicate CoarserMatch(spec: SpecSchedule, zone: int, yearLimit: int, t: Instant, fields: nat) {
    && YearStart(zone, yearLimit) <= t
    && (fields >= 1 ==> MonthMatches(spec, zone, t))
    && (fields >= 2 ==> DayMatches(spec, zone, t))
    && (fields >= 3 ==> HourMatches(spec, zone, t))
    && (fields >= 4 ==> MinuteMatches(spec, zone, t))
    && (fields >= 5 ==> SecondMatches(spec, zone, t))
  }

  method MatchMonth(spec: SpecSchedule, zone: int, ghost yearLimit: int, ghost search: Instant -> Option<Instant>,
                    t0: Instant) returns (t: Instant, wrapped: bool)
    requires IsSearch(search, spec, zone, YearStart(zone, yearLimit))
    requires CoarserMatch(spec, zone, yearLimit, t0, 0)
    ensures search(t) == search(t0)
    ensures if wrapped then t < t0 else t <= t0 && CoarserMatch(spec, zone, yearLimit, t, 1)
  {
    t := t0;
    while !MonthMatches(spec, zone, t)
      invariant t <= t0 && search(t) == search(t0) && CoarserMatch(spec, zone, yearLimit, t, 0)
      decreases t - YearStart(zone, yearLimit)
    {
      StepBack(search, spec, zone, YearStart(zone, yearLimit), t);
      BeforeMonth(zone, t);
      ghost var before := t;
      t := InstantOf(zone, DateAt(zone, t).(day := 1), 0);
      t := t - 1;
      if DateAt(zone, t).month == 12 { return t, true; }
      SameYear(zone, before, t, yearLimit);
    }
    return t, false;
  }

  method MatchDay(spec: SpecSchedule, zone: int, ghost yearLimit: int, ghost search: Instant -> Option<Instant>,
                  t0: Instant) returns (t: Instant, wrapped: bool)
    requires IsSearch(search, spec, zone, YearStart(zone, yearLimit))
    requires CoarserMatch(spec, zone, yearLimit, t0, 1)
    ensures search(t) == search(t0)
    ensures if wrapped then t < t0 else t <= t0 && CoarserMatch(spec, zone, yearLimit, t, 2)
  {
    t := t0;
    while !DayMatches(spec, zone, t)
      invariant t <= t0 && search(t) == search(t0) && CoarserMatch(spec, zone, yearLimit, t, 1)
      decreases t - YearStart(zone, yearLimit)
    {
      StepBack(search, spec, zone, YearStart(zone, yearLimit), t);
      ghost var before := t;
      StartOfDay(zone, t);
      t := InstantOf(zone, DateAt(zone, t), 0);
      var needToWrapBack := DateAt(zone, t).day == 1;
      t := t - 1;
      if needToWrapBack { return t, true; }
      BeforeDay(zone, before);
      SameYear(zone, before, t, yearLimit);
    }
    return t, false;
  }

  lemma StartOfDay(zone: int, t: Instant)
    ensures DateAt(zone, InstantOf(zone, DateAt(zone, t), 0)) == DateAt(zone, t)
  {
    HourOfDay(zone, t, 0);
    assert DayAt(zone, InstantOf(zone, DateAt(zone, t), 0)) == DayAt(zone, t);
  }

  method MatchHour(spec: SpecSchedule, zone: int, ghost yearLimit: int, ghost search: Instant -> Option<Instant>,
                   t0: Instant) returns (t: Instant, wrapped: bool)
    requires IsSearch(search, spec, zone, YearStart(zone, yearLimit))
    requires CoarserMatch(spec, zone, yearLimit, t0, 2)
    ensures search(t) == search(t0)
    ensures if wrapped then t < t0 else t <= t0 && CoarserMatch(spec, zone, yearLimit, t, 3)
  {
    t := t0;
    while !HourMatches(spec, zone, t)
      invariant t <= t0 && search(t) == search(t0) && CoarserMatch(spec, zone, yearLimit, t, 2)
      decreases t - YearStart(zone, yearLimit)
    {
      StepBack(search, spec, zone, YearStart(zone, yearLimit), t);
      BeforeHour(zone, t);
      ghost var before := t;
      t := InstantOf(zone, DateAt(zone, t), HourAt(zone, t));
      t := t - 1;
      if HourAt(zone, t) == 23 { return t, true; }
      SameDate(spec, zone, yearLimit, before, t);
    }
    return t, false;
  }

  method MatchMinute(spec: SpecSchedule, zone: int, ghost yearLimit: int, ghost search: Instant -> Option<Instant>,
                     t0: Instant) returns (t: Instant, wrapped: bool)
    requires IsSearch(search, spec, zone, YearStart(zone, yearLimit))
    requires CoarserMatch(spec, zone, yearLimit, t0, 3)
    ensures search(t) == search(t0)
    ensures if wrapped then t < t0 else t <= t0 && CoarserMatch(spec, zone, yearLimit, t, 4)
  {
    t := t0;
    while !MinuteMatches(spec, zone, t)
      invariant t <= t0 && search(t) == search(t0) && CoarserMatch(spec, zone, yearLimit, t, 3)
      decreases t - YearStart(zone, yearLimit)
    {
      StepBack(search, spec, zone, YearStart(zone, yearLimit), t);
      ghost var before := t;
      t := TruncateToMinute(t);
      t := t - 1;
      if MinuteAt(zone, t) == 59 { return t, true; }
      BeforeMinute(zone, before, t);
      SameDate(spec, zone, yearLimit, before, t);
    }
    return t, false;
  }

  method MatchSecond(spec: SpecSchedule, zone: int, ghost yearLimit: int, ghost search: Instant -> Option<Instant>,
                     t0: Instant) returns (t: Instant, wrapped: bool)
    requires IsSearch(search, spec, zone, YearStart(zone, yearLimit))
    requires CoarserMatch(spec, zone, yearLimit, t0, 4)
    ensures search(t) == search(t0)
    ensures if wrapped then t < t0 else t <= t0 && CoarserMatch(spec, zone, yearLimit, t, 5)
  {
    t := t0;
    while !SecondMatches(spec, zone, t)
      invariant t <= t0 && search(t) == search(t0) && CoarserMatch(spec, zone, yearLimit, t, 4)
      decreases t - YearStart(zone, yearLimit)
    {
      StepBack(search, spec, zone, YearStart(zone, yearLimit), t);
      ghost var before := t;
      t := t - 1;
      if SecondAt(zone, t) == 59 { return t, true; }
      BeforeSecond(zone, before);
      SameDate(spec, zone, yearLimit, before, t);
    }
    return t, false;
  }

  /** cronPrev: every loop that wraps starts the checks again. The zone is the
      schedule's; None stands for the zero time. */
  method CronPrev(spec: SpecSchedule, zone: int, now: Instant) returns (r: Option<Instant>)
    ensures r == PrevActivation(spec, zone, now)
  {
    var yearLimit := YearAt(zone, now) - YEARS_SEARCHED;
    ghost var from := YearStart(zone, yearLimit);
    ghost var search := u => Search(spec, zone, from, u);
    var t, wrapped := now, true;
    while wrapped
      invariant search(t) == search(now)
      invariant !wrapped ==> CoarserMatch(spec, zone, yearLimit, t, 5)
      decreases t - from, wrapped
    {
      YearBound(zone, t, yearLimit);
      if YearAt(zone, t) < yearLimit { return None; }
      t, wrapped := MatchMonth(spec, zone, yearLimit, search, t);
      if wrapped { continue; }
      t, wrapped := MatchDay(spec, zone, yearLimit, search, t);
      if wrapped { continue; }
      t, wrapped := MatchHour(spec, zone, yearLimit, search, t);
      if wrapped { continue; }
      t, wrapped := MatchMinute(spec, zone, yearLimit, search, t);
      if wrapped { continue; }
      t, wrapped := MatchSecond(spec, zone, yearLimit, search, t);
    }
    return Some(t);
  }
}
