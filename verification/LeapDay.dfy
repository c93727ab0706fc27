/**
  A schedule that the five-year window loses sight of: a stop on every 29 February.
  There is none for eight years around 1900 or 2100, and for the last two of them the
  one before is forgotten.
 */
module LeapDay {
  import opened Wrappers
  import opened Calendar
  import opened Cron
  import opened NearestEvent
  import opened ScheduleState
  import opened ScheduleTheorems

  /** The fields of 0 0 29 2 *. */
  const LEAP_DAY := SpecSchedule({0}, {0}, {0}, {29}, {2}, {0, 1, 2, 3, 4, 5, 6, STAR_BIT})

  const EVENT := EventSpec(Stop, Ok(LEAP_DAY))
  const UTC := Location(0, 0)
  const SCHEDULE := Schedule([EVENT], Ok(0), 0)

  function LeapInstant(year: int): Instant { InstantOf(0, Date(year, 2, 29), 0) }

  lemma InDays(t: int, q: int, r: int)
    requires 0 <= r < DAY && t == DAY * q + r
    ensures t / DAY == q && t % DAY == r
  {
  }

  lemma InSixties(t: int, q: int, r: int)
    requires 0 <= r < 60 && t == 60 * q + r
    ensures t / 60 == q && t % 60 == r
  {
  }

  lemma TimeOfDay(t: Instant, day: int, minute: int, second: int)
    requires 0 <= minute < 1440 && 0 <= second < 60 && t == DAY * day + 60 * minute + second
    ensures HourAt(0, t) == (60 * minute + second) / HOUR && MinuteAt(0, t) == minute % 60 && SecondAt(0, t) == second
  {
    InDays(t, day, 60 * minute + second);
    InSixties(t, 1440 * day + minute, second);
    MinuteOfDay(day, minute);
  }

  lemma MinuteOfDay(day: int, minute: int)
    ensures (1440 * day + minute) % 60 == minute % 60
  {
    InSixties(1440 * day + minute, 24 * day + minute / 60, minute % 60);
  }

  /** Midnight is when all the fields of the time of day are zero. */
  lemma Midnight(t: Instant)
    ensures HourAt(0, t) == 0 && MinuteAt(0, t) == 0 && SecondAt(0, t) == 0 <==> t % DAY == 0
  {
    TimeOfDay(t, t / DAY, t % DAY / 60, t % DAY % 60);
  }

  lemma FiresIff(t: Instant)
    ensures Fires(EVENT, UTC, t) <==> DateAt(0, t).month == 2 && DateAt(0, t).day == 29 && t % DAY == 0
  {
    Midnight(t);
    assert WeekdayAt(0, t) in LEAP_DAY.dow;
  }

  lemma FiresInLeapYears(year: int)
    requires IsLeap(year)
    ensures Fires(EVENT, UTC, LeapInstant(year)) && YearAt(0, LeapInstant(year)) == year
  {
    var d := Date(year, 2, 29);
    DateOfDayNumber(d);
    assert LeapInstant(year) == DayNumber(d) * DAY;
    assert DayAt(0, LeapInstant(year)) == DayNumber(d);
    FiresIff(LeapInstant(year));
  }

  lemma FiresOnlyThen(t: Instant)
    requires Fires(EVENT, UTC, t)
    ensures IsLeap(YearAt(0, t)) && t == LeapInstant(YearAt(0, t))
  {
    FiresIff(t);
    DayNumberOfDate(DayAt(0, t));
    assert DateAt(0, t) == Date(YearAt(0, t), 2, 29);
    assert t == DayAt(0, t) * DAY;
  }

  /** A leap year, such as 2096, that no other follows for eight years. */
  predicate EightYearGap(year: int) { IsLeap(year) && !IsLeap(year + 4) && IsLeap(year + 8) }

  lemma GapAround2100()
    ensures EightYearGap(2096)
  {
  }

  lemma FourApart(a: int, b: int)
    requires a % 4 == 0 && b % 4 == 0 && a < b < a + 8
    ensures b == a + 4
  {
    var x, y := a / 4, b / 4;
    assert a == 4 * x && b == 4 * y;
  }

  lemma LeapYearsInGap(year: int, y: int)
    requires EightYearGap(year) && IsLeap(y) && year <= y <= year + 8
    ensures y == year || y == year + 8
  {
    if year < y < year + 8 { FourApart(year, y); }
  }

  lemma YearsInOrder(t: Instant, u: Instant)
    requires t <= u
    ensures YearAt(0, t) <= YearAt(0, u)
  {
    SearchFromAdvances(0, t, u);
  }

  lemma FiringsInGap(year: int, t: Instant)
    requires EightYearGap(year) && Fires(EVENT, UTC, t) && LeapInstant(year) <= t <= LeapInstant(year + 8)
    ensures t == LeapInstant(year) || t == LeapInstant(year + 8)
  {
    FiresOnlyThen(t);
    FiresInLeapYears(year);
    FiresInLeapYears(year + 8);
    YearsInOrder(LeapInstant(year), t);
    YearsInOrder(t, LeapInstant(year + 8));
    LeapYearsInGap(year, YearAt(0, t));
  }

  lemma QuietBetween(year: int, t: Instant)
    requires EightYearGap(year) && LeapInstant(year) < t < LeapInstant(year + 8)
    ensures !Fires(EVENT, UTC, t)
  {
    if Fires(EVENT, UTC, t) { FiringsInGap(year, t); }
  }

  lemma YearOfStart(year: int)
    ensures YearAt(0, YearStart(0, year)) == year
  {
    YearBound(0, YearStart(0, year), year);
    YearBound(0, YearStart(0, year), year + 1);
    YearsIncrease(year, year + 1);
  }

  lemma LeapInstantInYear(year: int)
    requires IsLeap(year)
    ensures YearStart(0, year) <= LeapInstant(year) < YearStart(0, year + 1)
  {
    FiresInLeapYears(year);
    YearBound(0, LeapInstant(year), year);
    YearBound(0, LeapInstant(year), year + 1);
  }

  lemma StartsInOrder(a: int, b: int)
    requires a < b
    ensures YearStart(0, a) < YearStart(0, b)
  {
    YearsIncrease(a, b);
  }

  /** The start of the fifth and of the sixth year of the gap, and their windows. */
  lemma Windows(year: int)
    ensures WindowFrom(UTC, YearStart(0, year + 5)) == YearStart(0, year)
    ensures WindowEnd(UTC, YearStart(0, year + 5)) == YearStart(0, year + 11)
    ensures WindowFrom(UTC, YearStart(0, year + 6)) == YearStart(0, year + 1)
  {
    YearOfStart(year + 5);
    YearOfStart(year + 6);
  }

  lemma InstantsInOrder(year: int)
    requires EightYearGap(year)
    ensures YearStart(0, year) <= LeapInstant(year) < YearStart(0, year + 1) < YearStart(0, year + 5)
    ensures YearStart(0, year + 5) < YearStart(0, year + 6) < LeapInstant(year + 8) < YearStart(0, year + 11)
  {
    LeapInstantInYear(year);
    LeapInstantInYear(year + 8);
    StartsInOrder(year + 1, year + 5);
    StartsInOrder(year + 5, year + 6);
    StartsInOrder(year + 6, year + 8);
    StartsInOrder(year + 9, year + 11);
  }

  lemma IsSearchable()
    ensures ScheduleSearchable(SCHEDULE) && Searchable([EVENT], UTC)
  {
  }

  function StopAt(t: Instant): Option<ScheduledEvent> { Some(ScheduledEvent(Stop, t)) }

  lemma QuietGap(year: int, from: Instant, end: Instant)
    requires EightYearGap(year) && LeapInstant(year) < from && end < LeapInstant(year + 8)
    ensures Quiet([EVENT], UTC, from, end)
  {
    forall e, t | e in [EVENT] && from <= t <= end ensures !Fires(e, UTC, t) { QuietBetween(year, t); }
  }

  lemma LastSeen(year: int, now: Instant)
    requires EightYearGap(year) && LeapInstant(year) <= now < LeapInstant(year + 8)
    requires WindowFrom(UTC, now) <= LeapInstant(year)
    ensures Nearest([EVENT], UTC, now, Previous, AnyEvent) == Ok(StopAt(LeapInstant(year)))
  {
    IsSearchable();
    EveryEventConsidered([EVENT]);
    PreviousIsLastEvent([EVENT], UTC, now, AnyEvent);
    FiresInLeapYears(year);
    assert FiresFirst([EVENT], UTC, LeapInstant(year), 0);
    QuietGap(year, LeapInstant(year) + 1, now);
    LastEventIsUnique([EVENT], UTC, WindowFrom(UTC, now), now,
                      Nearest([EVENT], UTC, now, Previous, AnyEvent).value, StopAt(LeapInstant(year)));
  }

  lemma NextSeen(year: int, now: Instant)
    requires EightYearGap(year) && LeapInstant(year) <= now < LeapInstant(year + 8) < WindowEnd(UTC, now)
    ensures Nearest([EVENT], UTC, now, Next, AnyEvent) == Ok(StopAt(LeapInstant(year + 8)))
  {
    IsSearchable();
    EveryEventConsidered([EVENT]);
    NextIsFirstEvent([EVENT], UTC, now, AnyEvent);
    FiresInLeapYears(year + 8);
    assert FiresFirst([EVENT], UTC, LeapInstant(year + 8), 0);
    QuietGap(year, now + 1, LeapInstant(year + 8) - 1);
    FirstEventIsUnique([EVENT], UTC, now, WindowEnd(UTC, now),
                       Nearest([EVENT], UTC, now, Next, AnyEvent).value, StopAt(LeapInstant(year + 8)));
  }

  /** The events that the filters keep: the one there is, or none. */
  lemma OneEvent()
    ensures Considered([EVENT], IsStop) == [EVENT] == Considered([EVENT], AnyEvent) && Considered([EVENT], IsStart) == []
  {
    assert [EVENT][1..] == [];
  }

  lemma StateOfEvents(now: Instant, previous: Option<ScheduledEvent>, next: Option<ScheduledEvent>)
    requires previous.Some? && Nearest([EVENT], UTC, now, Previous, AnyEvent) == Ok(previous)
    requires Nearest([EVENT], UTC, now, Next, AnyEvent) == Ok(next)
    ensures StateFor(SCHEDULE, now) == Ok(State(Some(previous.value.time), None, previous, next))
  {
    OneEvent();
    assert Nearest([EVENT], UTC, previous.value.time, Next, IsStart) == Ok(None);
  }

  /** The window does drop an event: from the fifth to the sixth year of a gap nothing
      fires and the next event is still to come, and yet the last stop is forgotten. */
  lemma WindowForgets(year: int)
    requires EightYearGap(year)
    ensures var now, later, next := YearStart(0, year + 5), YearStart(0, year + 6), StopAt(LeapInstant(year + 8));
      && StateFor(SCHEDULE, now) == Ok(State(Some(LeapInstant(year)), None, StopAt(LeapInstant(year)), next))
      && now < later < next.value.time
      && StateFor(SCHEDULE, later) != StateFor(SCHEDULE, now)
      && Nearest([EVENT], UTC, later, Previous, AnyEvent) == Ok(None)
  {
    var now, later := YearStart(0, year + 5), YearStart(0, year + 6);
    InstantsInOrder(year);
    Windows(year);
    LastSeen(year, now);
    NextSeen(year, now);
    StateOfEvents(now, StopAt(LeapInstant(year)), StopAt(LeapInstant(year + 8)));
    IsSearchable();
    NoTransitionBeforeNext(SCHEDULE, now, later);
    QuietGap(year, now + 1, later);
    BothPrevious([EVENT], UTC, now, later);
  }
}
