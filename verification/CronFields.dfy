/**
  What the fields of a cron specification mean for its firings: the star in the day
  fields, and a schedule of weekdays followed into the weekend.
 */
module CronFields {
  import opened Wrappers
  import opened Calendar
  import opened CalendarLaws
  import opened Cron

  /** The fields other than the two for days have the bits of t. */
  predicate TimeFits(spec: SpecSchedule, zone: int, t: Instant) {
    && DateAt(zone, t).month in spec.month && HourAt(zone, t) in spec.hour
    && MinuteAt(zone, t) in spec.minute && SecondAt(zone, t) in spec.second
  }

  /** A star in a field with values from low to high. */
  function Star(low: int, high: int): (m: Mask)
    ensures forall n :: n in m <==> low <= n <= high || n == 63
    decreases high - low
  {
    if low > high then {63} else Star(low + 1, high) + {low}
  }

  function EveryDay(): Mask { Star(1, 31) }

  function EveryWeekday(): Mask { Star(0, 6) }

  function EveryMonth(): Mask { Star(1, 12) }

  // One of the two fields is a plain star

  /** With a star for the days of the week, the day of the month decides. */
  lemma MonthDaysDecide(spec: SpecSchedule, zone: int, t: Instant)
    requires spec.dow == EveryWeekday()
    ensures Matches(spec, zone, t) <==> TimeFits(spec, zone, t) && DateAt(zone, t).day in spec.dom
  {
  }

  /** With a star for the days of the month, the day of the week decides. */
  lemma WeekdaysDecide(spec: SpecSchedule, zone: int, t: Instant)
    requires spec.dom == EveryDay()
    ensures Matches(spec, zone, t) <==> TimeFits(spec, zone, t) && WeekdayAt(zone, t) in spec.dow
  {
  }

  // Both fields

  function WithEveryDay(spec: SpecSchedule): SpecSchedule { spec.(dom := EveryDay()) }

  function WithEveryWeekday(spec: SpecSchedule): SpecSchedule { spec.(dow := EveryWeekday()) }

  /** A specification with a star in either field fires when both fields on their own
      would. */
  lemma StarredNeedsBoth(spec: SpecSchedule, zone: int, t: Instant)
    requires 63 in spec.dom || 63 in spec.dow
    ensures Matches(spec, zone, t) <==> Matches(WithEveryDay(spec), zone, t) && Matches(WithEveryWeekday(spec), zone, t)
    ensures Matches(spec, zone, t) <==>
      TimeFits(spec, zone, t) && DateAt(zone, t).day in spec.dom && WeekdayAt(zone, t) in spec.dow
  {
    WeekdaysDecide(WithEveryDay(spec), zone, t);
    MonthDaysDecide(WithEveryWeekday(spec), zone, t);
  }

  /** One without a star fires when either field on its own would. */
  lemma UnstarredNeedsOne(spec: SpecSchedule, zone: int, t: Instant)
    requires 63 !in spec.dom && 63 !in spec.dow
    ensures Matches(spec, zone, t) <==> Matches(WithEveryDay(spec), zone, t) || Matches(WithEveryWeekday(spec), zone, t)
    ensures Matches(spec, zone, t) <==>
      TimeFits(spec, zone, t) && (DateAt(zone, t).day in spec.dom || WeekdayAt(zone, t) in spec.dow)
  {
    WeekdaysDecide(WithEveryDay(spec), zone, t);
    MonthDaysDecide(WithEveryWeekday(spec), zone, t);
  }

  // What the searches find

  /** The backward search stays within its years and only finds matches, in every zone
      and for all seconds. */
  lemma {:induction false} SearchFindsMatch(spec: SpecSchedule, zone: int, from: Instant, t: Instant)
    ensures var r := Search(spec, zone, from, t); r.Some? ==> from <= r.value <= t && Matches(spec, zone, r.value)
    decreases t - from
  {
    if t >= from && !Matches(spec, zone, t) { SearchFindsMatch(spec, zone, from, SkipBack(spec, zone, t)); }
  }

  /** A schedule for some weekdays, with a star for the days of the month, fires on one
      of them, searched backward or forward. */
  lemma FiresOnItsWeekdays(spec: SpecSchedule, zone: int, t: Instant)
    requires 63 in spec.dom
    ensures var r := PrevActivation(spec, zone, t); r.Some? ==> r.value <= t && WeekdayAt(zone, r.value) in spec.dow
    ensures var r := NextActivation(spec, zone, t); r.Some? ==> r.value > t && WeekdayAt(zone, r.value) in spec.dow
  {
    SearchFindsMatch(spec, zone, SearchFrom(zone, t), t);
    SearchAheadIsEarliest(spec, zone, SearchEnd(zone, t), t + 1);
    var r, q := PrevActivation(spec, zone, t), NextActivation(spec, zone, t);
    if r.Some? { StarredNeedsBoth(spec, zone, r.value); }
    if q.Some? { StarredNeedsBoth(spec, zone, q.value); }
  }

  /** A schedule for some days of the month, with a star for the weekdays, the same. */
  lemma FiresOnItsMonthDays(spec: SpecSchedule, zone: int, t: Instant)
    requires 63 in spec.dow
    ensures var r := PrevActivation(spec, zone, t); r.Some? ==> r.value <= t && DateAt(zone, r.value).day in spec.dom
    ensures var r := NextActivation(spec, zone, t); r.Some? ==> r.value > t && DateAt(zone, r.value).day in spec.dom
  {
    SearchFindsMatch(spec, zone, SearchFrom(zone, t), t);
    SearchAheadIsEarliest(spec, zone, SearchEnd(zone, t), t + 1);
    var r, q := PrevActivation(spec, zone, t), NextActivation(spec, zone, t);
    if r.Some? { StarredNeedsBoth(spec, zone, r.value); }
    if q.Some? { StarredNeedsBoth(spec, zone, q.value); }
  }

  // From a Friday into the weekend

  /** The fields of 0 17 * * 1-5. */
  function Workdays(): SpecSchedule {
    SpecSchedule({0}, {0}, {17}, EveryDay(), EveryMonth(), {1, 2, 3, 4, 5})
  }

  lemma WorkdaysFire(t: Instant)
    ensures Matches(Workdays(), 0, t) <==>
      1 <= WeekdayAt(0, t) <= 5 && HourAt(0, t) == 17 && MinuteAt(0, t) == 0 && SecondAt(0, t) == 0
  {
    WeekdaysDecide(Workdays(), 0, t);
  }

  lemma LaterThatDay(friday: Instant, t: Instant)
    requires friday % DAY == 17 * HOUR && friday <= t < friday + 7 * HOUR
    ensures DayAt(0, t) == DayAt(0, friday) && HourAt(0, t) >= 17
    ensures HourAt(0, t) == 17 && MinuteAt(0, t) == 0 && SecondAt(0, t) == 0 <==> t == friday
  {
    var day := friday / DAY;
    SplitDay(t, day, t - friday + 17 * HOUR);
    SplitDay(friday, day, 17 * HOUR);
    TimeOfLocal(t);
  }

  lemma NextDay(friday: Instant, t: Instant)
    requires friday % DAY == 17 * HOUR && friday + 7 * HOUR <= t < friday + 31 * HOUR
    ensures DayAt(0, t) == DayAt(0, friday) + 1
  {
    SplitDay(t, friday / DAY + 1, t - friday - 7 * HOUR);
  }

  lemma NoneSince(friday: Instant, u: Instant)
    requires WeekdayAt(0, friday) == 5 && friday % DAY == 17 * HOUR && friday < u < friday + 31 * HOUR
    ensures !Matches(Workdays(), 0, u)
  {
    WorkdaysFire(u);
    if u < friday + 7 * HOUR { LaterThatDay(friday, u); } else { NextDay(friday, u); }
  }

  /** At any time up to the end of the Saturday, the last firing was on Friday at 17. */
  lemma WeekendLooksBack(friday: Instant, t: Instant)
    requires WeekdayAt(0, friday) == 5 && friday % DAY == 17 * HOUR && friday <= t < friday + 31 * HOUR
    ensures PrevActivation(Workdays(), 0, t) == Some(friday)
  {
    LaterThatDay(friday, friday);
    WorkdaysFire(friday);
    forall u | friday < u <= t ensures !Matches(Workdays(), 0, u) { NoneSince(friday, u); }
    SearchIsLatest(Workdays(), 0, SearchFrom(0, t), t);
    SearchedFrom(friday, t);
  }

  lemma SearchedFrom(u: Instant, t: Instant)
    requires u <= t < u + 31 * HOUR
    ensures SearchFrom(0, t) <= u
  {
    var year := YearAt(0, t);
    YearBound(0, t, year);
    YearsIncrease(year - 5, year - 1);
    YearsIncrease(year - 1, year);
  }

  /** A stop at 17 on workdays, looked for on Saturday 2024-07-06 at 17, is the one of
      the Friday before. */
  lemma NoStopOnSaturday(t: Instant, year: int)
    requires t == 1_720_285_200 && year == 2024
    ensures PrevActivation(Workdays(), 0, t) == Some(t - DAY)
  {
    SaturdayIn2024(t, year);
    WeekdaysFollow(0, t - DAY);
    WeekendLooksBack(t - DAY, t);
  }
}
