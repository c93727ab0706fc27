/**
  Cron specifications as bit masks, and the search for the instant at which one
  last fired. Search is the skipping walk of cronPrev, one restart a step;
  the theorems compare it with a plain statement of "latest match".
 */
module Cron {
  import opened Wrappers
  import opened Calendar

  /** The fields of cron.SpecSchedule: one bit for each allowed value. */
  datatype SpecSchedule = SpecSchedule(
    second: Mask, minute: Mask, hour: Mask, dom: Mask, month: Mask, dow: Mask)

  /** A uint64 mask, as the set of its bits. */
  type Mask = set<int>

  /** Set when the field was written with a star. */
  const STAR_BIT := 63

  /** 1 << n & mask != 0 */
  predicate HasBit(mask: Mask, n: int) { n in mask }

  predicate MonthMatches(spec: SpecSchedule, zone: int, t: Instant) {
    HasBit(spec.month, DateAt(zone, t).month)
  }

  /** Day of month and day of week: both must match when either holds a star,
      and one is enough otherwise. */
  predicate DayMatches(spec: SpecSchedule, zone: int, t: Instant) {
    var domMatch := HasBit(spec.dom, DateAt(zone, t).day);
    var dowMatch := HasBit(spec.dow, WeekdayAt(zone, t));
    if HasBit(spec.dom, STAR_BIT) || HasBit(spec.dow, STAR_BIT)
    then domMatch && dowMatch
    else domMatch || dowMatch
  }

  predicate HourMatches(spec: SpecSchedule, zone: int, t: Instant) {
    HasBit(spec.hour, HourAt(zone, t))
  }

  predicate MinuteMatches(spec: SpecSchedule, zone: int, t: Instant) {
    HasBit(spec.minute, MinuteAt(zone, t))
  }

  predicate SecondMatches(spec: SpecSchedule, zone: int, t: Instant) {
    HasBit(spec.second, SecondAt(zone, t))
  }

  /** The specification fires at t. */
  predicate Matches(spec: SpecSchedule, zone: int, t: Instant) {
    && MonthMatches(spec, zone, t) && DayMatches(spec, zone, t) && HourMatches(spec, zone, t)
    && MinuteMatches(spec, zone, t) && SecondMatches(spec, zone, t)
  }

  const YEARS_SEARCHED := 5

  /** r is the latest firing in [from, t]. */
  ghost predicate IsLatestMatch(spec: SpecSchedule, zone: int, from: Instant, t: Instant, r: Option<Instant>) {
    match r
    case None => forall u | from <= u <= t :: !Matches(spec, zone, u)
    case Some(v) => from <= v <= t && Matches(spec, zone, v) && forall u | v < u <= t :: !Matches(spec, zone, u)
  }

  /** r is the earliest firing in [t, end). */
  ghost predicate IsEarliestMatch(spec: SpecSchedule, zone: int, end: Instant, t: Instant, r: Option<Instant>) {
    match r
    case None => forall u | t <= u < end :: !Matches(spec, zone, u)
    case Some(v) => t <= v < end && Matches(spec, zone, v) && forall u | t <= u < v :: !Matches(spec, zone, u)
  }

  // The backward search

  /** Where the walk goes from an instant that does not match: one second before
      the start of the coarsest field that fails. */
  function SkipBack(spec: SpecSchedule, zone: int, t: Instant): (u: Instant)
    ensures u < t
  {
    var d := DateAt(zone, t);
    HourOfDay(zone, t, HourAt(zone, t));
    DayNumberOfDate(DayAt(zone, t));
    if !MonthMatches(spec, zone, t) then InstantOf(zone, d.(day := 1), 0) - 1
    else if !DayMatches(spec, zone, t) then InstantOf(zone, d, 0) - 1
    else if !HourMatches(spec, zone, t) then InstantOf(zone, d, HourAt(zone, t)) - 1
    else if !MinuteMatches(spec, zone, t) then TruncateToMinute(t) - 1
    else t - 1
  }

  function Search(spec: SpecSchedule, zone: int, from: Instant, t: Instant): Option<Instant>
    decreases t - from
  {
    if t < from then None
    else if Matches(spec, zone, t) then Some(t)
    else Search(spec, zone, from, SkipBack(spec, zone, t))
  }

  /** The first instant of the years that cronPrev searches. */
  function SearchFrom(zone: int, t: Instant): Instant {
    YearStart(zone, YearAt(zone, t) - YEARS_SEARCHED)
  }

  /** What cronPrev returns; None stands for the zero time. */
  function PrevActivation(spec: SpecSchedule, zone: int, t: Instant): Option<Instant> {
    Search(spec, zone, SearchFrom(zone, t), t)
  }

  lemma SameMonth(zone: int, t: Instant, u: Instant)
    requires InstantOf(zone, DateAt(zone, t).(day := 1), 0) <= u <= t
    ensures DateAt(zone, u).month == DateAt(zone, t).month
    ensures DateAt(zone, u).year == DateAt(zone, t).year
  {
    var d := DateAt(zone, t);
    DayNumberOfDate(DayAt(zone, t));
    DayNumberOfDate(DayAt(zone, u));
    UniqueDate(DateAt(zone, u), d.(day := d.day - (DayAt(zone, t) - DayAt(zone, u))));
  }

  /** The zones and second masks for which truncating to an absolute minute is
      harmless: the zone is a whole number of minutes, or the specification never
      fires in the seconds between that boundary and the end of a local minute. */
  ghost predicate MinutesAlign(zone: int, second: Mask) {
    zone % MINUTE == 0 || forall k | zone % MINUTE <= k < 60 :: !HasBit(second, k)
  }

  /** Nothing fires in the stretch that SkipBack jumps over. */
  lemma SkipsNoMatch(spec: SpecSchedule, zone: int, t: Instant, u: Instant)
    requires MinutesAlign(zone, spec.second)
    requires !Matches(spec, zone, t) && SkipBack(spec, zone, t) < u <= t
    ensures !Matches(spec, zone, u)
  {
    var d := DateAt(zone, t);
    if !MonthMatches(spec, zone, t) {
      SameMonth(zone, t, u);
      assert !MonthMatches(spec, zone, u);
    } else if !DayMatches(spec, zone, t) {
      SameDay(zone, t, u);
      assert !DayMatches(spec, zone, u);
    } else if !HourMatches(spec, zone, t) {
      SameHour(zone, t, u);
      assert !HourMatches(spec, zone, u);
    } else if !MinuteMatches(spec, zone, t) {
      MinuteOrTail(zone, t, u);
      assert !MinuteMatches(spec, zone, u) || !SecondMatches(spec, zone, u);
    } else {
      assert u == t;
    }
  }

  lemma SameDay(zone: int, t: Instant, u: Instant)
    requires InstantOf(zone, DateAt(zone, t), 0) <= u <= t
    ensures DayAt(zone, u) == DayAt(zone, t)
  {
    HourOfDay(zone, t, 0);
  }

  lemma SameHour(zone: int, t: Instant, u: Instant)
    requires InstantOf(zone, DateAt(zone, t), HourAt(zone, t)) <= u <= t
    ensures DayAt(zone, u) == DayAt(zone, t) && HourAt(zone, u) == HourAt(zone, t)
  {
    var day, hour := DayAt(zone, t), HourAt(zone, t);
    HourOfDay(zone, t, hour);
    var x, y := t + zone - day * DAY, u + zone - day * DAY;
    assert x == (t + zone) % DAY;
    assert hour * HOUR <= y <= x < hour * HOUR + HOUR;
    assert DayAt(zone, u) == day;
    assert y == (u + zone) % DAY;
  }

  /** Back to an absolute minute, an instant is in t's local minute or in the
      tail of the one before. */
  lemma MinuteOrTail(zone: int, t: Instant, u: Instant)
    requires TruncateToMinute(t) <= u <= t
    ensures MinuteAt(zone, u) == MinuteAt(zone, t) || (zone % MINUTE != 0 && SecondAt(zone, u) >= zone % MINUTE)
  {
    var k, r := zone / MINUTE, zone % MINUTE;
    assert (t + zone) / MINUTE == k + (t + r) / MINUTE;
    assert (u + zone) / MINUTE == k + (u + r) / MINUTE;
    assert (u + zone) % MINUTE == (u + r) % MINUTE;
  }

  lemma {:induction false} SearchIsLatest(spec: SpecSchedule, zone: int, from: Instant, t: Instant)
    requires MinutesAlign(zone, spec.second)
    ensures IsLatestMatch(spec, zone, from, t, Search(spec, zone, from, t))
    decreases t - from
  {
    if t >= from && !Matches(spec, zone, t) {
      var s := SkipBack(spec, zone, t);
      SearchIsLatest(spec, zone, from, s);
      forall u | s < u <= t ensures !Matches(spec, zone, u) { SkipsNoMatch(spec, zone, t, u); }
    }
  }

  // The zones and masks for which the search is exact

  ghost predicate IsExact(spec: SpecSchedule, zone: int, t: Instant) {
    IsLatestMatch(spec, zone, SearchFrom(zone, t), t, PrevActivation(spec, zone, t))
  }

  /** cronPrev is right for every specification with these seconds, at every
      instant, exactly when MinutesAlign holds. */
  lemma ExactIffMinutesAlign(zone: int, second: Mask)
    ensures (forall spec: SpecSchedule, t: Instant | spec.second == second :: IsExact(spec, zone, t)) <==> MinutesAlign(zone, second)
  {
    if MinutesAlign(zone, second) {
      forall spec: SpecSchedule, t: Instant | spec.second == second ensures IsExact(spec, zone, t) {
        SearchIsLatest(spec, zone, SearchFrom(zone, t), t);
      }
    } else {
      var k :| zone % MINUTE <= k < 60 && HasBit(second, k);
      var t, u := MINUTE - zone, k - zone;
      JumpsOverMatch(NewYear(second), zone, t, u);
    }
  }

  /** The five-field specifications that the operator parses fire only at second
      0, so for them the search is exact in every zone. */
  lemma FiveFieldsExact(spec: SpecSchedule, zone: int, t: Instant)
    requires spec.second == {0}
    ensures IsExact(spec, zone, t)
  {
    SearchIsLatest(spec, zone, SearchFrom(zone, t), t);
  }

  /** Fires in the first minute of January the first, at the given seconds. */
  function NewYear(second: Mask): SpecSchedule {
    SpecSchedule(second, {0}, {0}, {1}, {1}, {})
  }

  lemma FiresAtNewYear(second: Mask, zone: int, t: Instant)
    requires -zone <= t < -zone + HOUR
    ensures Matches(NewYear(second), zone, t) <==>
      MinuteAt(zone, t) == 0 && HasBit(second, SecondAt(zone, t))
  {
    assert DayAt(zone, t) == 0 && HourAt(zone, t) == 0;
  }

  /** From 00:01:00 on 1970-01-01 in a zone r seconds past a whole minute, the
      walk jumps from the first minute's end to its second r - 1. */
  lemma JumpsOverMatch(spec: SpecSchedule, zone: int, t: Instant, u: Instant)
    requires t == MINUTE - zone && zone % MINUTE != 0 && zone % MINUTE <= u + zone < 60
    requires spec == NewYear(spec.second) && HasBit(spec.second, u + zone)
    ensures !IsExact(spec, zone, t)
  {
    SkipFromNewYear(spec, zone, t, u);
    SearchReaches1970(zone, u, t);
    MissesSkippedMatch(spec, zone, t, u);
  }

  lemma SkipFromNewYear(spec: SpecSchedule, zone: int, t: Instant, u: Instant)
    requires t == MINUTE - zone && zone % MINUTE != 0 && zone % MINUTE <= u + zone < 60
    requires spec == NewYear(spec.second) && HasBit(spec.second, u + zone)
    ensures !Matches(spec, zone, t) && Matches(spec, zone, u)
    ensures SkipBack(spec, zone, t) < u
  {
    FiresInFirstMinute(spec, zone, u);
    MinuteFailsAtNewYear(spec, zone, t);
    MinuteBoundary(zone, t);
  }

  lemma FiresInFirstMinute(spec: SpecSchedule, zone: int, u: Instant)
    requires 0 <= u + zone < 60 && spec == NewYear(spec.second) && HasBit(spec.second, u + zone)
    ensures Matches(spec, zone, u)
  {
    assert SecondMatches(spec, zone, u) by { assert SecondAt(zone, u) == u + zone; }
    assert MinuteMatches(spec, zone, u) by { assert MinuteAt(zone, u) == 0; }
    FiresAtNewYear(spec.second, zone, u);
  }

  lemma MinuteFailsAtNewYear(spec: SpecSchedule, zone: int, t: Instant)
    requires t == MINUTE - zone && spec == NewYear(spec.second)
    ensures !Matches(spec, zone, t) && SkipBack(spec, zone, t) == TruncateToMinute(t) - 1
  {
    FiresAtNewYear(spec.second, zone, t);
  }

  lemma MinuteBoundary(zone: int, t: Instant)
    requires t == MINUTE - zone && zone % MINUTE != 0
    ensures TruncateToMinute(t) == zone % MINUTE - zone
  {
    var k, r := zone / MINUTE, zone % MINUTE;
    assert t == MINUTE * -k + (MINUTE - r);
  }

  lemma MissesSkippedMatch(spec: SpecSchedule, zone: int, t: Instant, u: Instant)
    requires !Matches(spec, zone, t) && Matches(spec, zone, u)
    requires SkipBack(spec, zone, t) < u <= t && SearchFrom(zone, t) <= u
    ensures !IsExact(spec, zone, t)
  {
    SearchGoesBack(spec, zone, SearchFrom(zone, t), SkipBack(spec, zone, t));
  }

  lemma {:induction false} SearchGoesBack(spec: SpecSchedule, zone: int, from: Instant, t: Instant)
    ensures Search(spec, zone, from, t).Some? ==> from <= Search(spec, zone, from, t).value <= t
    decreases t - from
  {
    if t >= from && !Matches(spec, zone, t) {
      SearchGoesBack(spec, zone, from, SkipBack(spec, zone, t));
    }
  }

  lemma SearchReaches1970(zone: int, u: Instant, t: Instant)
    requires -zone <= u <= t < -zone + DAY
    ensures SearchFrom(zone, t) <= u
  {
    assert DayAt(zone, t) == 0 && DayAt(zone, u) == 0;
    YearBound(zone, u, 1965);
  }

  // The forward search

  function SearchAhead(spec: SpecSchedule, zone: int, end: Instant, t: Instant): Option<Instant>
    decreases end - t
  {
    if t >= end then None
    else if Matches(spec, zone, t) then Some(t)
    else SearchAhead(spec, zone, end, t + 1)
  }

  /** The end of the years that the forward search covers. */
  function SearchEnd(zone: int, t: Instant): Instant {
    YearStart(zone, YearAt(zone, t) + YEARS_SEARCHED + 1)
  }

  /** SpecSchedule.Next belongs to the cron library: the first firing strictly
      after t, within five years. */
  function NextActivation(spec: SpecSchedule, zone: int, t: Instant): Option<Instant> {
    SearchAhead(spec, zone, SearchEnd(zone, t), t + 1)
  }

  lemma {:induction false} SearchAheadIsEarliest(spec: SpecSchedule, zone: int, end: Instant, t: Instant)
    ensures IsEarliestMatch(spec, zone, end, t, SearchAhead(spec, zone, end, t))
    decreases end - t
  {
    if t < end && !Matches(spec, zone, t) {
      var s := t + 1;
      SearchAheadIsEarliest(spec, zone, end, s);
      forall u | t <= u < s ensures !Matches(spec, zone, u) { assert u == t; }
    }
  }
}
