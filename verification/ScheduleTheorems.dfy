/**
  What the schedule state means, in terms of the instants at which events fire:
  the nearest event is the latest or the earliest firing, no transition is missed
  between now and the next event, and the run period agrees with "should run".
 */
module ScheduleTheorems {
  import opened Wrappers
  import opened Calendar
  import opened Cron
  import opened NearestEvent
  import opened ScheduleState

  /** The event fires at the real instant t: the cron fields match in the zone
      moved by the user's offset. */
  predicate Fires(e: EventSpec, loc: Location, t: Instant) {
    e.schedule.Ok? && Matches(e.schedule.value, loc.zone, t + loc.offset)
  }

  /** The five calendar years that a search from t covers, in real instants. */
  function WindowFrom(loc: Location, t: Instant): Instant { SearchFrom(loc.zone, t + loc.offset) - loc.offset }
  function WindowEnd(loc: Location, t: Instant): Instant { SearchEnd(loc.zone, t + loc.offset) - loc.offset }

  ghost predicate Quiet(events: seq<EventSpec>, loc: Location, lo: Instant, hi: Instant) {
    forall e, t | e in events && lo <= t <= hi :: !Fires(e, loc, t)
  }

  /** Event i is the first listed of those that fire at t. */
  ghost predicate FiresFirst(events: seq<EventSpec>, loc: Location, t: Instant, i: int) {
    0 <= i < |events| && Fires(events[i], loc, t) && forall j | 0 <= j < i :: !Fires(events[j], loc, t)
  }

  ghost predicate HappensAt(events: seq<EventSpec>, loc: Location, s: ScheduledEvent) {
    exists i :: FiresFirst(events, loc, s.time, i) && events[i].action == s.action
  }

  /** r is the last thing that happened in [from, now]. */
  ghost predicate IsLastEvent(events: seq<EventSpec>, loc: Location, from: Instant, now: Instant, r: Option<ScheduledEvent>) {
    match r
    case None => Quiet(events, loc, from, now)
    case Some(s) => from <= s.time <= now && HappensAt(events, loc, s) && Quiet(events, loc, s.time + 1, now)
  }

  /** r is the first thing that happens in (now, end). */
  ghost predicate IsFirstEvent(events: seq<EventSpec>, loc: Location, now: Instant, end: Instant, r: Option<ScheduledEvent>) {
    match r
    case None => Quiet(events, loc, now + 1, end - 1)
    case Some(s) => now < s.time < end && HappensAt(events, loc, s) && Quiet(events, loc, now + 1, s.time - 1)
  }

  lemma HappensOnce(events: seq<EventSpec>, loc: Location, a: ScheduledEvent, b: ScheduledEvent)
    requires HappensAt(events, loc, a) && HappensAt(events, loc, b) && a.time == b.time
    ensures a == b
  {
    var i :| FiresFirst(events, loc, a.time, i) && events[i].action == a.action;
    var j :| FiresFirst(events, loc, b.time, j) && events[j].action == b.action;
    assert i == j;
  }

  lemma HappensNotQuiet(events: seq<EventSpec>, loc: Location, s: ScheduledEvent, lo: Instant, hi: Instant)
    requires HappensAt(events, loc, s) && Quiet(events, loc, lo, hi)
    ensures !(lo <= s.time <= hi)
  {
    var i :| FiresFirst(events, loc, s.time, i);
    assert events[i] in events;
  }

  lemma LastEventIsUnique(events: seq<EventSpec>, loc: Location, from: Instant, now: Instant,
                          a: Option<ScheduledEvent>, b: Option<ScheduledEvent>)
    requires IsLastEvent(events, loc, from, now, a) && IsLastEvent(events, loc, from, now, b)
    ensures a == b
  {
    if a.Some? { HappensNotQuiet(events, loc, a.value, if b.Some? then b.value.time + 1 else from, now); }
    if b.Some? { HappensNotQuiet(events, loc, b.value, if a.Some? then a.value.time + 1 else from, now); }
    if a.Some? && b.Some? { HappensOnce(events, loc, a.value, b.value); }
  }

  lemma FirstEventIsUnique(events: seq<EventSpec>, loc: Location, now: Instant, end: Instant,
                           a: Option<ScheduledEvent>, b: Option<ScheduledEvent>)
    requires IsFirstEvent(events, loc, now, end, a) && IsFirstEvent(events, loc, now, end, b)
    ensures a == b
  {
    if a.Some? { HappensNotQuiet(events, loc, a.value, now + 1, if b.Some? then b.value.time - 1 else end - 1); }
    if b.Some? { HappensNotQuiet(events, loc, b.value, now + 1, if a.Some? then a.value.time - 1 else end - 1); }
    if a.Some? && b.Some? { HappensOnce(events, loc, a.value, b.value); }
  }

  // The nearest event is the last, or the first, firing

  ghost predicate Aligned(events: seq<EventSpec>, loc: Location) {
    forall e | e in events && e.schedule.Ok? :: MinutesAlign(loc.zone, e.schedule.value.second)
  }

  /** The searches find what they should: the seconds align with the zone and the
      offset can be taken back. */
  ghost predicate Searchable(events: seq<EventSpec>, loc: Location) {
    AllParsed(events) && Aligned(events, loc) && loc.offset != MIN_INT32
  }

  lemma PreviousOccurrence(e: EventSpec, loc: Location, now: Instant)
    requires Searchable([e], loc)
    ensures var r := Occurrence(e.schedule.value, loc, now, Previous);
      if r == None then forall t | WindowFrom(loc, now) <= t <= now :: !Fires(e, loc, t)
      else
        && WindowFrom(loc, now) <= r.value <= now && Fires(e, loc, r.value)
        && forall t | r.value < t <= now :: !Fires(e, loc, t)
  {
    assert e in [e];
    var spec, from := e.schedule.value, SearchFrom(loc.zone, now + loc.offset);
    SearchIsLatest(spec, loc.zone, from, now + loc.offset);
    var found := PrevActivation(spec, loc.zone, now + loc.offset);
    assert IsLatestMatch(spec, loc.zone, from, now + loc.offset, found);
    assert found.Some? ==> Occurrence(spec, loc, now, Previous) == Some(found.value - loc.offset);
  }

  lemma NextOccurrence(e: EventSpec, loc: Location, now: Instant)
    requires Searchable([e], loc)
    ensures var r := Occurrence(e.schedule.value, loc, now, Next);
      if r == None then forall t | now < t < WindowEnd(loc, now) :: !Fires(e, loc, t)
      else
        && now < r.value < WindowEnd(loc, now) && Fires(e, loc, r.value)
        && forall t | now < t < r.value :: !Fires(e, loc, t)
  {
    assert e in [e];
    SearchAheadIsEarliest(e.schedule.value, loc.zone, SearchEnd(loc.zone, now + loc.offset), now + loc.offset + 1);
  }

  lemma SearchableOne(events: seq<EventSpec>, loc: Location, i: nat)
    requires Searchable(events, loc) && i < |events|
    ensures Searchable([events[i]], loc)
  {
    assert events[i] in events;
  }

  lemma PreviousIsLastEvent(events: seq<EventSpec>, loc: Location, now: Instant, filter: EventFilter)
    requires var kept := Considered(events, filter); Searchable(kept, loc)
    ensures var r := Nearest(events, loc, now, Previous, filter);
      r.Ok? && IsLastEvent(Considered(events, filter), loc, WindowFrom(loc, now), now, r.value)
  {
    var kept := Considered(events, filter);
    var specs := Schedules(kept);
    NearestIsNearestEvent(events, loc, now, Previous, filter);
    var r := Nearest(events, loc, now, Previous, filter).value;
    var time, i := WitnessIndex(kept, loc, now, Previous, r);
    forall j | 0 <= j < |kept|
      ensures var o := Occurrence(specs[j], loc, now, Previous);
        if o == None then forall t | WindowFrom(loc, now) <= t <= now :: !Fires(kept[j], loc, t)
        else
          && WindowFrom(loc, now) <= o.value <= now && Fires(kept[j], loc, o.value)
          && forall t | o.value < t <= now :: !Fires(kept[j], loc, t)
    {
      SearchableOne(kept, loc, j);
      PreviousOccurrence(kept[j], loc, now);
    }
    if r.Some? {
      forall j | 0 <= j < i ensures !Fires(kept[j], loc, r.value.time) {
        var o := Occurrence(specs[j], loc, now, Previous);
      }
      assert FiresFirst(kept, loc, r.value.time, i);
      forall e, t | e in kept && r.value.time + 1 <= t <= now ensures !Fires(e, loc, t) {
        var j :| 0 <= j < |kept| && kept[j] == e;
        var o := Occurrence(specs[j], loc, now, Previous);
      }
    }
  }

  lemma NextIsFirstEvent(events: seq<EventSpec>, loc: Location, now: Instant, filter: EventFilter)
    requires var kept := Considered(events, filter); Searchable(kept, loc)
    ensures var r := Nearest(events, loc, now, Next, filter);
      r.Ok? && IsFirstEvent(Considered(events, filter), loc, now, WindowEnd(loc, now), r.value)
  {
    var kept := Considered(events, filter);
    var specs := Schedules(kept);
    NearestIsNearestEvent(events, loc, now, Next, filter);
    var r := Nearest(events, loc, now, Next, filter).value;
    var time, i := WitnessIndex(kept, loc, now, Next, r);
    forall j | 0 <= j < |kept|
      ensures var o := Occurrence(specs[j], loc, now, Next);
        if o == None then forall t | now < t < WindowEnd(loc, now) :: !Fires(kept[j], loc, t)
        else
          && now < o.value < WindowEnd(loc, now) && Fires(kept[j], loc, o.value)
          && forall t | now < t < o.value :: !Fires(kept[j], loc, t)
    {
      SearchableOne(kept, loc, j);
      NextOccurrence(kept[j], loc, now);
    }
    if r.Some? {
      forall j | 0 <= j < i ensures !Fires(kept[j], loc, r.value.time) {
        var o := Occurrence(specs[j], loc, now, Next);
      }
      assert FiresFirst(kept, loc, r.value.time, i);
      forall e, t | e in kept && now + 1 <= t <= r.value.time - 1 ensures !Fires(e, loc, t) {
        var j :| 0 <= j < |kept| && kept[j] == e;
        var o := Occurrence(specs[j], loc, now, Next);
      }
    }
  }

  // No missed transition

  lemma SearchFromAdvances(zone: int, t: Instant, u: Instant)
    requires t <= u
    ensures SearchFrom(zone, t) <= SearchFrom(zone, u) && SearchFrom(zone, t) <= t
    ensures YearAt(zone, t) <= YearAt(zone, u)
  {
    var y := YearAt(zone, t);
    YearBound(zone, t, y);
    YearBound(zone, u, y);
    YearStartsIncrease(zone, y - YEARS_SEARCHED, y);
    YearStartsIncrease(zone, y - YEARS_SEARCHED, YearAt(zone, u) - YEARS_SEARCHED);
  }

  lemma SearchEndAdvances(zone: int, t: Instant, u: Instant)
    requires t <= u
    ensures SearchEnd(zone, t) <= SearchEnd(zone, u) && t < SearchEnd(zone, t)
  {
    var end := YearAt(zone, t) + YEARS_SEARCHED + 1;
    YearBound(zone, t, end);
    SearchFromAdvances(zone, t, u);
    YearStartsIncrease(zone, end, YearAt(zone, u) + YEARS_SEARCHED + 1);
  }

  lemma WindowsAdvance(loc: Location, t: Instant, u: Instant)
    requires t <= u
    ensures WindowFrom(loc, t) <= WindowFrom(loc, u) && WindowEnd(loc, t) <= WindowEnd(loc, u)
    ensures WindowFrom(loc, t) <= t < WindowEnd(loc, t)
  {
    SearchFromAdvances(loc.zone, t + loc.offset, u + loc.offset);
    SearchEndAdvances(loc.zone, t + loc.offset, u + loc.offset);
  }

  lemma YearStartsIncrease(zone: int, a: int, b: int)
    requires a <= b
    ensures YearStart(zone, a) <= YearStart(zone, b)
  {
    if a < b { YearsIncrease(a, b); }
  }

  /** A stop that is still within the backward window of t has t within its own
      forward window. */
  lemma WindowsMeet(loc: Location, stop: Instant, t: Instant)
    requires WindowFrom(loc, t) <= stop
    ensures t < WindowEnd(loc, stop)
  {
    var a, b := stop + loc.offset, t + loc.offset;
    YearBound(loc.zone, a, YearAt(loc.zone, b) - YEARS_SEARCHED);
    YearBound(loc.zone, b, YearAt(loc.zone, b) + 1);
    YearStartsIncrease(loc.zone, YearAt(loc.zone, b) + 1, YearAt(loc.zone, a) + YEARS_SEARCHED + 1);
  }

  /** The five-year window at t has not yet dropped the event. */
  predicate StillSeen(loc: Location, time: Option<Instant>, t: Instant) {
    time.Some? ==> WindowFrom(loc, t) <= time.value
  }

  function TimeOfEvent(e: Option<ScheduledEvent>): Option<Instant> {
    match e case None => None case Some(s) => Some(s.time)
  }

  /** While nothing fires, the previous event stays what it was for as long as the
      window sees it, and there is none afterwards. */
  lemma PreviousPersists(events: seq<EventSpec>, loc: Location, now: Instant, later: Instant, filter: EventFilter)
    requires var kept := Considered(events, filter);
      Searchable(kept, loc) && now <= later && Quiet(kept, loc, now + 1, later)
    ensures var p := Nearest(events, loc, now, Previous, filter);
      && p.Ok?
      && Nearest(events, loc, later, Previous, filter)
        == if StillSeen(loc, TimeOfEvent(p.value), later) then p else Ok(None)
  {
    var kept := Considered(events, filter);
    PreviousIsLastEvent(events, loc, now, filter);
    PreviousIsLastEvent(events, loc, later, filter);
    WindowsAdvance(loc, now, later);
    var p := Nearest(events, loc, now, Previous, filter).value;
    var expected := if StillSeen(loc, TimeOfEvent(p), later) then p else None;
    var r := Nearest(events, loc, later, Previous, filter).value;
    assert IsLastEvent(kept, loc, WindowFrom(loc, later), later, expected);
    LastEventIsUnique(kept, loc, WindowFrom(loc, later), later, expected, r);
  }

  lemma NextPersists(events: seq<EventSpec>, loc: Location, now: Instant, later: Instant, filter: EventFilter)
    requires Searchable(Considered(events, filter), loc)
    requires var n := Nearest(events, loc, now, Next, filter);
      n.Ok? && n.value.Some? && now <= later < n.value.value.time
    ensures Nearest(events, loc, later, Next, filter) == Nearest(events, loc, now, Next, filter)
  {
    var kept := Considered(events, filter);
    NextIsFirstEvent(events, loc, now, filter);
    NextIsFirstEvent(events, loc, later, filter);
    WindowsAdvance(loc, now, later);
    var n := Nearest(events, loc, now, Next, filter).value;
    assert IsFirstEvent(kept, loc, later, WindowEnd(loc, later), n);
    FirstEventIsUnique(kept, loc, later, WindowEnd(loc, later), n, Nearest(events, loc, later, Next, filter).value);
  }

  lemma EveryEventConsidered(events: seq<EventSpec>)
    ensures Considered(events, AnyEvent) == events
  {
    if events != [] { EveryEventConsidered(events[1..]); }
  }

  lemma ConsideredMembers(events: seq<EventSpec>, filter: EventFilter)
    ensures forall e :: e in Considered(events, filter) <==> e in events && filter(e)
  {
    if events != [] { ConsideredMembers(events[1..], filter); }
  }

  ghost predicate ScheduleSearchable(s: Schedule) {
    s.zone.Ok? && Searchable(s.events, Location(s.zone.value, s.offset))
  }

  lemma FilteredSearchable(events: seq<EventSpec>, loc: Location, filter: EventFilter)
    requires Searchable(events, loc)
    ensures Searchable(Considered(events, filter), loc)
  {
    ConsideredMembers(events, filter);
  }

  /** From now until the next event the whole state stays the same, exactly as long
      as the five-year window still sees the last event and the last stop. */
  lemma NoTransitionBeforeNext(s: Schedule, now: Instant, later: Instant)
    requires ScheduleSearchable(s) && StateFor(s, now).Ok? && StateFor(s, now).value.next.Some?
    requires now <= later < StateFor(s, now).value.next.value.time
    ensures var loc, st := Location(s.zone.value, s.offset), StateFor(s, now).value;
      StateFor(s, later) == Ok(st) <==>
        StillSeen(loc, TimeOfEvent(st.previous), later) && StillSeen(loc, st.lastStop, later)
  {
    var loc, next := Location(s.zone.value, s.offset), StateFor(s, now).value.next;
    EveryEventConsidered(s.events);
    NextIsFirstEvent(s.events, loc, now, AnyEvent);
    NextPersists(s.events, loc, now, later, AnyEvent);
    BothPrevious(s.events, loc, now, later);
  }

  lemma BothPrevious(events: seq<EventSpec>, loc: Location, now: Instant, later: Instant)
    requires Searchable(events, loc) && now <= later && Quiet(events, loc, now + 1, later)
    ensures var p := Nearest(events, loc, now, Previous, AnyEvent);
      p.Ok? && Nearest(events, loc, later, Previous, AnyEvent)
        == if StillSeen(loc, TimeOfEvent(p.value), later) then p else Ok(None)
    ensures var p := Nearest(events, loc, now, Previous, IsStop);
      p.Ok? && Nearest(events, loc, later, Previous, IsStop)
        == if StillSeen(loc, TimeOfEvent(p.value), later) then p else Ok(None)
  {
    EveryEventConsidered(events);
    PreviousPersists(events, loc, now, later, AnyEvent);
    FilteredSearchable(events, loc, IsStop);
    ConsideredMembers(events, IsStop);
    PreviousPersists(events, loc, now, later, IsStop);
  }

  /** At the next event's instant, that event is the previous one. */
  lemma TransitionAtNext(s: Schedule, now: Instant)
    requires ScheduleSearchable(s) && StateFor(s, now).Ok? && StateFor(s, now).value.next.Some?
    ensures var loc, next := Location(s.zone.value, s.offset), StateFor(s, now).value.next;
      && now < next.value.time
      && Nearest(s.events, loc, next.value.time, Previous, AnyEvent) == Ok(next)
  {
    var loc := Location(s.zone.value, s.offset);
    EveryEventConsidered(s.events);
    NextIsFirstEvent(s.events, loc, now, AnyEvent);
    FiresAtItsInstant(s.events, loc, now, StateFor(s, now).value.next);
  }

  lemma FiresAtItsInstant(events: seq<EventSpec>, loc: Location, now: Instant, next: Option<ScheduledEvent>)
    requires Searchable(events, loc) && next.Some?
    requires IsFirstEvent(events, loc, now, WindowEnd(loc, now), next)
    ensures Nearest(events, loc, next.value.time, Previous, AnyEvent) == Ok(next)
  {
    var t := next.value.time;
    EveryEventConsidered(events);
    PreviousIsLastEvent(events, loc, t, AnyEvent);
    WindowsAdvance(loc, t, t);
    LastEventIsUnique(events, loc, WindowFrom(loc, t), t, next, Nearest(events, loc, t, Previous, AnyEvent).value);
  }

  // The run period

  /** Of the events that fire at t, the first listed is a start. */
  ghost predicate StartsFirst(events: seq<EventSpec>, loc: Location, t: Instant) {
    exists i :: FiresFirst(events, loc, t, i) && events[i].action == Start
  }

  lemma StopIsLastStop(s: Schedule, now: Instant)
    requires ScheduleSearchable(s) && StateFor(s, now).Ok? && StateFor(s, now).value.lastStop.Some?
    ensures var loc, stop := Location(s.zone.value, s.offset), StateFor(s, now).value.lastStop.value;
      && WindowFrom(loc, now) <= stop <= now
      && (exists e :: e in s.events && IsStop(e) && Fires(e, loc, stop))
      && forall e, t | e in s.events && IsStop(e) && stop < t <= now :: !Fires(e, loc, t)
  {
    var loc := Location(s.zone.value, s.offset);
    FilteredSearchable(s.events, loc, IsStop);
    PreviousIsLastEvent(s.events, loc, now, IsStop);
    ConsideredMembers(s.events, IsStop);
    var kept, r := Considered(s.events, IsStop), Nearest(s.events, loc, now, Previous, IsStop).value.value;
    var i :| FiresFirst(kept, loc, r.time, i);
    assert kept[i] in kept;
  }

  lemma StartIsFirstStart(s: Schedule, now: Instant)
    requires ScheduleSearchable(s) && StateFor(s, now).Ok? && StateFor(s, now).value.lastStop.Some?
    ensures var loc, st := Location(s.zone.value, s.offset), StateFor(s, now).value;
      var stop := st.lastStop.value;
      match st.runPeriodStart
      case None => forall e, t | e in s.events && IsStart(e) && stop < t < WindowEnd(loc, stop) :: !Fires(e, loc, t)
      case Some(start) =>
        && stop < start && (exists e :: e in s.events && IsStart(e) && Fires(e, loc, start))
        && forall e, t | e in s.events && IsStart(e) && stop < t < start :: !Fires(e, loc, t)
  {
    var loc, st := Location(s.zone.value, s.offset), StateFor(s, now).value;
    var stop := st.lastStop.value;
    FilteredSearchable(s.events, loc, IsStart);
    NextIsFirstEvent(s.events, loc, stop, IsStart);
    ConsideredMembers(s.events, IsStart);
    if st.runPeriodStart.Some? {
      var kept, r := Considered(s.events, IsStart), Nearest(s.events, loc, stop, Next, IsStart).value.value;
      var i :| FiresFirst(kept, loc, r.time, i);
      assert kept[i] in kept;
    }
  }

  lemma StartHasPassed(events: seq<EventSpec>, loc: Location, now: Instant, stop: Instant, start: Option<Instant>)
    requires now < WindowEnd(loc, stop)
    requires match start
      case None => forall e, t | e in events && IsStart(e) && stop < t < WindowEnd(loc, stop) :: !Fires(e, loc, t)
      case Some(first) =>
        && stop < first && (exists e :: e in events && IsStart(e) && Fires(e, loc, first))
        && forall e, t | e in events && IsStart(e) && stop < t < first :: !Fires(e, loc, t)
    ensures (start.Some? && start.value <= now)
      <==> exists e, t | e in events && IsStart(e) && stop < t <= now :: Fires(e, loc, t)
  {
  }

  /** With only starts and stops, the run period starts after the last stop, and the
      job should be running when that start has passed, or else when a start that
      coincides with the last stop is listed before it. */
  lemma RunPeriodCoherence(s: Schedule, now: Instant)
    requires ScheduleSearchable(s) && StateFor(s, now).Ok? && StateFor(s, now).value.lastStop.Some?
    requires forall e | e in s.events :: e.action == Start || e.action == Stop
    ensures var loc, st := Location(s.zone.value, s.offset), StateFor(s, now).value;
      && (st.runPeriodStart.Some? ==> st.lastStop.value < st.runPeriodStart.value)
      && (st.ShouldBeRunning() <==>
        || (st.runPeriodStart.Some? && st.runPeriodStart.value <= now)
        || StartsFirst(s.events, loc, st.lastStop.value))
  {
    var loc, st := Location(s.zone.value, s.offset), StateFor(s, now).value;
    var stop := st.lastStop.value;
    PreviousOfState(s, now);
    StopIsLastStop(s, now);
    StartIsFirstStart(s, now);
    WindowsMeet(loc, stop, now);
    StartHasPassed(s.events, loc, now, stop, st.runPeriodStart);
    LastEventSinceStop(s.events, loc, now, stop, st.previous);
    ShouldRun(s.events, loc, stop, st.previous.value);
  }

  lemma PreviousOfState(s: Schedule, now: Instant)
    requires ScheduleSearchable(s) && StateFor(s, now).Ok?
    ensures var loc := Location(s.zone.value, s.offset);
      IsLastEvent(s.events, loc, WindowFrom(loc, now), now, StateFor(s, now).value.previous)
  {
    var loc, kept := Location(s.zone.value, s.offset), Considered(s.events, AnyEvent);
    EveryEventConsidered(s.events);
    PreviousIsLastEvent(s.events, loc, now, AnyEvent);
    assert IsLastEvent(kept, loc, WindowFrom(loc, now), now, StateFor(s, now).value.previous);
  }

  /** The last event is a start after the stop, or at the stop and listed first. */
  lemma ShouldRun(events: seq<EventSpec>, loc: Location, stop: Instant, p: ScheduledEvent)
    requires stop <= p.time && (p.time > stop ==> p.action == Start)
    requires p.time == stop ==> (p.action == Start <==> StartsFirst(events, loc, stop))
    ensures p.action == Start <==> p.time > stop || StartsFirst(events, loc, stop)
  {
  }

  lemma LastEventSinceStop(events: seq<EventSpec>, loc: Location, now: Instant, stop: Instant,
                           previous: Option<ScheduledEvent>)
    requires forall e | e in events :: e.action == Start || e.action == Stop
    requires WindowFrom(loc, now) <= stop <= now
    requires IsLastEvent(events, loc, WindowFrom(loc, now), now, previous)
    requires exists e :: e in events && IsStop(e) && Fires(e, loc, stop)
    requires forall e, t | e in events && IsStop(e) && stop < t <= now :: !Fires(e, loc, t)
    ensures previous.Some? && stop <= previous.value.time <= now
    ensures previous.value.time > stop <==> exists e, t | e in events && IsStart(e) && stop < t <= now :: Fires(e, loc, t)
    ensures previous.value.time > stop ==> previous.value.action == Start
    ensures previous.value.time == stop ==> (previous.value.action == Start <==> StartsFirst(events, loc, stop))
  {
    var e :| e in events && IsStop(e) && Fires(e, loc, stop);
    var p := previous.value;
    var i :| FiresFirst(events, loc, p.time, i) && events[i].action == p.action;
    assert events[i] in events;
    if p.time == stop && StartsFirst(events, loc, stop) {
      var j :| FiresFirst(events, loc, stop, j) && events[j].action == Start;
      assert i == j;
    }
  }

  /** The start of the run period is the same for every reconcile that sees the same
      last stop: with no stop in between, two reconciles agree on it as long as the
      window of the later one still sees that stop. */
  lemma SamePeriodSameStart(s: Schedule, now: Instant, later: Instant)
    requires ScheduleSearchable(s) && now <= later
    requires StateFor(s, now).Ok? && StateFor(s, later).Ok?
    requires var loc := Location(s.zone.value, s.offset);
      && (forall e, t | e in s.events && IsStop(e) && now < t <= later :: !Fires(e, loc, t))
      && StillSeen(loc, StateFor(s, now).value.lastStop, later)
    ensures StateFor(s, later).value.lastStop == StateFor(s, now).value.lastStop
    ensures StateFor(s, later).value.runPeriodStart == StateFor(s, now).value.runPeriodStart
  {
    var loc := Location(s.zone.value, s.offset);
    FilteredSearchable(s.events, loc, IsStop);
    ConsideredMembers(s.events, IsStop);
    PreviousPersists(s.events, loc, now, later, IsStop);
  }

  /** With the least int32 offset, taking the offset back moves a reported event 2^32
      seconds before the instant at which it fires, in both directions. */
  lemma LeastOffsetMisplaces(e: EventSpec, loc: Location, now: Instant, direction: Direction)
    requires AllParsed([e]) && Aligned([e], loc) && loc.offset == MIN_INT32
    requires Occurrence((assert e in [e]; e.schedule.value), loc, now, direction).Some?
    ensures var fired := Occurrence(e.schedule.value, loc, now, direction).value + 0x1_0000_0000;
      Fires(e, loc, fired) && if direction == Next then fired > now else fired <= now
  {
    assert e in [e];
    var spec, shifted := e.schedule.value, now + loc.offset;
    SearchIsLatest(spec, loc.zone, SearchFrom(loc.zone, shifted), shifted);
    SearchAheadIsEarliest(spec, loc.zone, SearchEnd(loc.zone, shifted), shifted + 1);
  }
}
