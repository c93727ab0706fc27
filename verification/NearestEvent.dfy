/** The nearest scheduled event, before or after an instant, over many schedules. */
module NearestEvent {
  import opened Wrappers
  import opened Calendar
  import opened Cron
  import CronPrev

  type Int32 = x: int | -0x8000_0000 <= x < 0x8000_0000

  const MIN_INT32: Int32 := -0x8000_0000

  /** A time zone with the user's extra offset in seconds. */
  datatype Location = Location(zone: int, offset: Int32)

  datatype EventType = Start | Stop | OtherAction(name: string)

  /** An event of the schedule; the schedule is the outcome of parsing its text. */
  datatype EventSpec = EventSpec(action: EventType, schedule: Result<SpecSchedule, string>)

  datatype ScheduledEvent = ScheduledEvent(action: EventType, time: Instant)

  datatype Direction = Next | Previous

  type EventFilter = EventSpec -> bool

  predicate AnyEvent(e: EventSpec) { true }
  predicate IsStop(e: EventSpec) { e.action == Stop }
  predicate IsStart(e: EventSpec) { e.action == Start }

  /** Go's -x on int32: the least value has no opposite. */
  function NegInt32(x: Int32): Int32 {
    if x == MIN_INT32 then x else -x
  }

  lemma OffsetCancels(t: Instant, offset: Int32)
    ensures t + offset + NegInt32(offset) == t <==> offset != MIN_INT32
  {
  }

  /** eventIsNearer, with None for a zero reference time. */
  predicate IsNearer(test: Instant, reference: Option<Instant>, direction: Direction) {
    match reference
    case None => true
    case Some(r) => if direction == Next then test < r else test > r
  }

  /** When a schedule fires nearest to now in a direction. */
  function Occurrence(spec: SpecSchedule, loc: Location, now: Instant, direction: Direction): Option<Instant> {
    var shifted := now + loc.offset;
    var adjacent :=
      if direction == Next then NextActivation(spec, loc.zone, shifted)
      else PrevActivation(spec, loc.zone, shifted);
    match adjacent
    case None => None
    case Some(t) => Some(t + NegInt32(loc.offset))
  }

  /** i is the schedule with the nearest occurrence, the first of those that tie. */
  ghost predicate IsNearestIndex(specs: seq<SpecSchedule>, loc: Location, now: Instant, direction: Direction,
                                 n: nat, time: Option<Instant>, i: int)
    requires n <= |specs|
  {
    match time
    case None => i == -1 && forall j | 0 <= j < n :: Occurrence(specs[j], loc, now, direction) == None
    case Some(t) =>
      && 0 <= i < n && Occurrence(specs[i], loc, now, direction) == Some(t)
      && forall j | 0 <= j < n && Occurrence(specs[j], loc, now, direction).Some? ::
        var u := Occurrence(specs[j], loc, now, direction).value;
        !IsNearer(u, time, direction) && (j < i ==> IsNearer(t, Some(u), direction))
  }

  lemma NearestIndexIsUnique(specs: seq<SpecSchedule>, loc: Location, now: Instant, direction: Direction,
                             time: Option<Instant>, i: int, time': Option<Instant>, i': int)
    requires IsNearestIndex(specs, loc, now, direction, |specs|, time, i)
    requires IsNearestIndex(specs, loc, now, direction, |specs|, time', i')
    ensures time == time' && i == i'
  {
    if time.Some? { assert Occurrence(specs[i], loc, now, direction).Some?; }
    if time'.Some? { assert Occurrence(specs[i'], loc, now, direction).Some?; }
  }

  function NearestSchedule(specs: seq<SpecSchedule>, loc: Location, now: Instant, direction: Direction, n: nat)
    : (r: (Option<Instant>, int))
    requires n <= |specs|
    ensures IsNearestIndex(specs, loc, now, direction, n, r.0, r.1)
  {
    if n == 0 then (None, -1)
    else
      var best := NearestSchedule(specs, loc, now, direction, n - 1);
      match Occurrence(specs[n - 1], loc, now, direction)
      case None => best
      case Some(time) => if IsNearer(time, best.0, direction) then (Some(time), n - 1) else best
  }

  method FindNearestScheduleTime(specs: seq<SpecSchedule>, loc: Location, now: Instant, direction: Direction)
    returns (nearestTime: Option<Instant>, nearestIdx: int)
    ensures IsNearestIndex(specs, loc, now, direction, |specs|, nearestTime, nearestIdx)
  {
    nearestTime, nearestIdx := None, -1;
    var shifted := now + loc.offset;
    for idx := 0 to |specs|
      invariant (nearestTime, nearestIdx) == NearestSchedule(specs, loc, now, direction, idx)
    {
      var adjacent;
      if direction == Next {
        adjacent := NextActivation(specs[idx], loc.zone, shifted);
      } else {
        adjacent := CronPrev.CronPrev(specs[idx], loc.zone, shifted);
      }
      if adjacent == None { continue; }
      var time := adjacent.value + NegInt32(loc.offset);
      assert Occurrence(specs[idx], loc, now, direction) == Some(time);
      if IsNearer(time, nearestTime, direction) {
        nearestTime := Some(time);
        nearestIdx := idx;
      }
    }
  }

  /** The events that a filter lets through. */
  function Considered(events: seq<EventSpec>, filter: EventFilter): seq<EventSpec> {
    if events == [] then []
    else if filter(events[0]) then [events[0]] + Considered(events[1..], filter)
    else Considered(events[1..], filter)
  }

  predicate AllParsed(events: seq<EventSpec>) {
    forall e | e in events :: e.schedule.Ok?
  }

  function Schedules(events: seq<EventSpec>): (specs: seq<SpecSchedule>)
    requires AllParsed(events)
    ensures |specs| == |events| && forall i | 0 <= i < |events| :: specs[i] == events[i].schedule.value
  {
    seq(|events|, i requires 0 <= i < |events| => assert events[i] in events; events[i].schedule.value)
  }

  /** What findNearestEvent promises: an error exactly when an event it considers
      does not parse, and otherwise the nearest occurrence with its event's action. */
  ghost predicate IsNearestEvent(events: seq<EventSpec>, loc: Location, now: Instant, direction: Direction,
                                 filter: EventFilter, r: Result<Option<ScheduledEvent>, string>)
  {
    var kept := Considered(events, filter);
    if !AllParsed(kept) then
      exists i | 0 <= i < |kept| :: kept[i].schedule.Err? && AllParsed(kept[..i]) && r == Err(kept[i].schedule.error)
    else
      && r.Ok?
      && match r.value
         case None => IsNearestIndex(Schedules(kept), loc, now, direction, |kept|, None, -1)
         case Some(e) => exists i | 0 <= i < |kept| ::
           kept[i].action == e.action && IsNearestIndex(Schedules(kept), loc, now, direction, |kept|, Some(e.time), i)
  }

  function Nearest(events: seq<EventSpec>, loc: Location, now: Instant, direction: Direction, filter: EventFilter)
    : Result<Option<ScheduledEvent>, string>
  {
    NearestOf(Considered(events, filter), loc, now, direction)
  }

  function NearestOf(kept: seq<EventSpec>, loc: Location, now: Instant, direction: Direction)
    : Result<Option<ScheduledEvent>, string>
  {
    if AllParsed(kept) then
      var (time, i) := NearestSchedule(Schedules(kept), loc, now, direction, |kept|);
      if time == None then Ok(None) else Ok(Some(ScheduledEvent(kept[i].action, time.value)))
    else Err(FirstParseError(kept, 0))
  }

  lemma NearestIsNearestEvent(events: seq<EventSpec>, loc: Location, now: Instant, direction: Direction, filter: EventFilter)
    ensures IsNearestEvent(events, loc, now, direction, filter, Nearest(events, loc, now, direction, filter))
  {
    var kept := Considered(events, filter);
    if AllParsed(kept) {
      var (time, i) := NearestSchedule(Schedules(kept), loc, now, direction, |kept|);
    }
  }

  function FirstParseError(kept: seq<EventSpec>, n: nat): (e: string)
    requires n <= |kept| && AllParsed(kept[..n]) && !AllParsed(kept)
    ensures exists i | 0 <= i < |kept| :: kept[i].schedule.Err? && AllParsed(kept[..i]) && e == kept[i].schedule.error
    decreases |kept| - n
  {
    assert kept[..|kept|] == kept;
    if kept[n].schedule.Err? then kept[n].schedule.error
    else
      assert kept[..n + 1] == kept[..n] + [kept[n]];
      FirstParseError(kept, n + 1)
  }

  lemma NearestEventIsUnique(events: seq<EventSpec>, loc: Location, now: Instant, direction: Direction,
                             filter: EventFilter, r: Result<Option<ScheduledEvent>, string>,
                             r': Result<Option<ScheduledEvent>, string>)
    requires IsNearestEvent(events, loc, now, direction, filter, r)
    requires IsNearestEvent(events, loc, now, direction, filter, r')
    ensures r == r'
  {
    var kept := Considered(events, filter);
    if AllParsed(kept) {
      var specs := Schedules(kept);
      var time, i := WitnessIndex(kept, loc, now, direction, r.value);
      var time', i' := WitnessIndex(kept, loc, now, direction, r'.value);
      NearestIndexIsUnique(specs, loc, now, direction, time, i, time', i');
    } else {
      var i :| 0 <= i < |kept| && kept[i].schedule.Err? && AllParsed(kept[..i]) && r == Err(kept[i].schedule.error);
      var i' :| 0 <= i' < |kept| && kept[i'].schedule.Err? && AllParsed(kept[..i']) && r' == Err(kept[i'].schedule.error);
      ParsedBelow(kept, i);
      ParsedBelow(kept, i');
    }
  }

  lemma ParsedBelow(kept: seq<EventSpec>, i: nat)
    requires i <= |kept| && AllParsed(kept[..i])
    ensures forall j | 0 <= j < i :: kept[j].schedule.Ok?
  {
    forall j | 0 <= j < i ensures kept[j].schedule.Ok? { assert kept[j] in kept[..i]; }
  }

  lemma WitnessIndex(kept: seq<EventSpec>, loc: Location, now: Instant, direction: Direction,
                     r: Option<ScheduledEvent>) returns (time: Option<Instant>, i: int)
    requires AllParsed(kept)
    requires match r
      case None => IsNearestIndex(Schedules(kept), loc, now, direction, |kept|, None, -1)
      case Some(e) => exists i | 0 <= i < |kept| ::
        kept[i].action == e.action && IsNearestIndex(Schedules(kept), loc, now, direction, |kept|, Some(e.time), i)
    ensures IsNearestIndex(Schedules(kept), loc, now, direction, |kept|, time, i)
    ensures r == if time == None then None
      else Some(ScheduledEvent(assert 0 <= i < |kept|; kept[i].action, time.value))
  {
    match r
    case None => time, i := None, -1;
    case Some(e) =>
      i :| 0 <= i < |kept| && kept[i].action == e.action
        && IsNearestIndex(Schedules(kept), loc, now, direction, |kept|, Some(e.time), i);
      time := Some(e.time);
  }

  lemma ConsideredOne(events: seq<EventSpec>, n: nat, filter: EventFilter)
    requires n < |events|
    ensures Considered(events[..n + 1], filter)
      == Considered(events[..n], filter) + if filter(events[n]) then [events[n]] else []
  {
    if n == 0 {
      assert events[..1] == [events[0]];
    } else {
      assert events[..n + 1][1..] == events[1..][..n] && events[..n][1..] == events[1..][..n - 1];
      ConsideredOne(events[1..], n - 1, filter);
    }
  }

  method FindNearestEvent(events: seq<EventSpec>, loc: Location, now: Instant, direction: Direction,
                          filter: EventFilter) returns (r: Result<Option<ScheduledEvent>, string>)
    ensures r == Nearest(events, loc, now, direction, filter)
  {
    var cronSchedules: seq<SpecSchedule> := [];
    var actions: seq<EventType> := [];
    for n := 0 to |events|
      invariant var kept := Considered(events[..n], filter);
        && AllParsed(kept) && cronSchedules == Schedules(kept)
        && |actions| == |kept| && forall i | 0 <= i < |kept| :: actions[i] == kept[i].action
    {
      ConsideredOne(events, n, filter);
      if !filter(events[n]) { continue; }
      if events[n].schedule.Err? {
        FirstError(events, n, filter);
        NearestIsNearestEvent(events, loc, now, direction, filter);
        NearestEventIsUnique(events, loc, now, direction, filter, Err(events[n].schedule.error),
                             Nearest(events, loc, now, direction, filter));
        return Err(events[n].schedule.error);
      }
      cronSchedules := cronSchedules + [events[n].schedule.value];
      actions := actions + [events[n].action];
    }
    assert events[..|events|] == events;
    var time, idx := FindNearestScheduleTime(cronSchedules, loc, now, direction);
    r := if time == None then Ok(None) else Ok(Some(ScheduledEvent(actions[idx], time.value)));
    NearestIsNearestEvent(events, loc, now, direction, filter);
    NearestEventIsUnique(events, loc, now, direction, filter, r, Nearest(events, loc, now, direction, filter));
  }

  lemma FirstError(events: seq<EventSpec>, n: nat, filter: EventFilter)
    requires n < |events| && filter(events[n]) && events[n].schedule.Err?
    requires AllParsed(Considered(events[..n], filter))
    ensures var kept := Considered(events, filter);
      exists i | 0 <= i < |kept| ::
        kept[i].schedule.Err? && AllParsed(kept[..i]) && events[n].schedule == kept[i].schedule
  {
    ConsideredAppend(events[..n], events[n..], filter);
    assert events[..n] + events[n..] == events;
    var before, kept := Considered(events[..n], filter), Considered(events, filter);
    assert kept[..|before|] == before && kept[|before|] == events[n];
  }

  lemma ConsideredAppend(a: seq<EventSpec>, b: seq<EventSpec>, filter: EventFilter)
    ensures Considered(a + b, filter) == Considered(a, filter) + Considered(b, filter)
  {
    if a == [] {
      assert a + b == b;
    } else {
      assert (a + b)[1..] == a[1..] + b;
      ConsideredAppend(a[1..], b, filter);
    }
  }
}
