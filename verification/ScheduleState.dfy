/** The state of a schedule at an instant: what fired last, what fires next, and
    which run period it is. */
module ScheduleState {
  import opened Wrappers
  import opened Calendar
  import opened NearestEvent

  /** The parts of a ControlledJob's specification that say when it runs. The zone
      is the outcome of looking its name up. */
  datatype Schedule = Schedule(events: seq<EventSpec>, zone: Result<int, string>, offset: Int32)

  const NO_STOP_EVENTS := "No previous stop events found, only start events"

  datatype State = State(
    lastStop: Option<Instant>,
    runPeriodStart: Option<Instant>,
    previous: Option<ScheduledEvent>,
    next: Option<ScheduledEvent>)
  {
    function NextEventTime(): Option<Instant> {
      match next case None => None case Some(e) => Some(e.time)
    }

    predicate ShouldBeRunning() {
      previous.Some? && previous.value.action == Start
    }
  }

  function TimeOf(r: Result<Option<ScheduledEvent>, string>): Result<Option<Instant>, string> {
    match r
    case Err(e) => Err(e)
    case Ok(None) => Ok(None)
    case Ok(Some(e)) => Ok(Some(e.time))
  }

  function MostRecentStopTime(events: seq<EventSpec>, loc: Location, now: Instant): Result<Option<Instant>, string> {
    TimeOf(Nearest(events, loc, now, Previous, IsStop))
  }

  /** The first start after a stop, however long ago the stop was. */
  function StartAfter(events: seq<EventSpec>, loc: Location, stop: Instant): Result<Option<Instant>, string> {
    TimeOf(Nearest(events, loc, stop, Next, IsStart))
  }

  function StartOfCurrentRunPeriod(events: seq<EventSpec>, loc: Location, now: Instant): Result<Option<Instant>, string> {
    match MostRecentStopTime(events, loc, now)
    case Err(e) => Err(e)
    case Ok(Some(stop)) => StartAfter(events, loc, stop)
    case Ok(None) => if exists e | e in events :: e.action == Start then Err(NO_STOP_EVENTS) else Ok(None)
  }

  function StateFor(s: Schedule, now: Instant): Result<State, string> {
    match s.zone
    case Err(e) => Err(e)
    case Ok(zone) =>
      var loc := Location(zone, s.offset);
      match Nearest(s.events, loc, now, Previous, AnyEvent)
      case Err(e) => Err(e)
      case Ok(previous) =>
        match Nearest(s.events, loc, now, Next, AnyEvent)
        case Err(e) => Err(e)
        case Ok(next) =>
          match MostRecentStopTime(s.events, loc, now)
          case Err(e) => Err(e)
          case Ok(lastStop) =>
            match StartOfCurrentRunPeriod(s.events, loc, now)
            case Err(e) => Err(e)
            case Ok(start) => Ok(State(lastStop, start, previous, next))
  }

  method FindStartOfCurrentRunPeriod(events: seq<EventSpec>, loc: Location, now: Instant)
    returns (r: Result<Option<Instant>, string>)
    ensures r == StartOfCurrentRunPeriod(events, loc, now)
  {
    var lastStop := FindNearestEvent(events, loc, now, Previous, IsStop);
    if lastStop.Err? { return Err(lastStop.error); }
    if lastStop.value == None {
      var hasAnyStartEvent := false;
      for i := 0 to |events|
        invariant !hasAnyStartEvent && forall j | 0 <= j < i :: events[j].action != Start
      {
        if events[i].action == Start {
          hasAnyStartEvent := true;
          break;
        }
      }
      if !hasAnyStartEvent { return Ok(None); }
      return Err(NO_STOP_EVENTS);
    }
    var nextStart := FindNearestEvent(events, loc, lastStop.value.value.time, Next, IsStart);
    r := TimeOf(nextStart);
  }

  method ComputeState(s: Schedule, now: Instant) returns (r: Result<State, string>)
    ensures r == StateFor(s, now)
  {
    match s.zone
    case Err(e) => return Err(e);
    case Ok(zone) =>
      var loc := Location(zone, s.offset);
      var previous := FindNearestEvent(s.events, loc, now, Previous, AnyEvent);
      var next := FindNearestEvent(s.events, loc, now, Next, AnyEvent);
      var lastStop := FindNearestEvent(s.events, loc, now, Previous, IsStop);
      var start := FindStartOfCurrentRunPeriod(s.events, loc, now);
      match (previous, next, TimeOf(lastStop), start)
      case (Err(e), _, _, _) => return Err(e);
      case (_, Err(e), _, _) => return Err(e);
      case (_, _, Err(e), _) => return Err(e);
      case (_, _, _, Err(e)) => return Err(e);
      case (Ok(p), Ok(n), Ok(l), Ok(b)) => return Ok(State(l, b, p, n));
  }
}
