/**
  From a firing to what is done about it: what the state is at the next event, that a
  stop ends the jobs scheduled before it, and that a start brings a job about.
 */
module Transitions {
  import opened Wrappers
  import opened Calendar
  import opened NearestEvent
  import opened ScheduleState
  import opened ScheduleTheorems
  import D = Decisions
  import E = DecisionEffects
  import O = CandidateOrder
  import J = Jobs

  ghost predicate StopFires(events: seq<EventSpec>, loc: Location, t: Instant) {
    exists e :: e in events && IsStop(e) && Fires(e, loc, t)
  }

  ghost predicate StartFires(events: seq<EventSpec>, loc: Location, t: Instant) {
    exists e :: e in events && IsStart(e) && Fires(e, loc, t)
  }

  ghost predicate NoStopWithin(events: seq<EventSpec>, loc: Location, from: Instant, end: Instant) {
    forall t | from <= t <= end :: !StopFires(events, loc, t)
  }

  function Loc(s: Schedule): Location
    requires s.zone.Ok?
  {
    Location(s.zone.value, s.offset)
  }

  // The state at the next event

  /** A stop that fires at t is the last stop at t. */
  lemma StopIsLastAtItsInstant(events: seq<EventSpec>, loc: Location, t: Instant)
    requires Searchable(events, loc) && StopFires(events, loc, t)
    ensures MostRecentStopTime(events, loc, t) == Ok(Some(t))
  {
    FilteredSearchable(events, loc, IsStop);
    PreviousIsLastEvent(events, loc, t, IsStop);
    ConsideredMembers(events, IsStop);
    WindowsAdvance(loc, t, t);
    var e :| e in events && IsStop(e) && Fires(e, loc, t);
    assert e in Considered(events, IsStop);
  }

  /** Without a stop up to t, the last stop stays what it was for as long as the window
      sees it. */
  lemma LastStopStays(events: seq<EventSpec>, loc: Location, now: Instant, t: Instant)
    requires Searchable(events, loc) && now <= t && NoStopWithin(events, loc, now + 1, t)
    ensures var stop := MostRecentStopTime(events, loc, now);
      stop.Ok? && MostRecentStopTime(events, loc, t) == if StillSeen(loc, stop.value, t) then stop else Ok(None)
  {
    FilteredSearchable(events, loc, IsStop);
    ConsideredMembers(events, IsStop);
    forall e, u | e in Considered(events, IsStop) && now + 1 <= u <= t ensures !Fires(e, loc, u) {
      assert !StopFires(events, loc, u);
    }
    PreviousPersists(events, loc, now, t, IsStop);
  }

  lemma NothingBeforeNext(s: Schedule, now: Instant)
    requires ScheduleSearchable(s) && StateFor(s, now).Ok? && StateFor(s, now).value.next.Some?
    ensures now < StateFor(s, now).value.next.value.time
    ensures NoStopWithin(s.events, Loc(s), now + 1, StateFor(s, now).value.next.value.time - 1)
  {
    EveryEventConsidered(s.events);
    NextIsFirstEvent(s.events, Loc(s), now, AnyEvent);
    assert IsFirstEvent(s.events, Loc(s), now, WindowEnd(Loc(s), now), StateFor(s, now).value.next);
  }

  /** The last stop at t, of what it was at an earlier time. */
  ghost function LastStopThen(s: Schedule, before: Option<Instant>, t: Instant): Option<Instant>
    requires s.zone.Ok?
  {
    if StopFires(s.events, Loc(s), t) then Some(t)
    else if StillSeen(Loc(s), before, t) then before
    else None
  }

  lemma LastStopAt(s: Schedule, now: Instant, t: Instant)
    requires ScheduleSearchable(s) && now < t && NoStopWithin(s.events, Loc(s), now + 1, t - 1)
    ensures var stop := MostRecentStopTime(s.events, Loc(s), now);
      stop.Ok? && MostRecentStopTime(s.events, Loc(s), t) == Ok(LastStopThen(s, stop.value, t))
  {
    LastStopStays(s.events, Loc(s), now, now);
    if StopFires(s.events, Loc(s), t) {
      StopIsLastAtItsInstant(s.events, Loc(s), t);
    } else {
      LastStopStays(s.events, Loc(s), now, t);
    }
  }

  ghost predicate HasStart(events: seq<EventSpec>) {
    exists e | e in events :: e.action == Start
  }

  /** The beginning of the run period, from the last stop. */
  ghost function BeginsAfter(events: seq<EventSpec>, loc: Location, stop: Option<Instant>): Result<Option<Instant>, string> {
    match stop
    case Some(t) => StartAfter(events, loc, t)
    case None => if HasStart(events) then Err(NO_STOP_EVENTS) else Ok(None)
  }

  lemma RunPeriodFromStop(events: seq<EventSpec>, loc: Location, t: Instant, stop: Option<Instant>)
    requires Searchable(events, loc) && MostRecentStopTime(events, loc, t) == Ok(stop)
    ensures StartOfCurrentRunPeriod(events, loc, t) == BeginsAfter(events, loc, stop)
    ensures BeginsAfter(events, loc, stop).Ok? <==> stop.Some? || !HasStart(events)
  {
    if stop.Some? { StartIsFound(events, loc, stop.value); }
  }

  lemma EventsAreRead(events: seq<EventSpec>, loc: Location, t: Instant)
    requires Searchable(events, loc)
    ensures Nearest(events, loc, t, Previous, AnyEvent).Ok? && Nearest(events, loc, t, Next, AnyEvent).Ok?
  {
    EveryEventConsidered(events);
    PreviousIsLastEvent(events, loc, t, AnyEvent);
    NextIsFirstEvent(events, loc, t, AnyEvent);
  }

  lemma StateOfParts(s: Schedule, t: Instant)
    requires s.zone.Ok?
    requires Nearest(s.events, Loc(s), t, Previous, AnyEvent).Ok? && Nearest(s.events, Loc(s), t, Next, AnyEvent).Ok?
    requires MostRecentStopTime(s.events, Loc(s), t).Ok?
    ensures StateFor(s, t) == match StartOfCurrentRunPeriod(s.events, Loc(s), t)
      case Err(e) => Err(e)
      case Ok(start) => Ok(State(
        MostRecentStopTime(s.events, Loc(s), t).value, start,
        Nearest(s.events, Loc(s), t, Previous, AnyEvent).value, Nearest(s.events, Loc(s), t, Next, AnyEvent).value))
  {
  }

  /** The state at t, from the last stop: it can be read exactly when there is one or no
      start at all, and the run period begins with the first start after it. */
  lemma StateFromStop(s: Schedule, t: Instant, stop: Option<Instant>)
    requires ScheduleSearchable(s) && MostRecentStopTime(s.events, Loc(s), t) == Ok(stop)
    ensures var r := StateFor(s, t);
      && (r.Ok? <==> stop.Some? || !HasStart(s.events))
      && (r.Ok? ==>
        && r.value.lastStop == stop && Ok(r.value.previous) == Nearest(s.events, Loc(s), t, Previous, AnyEvent)
        && Ok(r.value.runPeriodStart) == BeginsAfter(s.events, Loc(s), stop))
  {
    EventsAreRead(s.events, Loc(s), t);
    RunPeriodFromStop(s.events, Loc(s), t, stop);
    StateOfParts(s, t);
  }

  /** The whole state at the next event. It can be read exactly when there is a last
      stop or no start at all; the event has become the previous one; and with the same
      last stop it is the same run period, with a new one the next. */
  lemma StateAtNext(s: Schedule, now: Instant)
    requires ScheduleSearchable(s) && StateFor(s, now).Ok? && StateFor(s, now).value.next.Some?
    ensures var st := StateFor(s, now).value;
      var t := st.next.value.time;
      var stop, r := LastStopThen(s, st.lastStop, t), StateFor(s, t);
      && (r.Ok? <==> stop.Some? || !HasStart(s.events))
      && (r.Ok? ==>
        && r.value.previous == st.next && r.value.lastStop == stop
        && (r.value.ShouldBeRunning() <==> st.next.value.action == Start)
        && (stop == st.lastStop ==> r.value.runPeriodStart == st.runPeriodStart)
        && (stop == Some(t) && r.value.runPeriodStart.Some? ==> t < r.value.runPeriodStart.value))
  {
    var st := StateFor(s, now).value;
    var t := st.next.value.time;
    var stop := LastStopThen(s, st.lastStop, t);
    NothingBeforeNext(s, now);
    LastStopAt(s, now, t);
    TransitionAtNext(s, now);
    StateFromStop(s, now, st.lastStop);
    StateFromStop(s, t, stop);
    if stop.Some? { StartIsFound(s.events, Loc(s), stop.value); }
  }

  lemma StartIsFound(events: seq<EventSpec>, loc: Location, stop: Instant)
    requires Searchable(events, loc)
    ensures var r := StartAfter(events, loc, stop); r.Ok? && (r.value.Some? ==> stop < r.value.value)
  {
    FilteredSearchable(events, loc, IsStart);
    NextIsFirstEvent(events, loc, stop, IsStart);
  }

  // A stop ends the jobs before it

  /** After a stop that the window still sees, the last stop is that one or a later. */
  lemma StopIsSeen(s: Schedule, t: Instant, now: Instant)
    requires ScheduleSearchable(s) && StateFor(s, now).Ok? && StopFires(s.events, Loc(s), t)
    requires WindowFrom(Loc(s), now) <= t <= now
    ensures StateFor(s, now).value.lastStop.Some? && t <= StateFor(s, now).value.lastStop.value
  {
    FilteredSearchable(s.events, Loc(s), IsStop);
    PreviousIsLastEvent(s.events, Loc(s), now, IsStop);
    ConsideredMembers(s.events, IsStop);
    var e :| e in s.events && IsStop(e) && Fires(e, Loc(s), t);
    assert e in Considered(s.events, IsStop);
  }

  /** Once a stop has fired, every job scheduled before it, or at no readable time, is
      on its way out after the next decision, and nothing is created for before it. */
  lemma StopDeletesJobs(spec: D.Spec, jobs: seq<J.Job>, now: Instant, enableRecreate: bool, s: D.State, d: D.Decision,
                        t: Instant, j: J.Job, at: Instant)
    requires ScheduleSearchable(spec.schedule) && D.BuildState(spec, jobs, now) == Ok(s)
    requires StopFires(spec.schedule.events, Loc(spec.schedule), t) && WindowFrom(Loc(spec.schedule), now) <= t <= now
    requires J.DistinctNames(jobs) && D.Decide(spec, s, now, enableRecreate) == Ok(d)
    requires j in E.Apply(jobs, d, at) && !(j.annotations.scheduledAt.Reads? && j.annotations.scheduledAt.value >= t)
    ensures J.IsBeingDeleted(j) && j !in d.creates
  {
    StopIsSeen(spec.schedule, t, now);
    E.BuiltStateIsWellTimed(spec, jobs, now);
    E.AppliedMembers(jobs, d, at, j);
    if s.isSuspended {
      E.SuspendedDeletesEverything(spec, s, now, enableRecreate, at);
    } else {
      E.CreatedJobs(spec, s, now, enableRecreate, d);
      E.Partition(spec, s, now, enableRecreate, d, at);
      ExpiredStaysExpired(s, d, at, j);
    }
  }

  lemma ExpiredStaysExpired(s: D.State, d: D.Decision, at: Instant, j: J.Job)
    requires j in E.Apply(s.jobs, d, at) && j !in d.creates
    ensures exists k :: k in s.jobs && j == E.ApplyTo(k, d, at) && D.IsExpired(k, s.lastStop) == D.IsExpired(j, s.lastStop)
  {
    E.AppliedMembers(s.jobs, d, at, j);
    var k :| k in s.jobs && j == E.ApplyTo(k, d, at);
    assert k.annotations == j.annotations;
  }

  // A start brings a job about

  /** After a start that no stop has followed, the schedule is inside the run period
      that began at or before that start. */
  lemma StartIsSeen(s: Schedule, t: Instant, now: Instant)
    requires ScheduleSearchable(s) && StateFor(s, now).Ok? && StateFor(s, now).value.lastStop.Some?
    requires forall e | e in s.events :: e.action == Start || e.action == Stop
    requires StartFires(s.events, Loc(s), t) && t <= now && StateFor(s, now).value.lastStop.value < t
    ensures var st := StateFor(s, now).value;
      && st.ShouldBeRunning() && st.runPeriodStart.Some?
      && st.lastStop.value < st.runPeriodStart.value <= t
  {
    var stop := StateFor(s, now).value.lastStop.value;
    RunPeriodCoherence(s, now);
    StartIsFirstStart(s, now);
    StopIsLastStop(s, now);
    WindowsMeet(Loc(s), stop, now);
    var e :| e in s.events && IsStart(e) && Fires(e, Loc(s), t);
  }

  /** A stop and then a start have fired, with no other stop since, and the window still
      sees the stop. */
  ghost predicate IsOpen(s: Schedule, stop: Instant, start: Instant, now: Instant) {
    && ScheduleSearchable(s) && (forall e | e in s.events :: e.action == Start || e.action == Stop)
    && StopFires(s.events, Loc(s), stop) && StartFires(s.events, Loc(s), start) && stop < start <= now
    && NoStopWithin(s.events, Loc(s), stop + 1, now) && WindowFrom(Loc(s), now) <= stop
  }

  /** Then the schedule is inside a run period. */
  lemma InsideRunPeriod(s: Schedule, stop: Instant, start: Instant, now: Instant)
    requires IsOpen(s, stop, start, now)
    ensures StateFor(s, now).Ok?
    ensures var st := StateFor(s, now).value;
      && st.ShouldBeRunning() && st.lastStop == Some(stop)
      && st.runPeriodStart.Some? && stop < st.runPeriodStart.value <= start
  {
    StopIsLastAtItsInstant(s.events, Loc(s), stop);
    LastStopStays(s.events, Loc(s), stop, now);
    StateFromStop(s, now, Some(stop));
    StartIsSeen(s, start, now);
  }

  lemma NoneIsCurrent(s: D.State)
    requires J.DistinctNames(s.jobs) && forall j | j in s.jobs :: D.IsExpired(j, s.lastStop)
    ensures D.Candidate(s).None?
  {
    O.BestIsGreatest(s.jobs, s.lastStop, s.desiredHash);
  }

  /** Inside the run period, with no current job, a decision creates the first one. */
  lemma FirstIsCreated(spec: D.Spec, s: D.State, now: Instant, enableRecreate: bool)
    requires J.DistinctNames(s.jobs) && forall j | j in s.jobs :: D.IsExpired(j, s.lastStop)
    requires !s.isSuspended && s.Running() && s.start.Some?
    requires s.lastStop.Some? ==> s.lastStop.value < s.start.value
    ensures var r := D.Decide(spec, s, now, enableRecreate);
      && (r.Ok? <==> !D.DeadlineExceeded(spec, s.start, now))
      && (r.Ok? ==> |r.value.creates| == 1 && E.IsFirst(spec, s, r.value.creates[0]))
  {
    NoneIsCurrent(s);
    match D.Decide(spec, s, now, enableRecreate)
    case Err(_) =>
    case Ok(d) =>
      E.CreatedJobs(spec, s, now, enableRecreate, d);
      assert d.creates[0] in d.creates;
  }

  /** Once a start has fired, with no stop after it, and no job is current, the next
      decision succeeds exactly within the starting deadline, and creates one job,
      scheduled for the beginning of this run period. */
  lemma StartCreatesJob(spec: D.Spec, jobs: seq<J.Job>, now: Instant, enableRecreate: bool, s: D.State, t: Instant)
    requires ScheduleSearchable(spec.schedule) && D.BuildState(spec, jobs, now) == Ok(s) && !s.isSuspended
    requires forall e | e in spec.schedule.events :: e.action == Start || e.action == Stop
    requires s.lastStop.Some? && StartFires(spec.schedule.events, Loc(spec.schedule), t) && s.lastStop.value < t <= now
    requires J.DistinctNames(jobs) && forall j | j in jobs :: D.IsExpired(j, s.lastStop)
    ensures s.Running() && s.start.Some? && s.lastStop.value < s.start.value <= t
    ensures var r := D.Decide(spec, s, now, enableRecreate);
      && (r.Ok? <==> !D.DeadlineExceeded(spec, s.start, now))
      && (r.Ok? ==> |r.value.creates| == 1 && E.IsFirst(spec, s, r.value.creates[0]))
  {
    StartIsSeen(spec.schedule, t, now);
    FirstIsCreated(spec, s, now, enableRecreate);
  }
}
