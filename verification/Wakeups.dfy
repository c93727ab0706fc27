/**
  Why the operator may sleep until the next event, and why a racing reconcile does no
  harm: between events there is nothing to do, the wake-up is exact, and the first job
  of a run period has the same name whoever creates it and whenever.
 */
module Wakeups {
  import opened Wrappers
  import opened Calendar
  import opened CalendarLaws
  import opened JobNaming
  import opened Jobs
  import opened Decisions
  import opened CandidateOrder
  import opened DecisionEffects
  import opened Stability
  import opened Reconciling
  import T = ScheduleTheorems

  // The wake-up

  lemma {:induction false} YearsAreShort(a: int, b: int)
    requires a <= b
    ensures DaysBeforeYear(b) - DaysBeforeYear(a) <= 366 * (b - a)
    decreases b - a
  {
    if a < b {
      YearsAreShort(a, b - 1);
      assert DaysBeforeYear(b) == DaysBeforeYear(b - 1) + DaysInYear(b - 1);
    }
  }

  lemma WindowIsShort(loc: NearestEvent.Location, now: Instant)
    ensures T.WindowEnd(loc, now) - now <= 366 * 86400 * (Cron.YEARS_SEARCHED + 1)
  {
    var t := now + loc.offset;
    var y := YearAt(loc.zone, t);
    YearBound(loc.zone, t, y);
    YearsAreShort(y, y + Cron.YEARS_SEARCHED + 1);
  }

  lemma Delays(at: Instant, now: Instant)
    ensures 0 < at - now <= 366 * 86400 * 6 ==> RequeueAfter(Some(at), now) == (at - now) * 1_000_000_000
    ensures now > ZERO_TIME ==> RequeueAfter(None, now) <= 0
  {
  }

  /** A delay is exact when its nanoseconds fit into an int64, and otherwise the nearest
      that does. */
  lemma DelaysSaturate(t: Instant, u: Instant)
    ensures var exact := (t - u) * 1_000_000_000;
      && (IsInt64(exact) ==> Sub(t, u) == exact)
      && (exact > MAX_INT64 ==> Sub(t, u) == MAX_INT64) && (exact < MIN_INT64 ==> Sub(t, u) == MIN_INT64)
  {
  }

  /** Go's zero time is the beginning of year 1. */
  lemma ZeroTimeIsYearOne(year: int)
    requires year == 1
    ensures YearStart(0, year) == ZERO_TIME
  {
    YearsInClosedForm(year);
  }

  lemma NextIsWithinYears(q: Request, s: State)
    requires T.ScheduleSearchable(q.spec.schedule) && BuildState(q.spec, q.jobs, q.now) == Ok(s) && s.nextEvent.Some?
    ensures 0 < s.nextEvent.value - q.now <= 366 * 86400 * 6
  {
    var loc := NearestEvent.Location(q.spec.schedule.zone.value, q.spec.schedule.offset);
    T.EveryEventConsidered(q.spec.schedule.events);
    T.NextIsFirstEvent(q.spec.schedule.events, loc, q.now, NearestEvent.AnyEvent);
    WindowIsShort(loc, q.now);
  }

  /** A reconcile that succeeds is repeated at the next event, to the nanosecond, and
      only if there is one and the ControlledJob is not suspended. */
  lemma WakesAtNextEvent(q: Request, s: State)
    requires T.ScheduleSearchable(q.spec.schedule) && BuildState(q.spec, q.jobs, q.now) == Ok(s)
    requires q.Decision().Ok? && q.now > ZERO_TIME
    ensures var delay := AsControllerResult(ResultOf(q.Decision(), None, q.now)).requeueAfter;
      if s.isSuspended || s.nextEvent == None then delay <= 0
      else delay > 0 && q.now * 1_000_000_000 + delay == s.nextEvent.value * 1_000_000_000
  {
    var d := q.Decision().value;
    assert d.requeueAt == if s.isSuspended then None else s.nextEvent;
    if s.nextEvent.Some? { NextIsWithinYears(q, s); }
    Delays(if s.nextEvent.Some? then s.nextEvent.value else q.now, q.now);
  }

  /** Until the next event, for as long as the five-year window sees the last event and
      the last stop, the state is the same, and a decision that was carried out leaves
      nothing to do exactly when there are no second thoughts. */
  lemma NothingToDoBeforeNextEvent(spec: Spec, jobs: seq<Job>, now: Instant, enableRecreate: bool, s: State, d: Decision,
                                   at: Instant, later: Instant)
    requires T.ScheduleSearchable(spec.schedule) && BuildState(spec, jobs, now) == Ok(s) && !s.isSuspended
    requires DistinctNames(jobs) && Decide(spec, s, now, enableRecreate) == Ok(d) && NamesFree(jobs, d.creates)
    requires s.nextEvent.Some? && now <= later < s.nextEvent.value
    requires var loc := NearestEvent.Location(spec.schedule.zone.value, spec.schedule.offset);
      var st := ScheduleState.StateFor(spec.schedule, now).value;
      T.StillSeen(loc, T.TimeOfEvent(st.previous), later) && T.StillSeen(loc, st.lastStop, later)
    ensures var applied := Apply(jobs, d, at);
      && BuildState(spec, applied, later) == Ok(s.(jobs := applied))
      && (DoesNothing(Decide(spec, s.(jobs := applied), later, enableRecreate), s) <==> !SecondThoughts(s))
  {
    T.NoTransitionBeforeNext(spec.schedule, now, later);
    BuiltStateIsWellTimed(spec, jobs, now);
    DecisionsAreStable(spec, s, now, enableRecreate, d, at, later);
  }

  // One run period, one name

  /** No job of the list is current: the run period has still to get its first job. */
  ghost predicate NoneCurrent(s: State) {
    forall j | j in s.jobs :: IsExpired(j, s.lastStop)
  }

  /** The first job of a run period, as built whatever the jobs listed. */
  lemma FirstJobOfPeriod(spec: Spec, s: State, now: Instant, enableRecreate: bool, d: Decision)
    requires DistinctNames(s.jobs) && NoneCurrent(s) && !s.isSuspended
    requires Decide(spec, s, now, enableRecreate) == Ok(d) && d.creates != []
    ensures s.start.Some? && |d.creates| == 1
    ensures d.creates[0].(suspend := None)
      == BuildJob(spec.name, spec.template, s.start.value, 0, false, true).(suspend := None)
  {
    BestIsGreatest(s.jobs, s.lastStop, s.desiredHash);
  }

  /** Two reconciles with no stop between them, whatever jobs each of them sees, start
      the run period with the same job: the second create collides with the first. */
  lemma SamePeriodSameName(spec: Spec, jobs: seq<Job>, now: Instant, d: Decision,
                           jobs': seq<Job>, later: Instant, d': Decision, enableRecreate: bool)
    requires T.ScheduleSearchable(spec.schedule) && now <= later && DistinctNames(jobs) && DistinctNames(jobs')
    requires BuildState(spec, jobs, now).Ok? && BuildState(spec, jobs', later).Ok?
    requires var loc := NearestEvent.Location(spec.schedule.zone.value, spec.schedule.offset);
      && (forall e, t | e in spec.schedule.events && NearestEvent.IsStop(e) && now < t <= later :: !T.Fires(e, loc, t))
      && T.StillSeen(loc, ScheduleState.StateFor(spec.schedule, now).value.lastStop, later)
    requires Decided(spec, jobs, now, enableRecreate) == Ok(d) && d.creates != []
    requires Decided(spec, jobs', later, enableRecreate) == Ok(d') && d'.creates != []
    requires NoneCurrent(BuildState(spec, jobs, now).value) && NoneCurrent(BuildState(spec, jobs', later).value)
    ensures d.creates[0].name == d'.creates[0].name
    ensures d.creates[0].annotations == d'.creates[0].annotations
  {
    var s, s' := BuildState(spec, jobs, now).value, BuildState(spec, jobs', later).value;
    T.SamePeriodSameStart(spec.schedule, now, later);
    FirstJobOfPeriod(spec, s, now, enableRecreate, d);
    FirstJobOfPeriod(spec, s', later, enableRecreate, d');
    assert d.creates[0].(suspend := None) == d'.creates[0].(suspend := None);
  }

  /** First jobs have the same name exactly when their run periods start together. */
  lemma PeriodsAreNamedApart(spec: Spec, s: State, now: Instant, d: Decision, s': State, later: Instant, d': Decision,
                             enableRecreate: bool)
    requires DistinctNames(s.jobs) && NoneCurrent(s) && !s.isSuspended
    requires DistinctNames(s'.jobs) && NoneCurrent(s') && !s'.isSuspended
    requires Decide(spec, s, now, enableRecreate) == Ok(d) && d.creates != []
    requires Decide(spec, s', later, enableRecreate) == Ok(d') && d'.creates != []
    ensures d.creates[0].name == d'.creates[0].name <==> s.start == s'.start
  {
    FirstJobOfPeriod(spec, s, now, enableRecreate, d);
    FirstJobOfPeriod(spec, s', later, enableRecreate, d');
    var name, name' := d.creates[0].(suspend := None).name, d'.creates[0].(suspend := None).name;
    assert name == JobName(spec.name, s.start.value, 0) && name' == JobName(spec.name, s'.start.value, 0);
    if name == name' { JobNameDeterminesRun(spec.name, s.start.value, 0, s'.start.value, 0); }
  }
}
