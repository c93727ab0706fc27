/** Clusters in which the exceptions of the theorems do occur. */
module Witnesses {
  import opened Wrappers
  import opened Calendar
  import opened Cron
  import opened NearestEvent
  import opened ScheduleState
  import opened ScheduleTheorems
  import opened LeapDay
  import opened Transitions
  import opened JobNaming
  import opened Jobs
  import opened Failures
  import D = Decisions
  import E = DecisionEffects
  import O = CandidateOrder
  import Stability
  import Convergence
  import P = PlainDecision
  import X = ExclusiveRun
  import R = Reconciling

  // Run ids that wrap around

  /** A job of an older spec, started by hand. */
  function OldJob(spec: D.Spec, start: Instant, runId: int): Job {
    Job(JobName(spec.name, start, runId),
        Annotations(Reads(start), Reads(runId), Reads(true), spec.template.hash + "x", ""), None, None, [], None, 0)
  }

  lemma IdsDiffer(spec: D.Spec, start: Instant, i: int, j: int)
    requires i != j
    ensures OldJob(spec, start, i).name != OldJob(spec, start, j).name
  {
    if JobName(spec.name, start, i) == JobName(spec.name, start, j) {
      JobNameDeterminesRun(spec.name, start, i, start, j);
    }
  }

  lemma OldJobsDiffer(spec: D.Spec, start: Instant, i: int, j: int)
    requires i != j
    ensures DistinctNames([OldJob(spec, start, i), OldJob(spec, start, j)])
  {
    IdsDiffer(spec, start, i, j);
  }

  lemma OldJobsHaveIds(spec: D.Spec, start: Instant)
    ensures var jobs := [OldJob(spec, start, MAX_INT64), OldJob(spec, start, MIN_INT64)];
      D.MaxRunId(jobs, |jobs|) == MAX_INT64
  {
    var jobs := [OldJob(spec, start, MAX_INT64), OldJob(spec, start, MIN_INT64)];
    assert D.MaxRunId(jobs, 0) == -1 && D.MaxRunId(jobs, 1) == MAX_INT64;
  }

  lemma OneIsCandidate(s: D.State)
    requires |s.jobs| == 2 && s.lastStop == None && IsManuallyScheduled(s.jobs[0]) && IsManuallyScheduled(s.jobs[1])
    ensures D.Candidate(s) == Some(0) || D.Candidate(s) == Some(1)
  {
    assert D.BestIndex(s.jobs, None, s.desiredHash, 1) == Some(0);
  }

  /** Any two such jobs: the better one is replaced, by a job with the wrapped run id. */
  lemma OldJobIsReplaced(spec: D.Spec, s: D.State, now: Instant, start: Instant)
    requires s.jobs == [OldJob(spec, start, MAX_INT64), OldJob(spec, start, MIN_INT64)]
    requires !s.isSuspended && s.lastStop == None && s.desiredHash == spec.template.hash && s.autoRestart
    ensures D.Choose(spec, s, now, true)
      == Ok(D.Fresh(BuildJob(spec.name, spec.template, start, MIN_INT64, true, true)))
  {
    OldJobsHaveIds(spec, start);
    OneIsCandidate(s);
    OldJobMustGo(spec, s, start, MAX_INT64);
    OldJobMustGo(spec, s, start, MIN_INT64);
  }

  lemma OldJobMustGo(spec: D.Spec, s: D.State, start: Instant, runId: int)
    requires s.desiredHash == spec.template.hash && s.autoRestart
    ensures D.MustRecreate(OldJob(spec, start, runId), s, true)
  {
    assert |spec.template.hash + "x"| == |spec.template.hash| + 1;
  }

  /** The name of the new job is taken. */
  lemma NewNameIsTaken(spec: D.Spec, s: D.State, c: D.Choice, start: Instant)
    requires s.jobs == [OldJob(spec, start, MAX_INT64), OldJob(spec, start, MIN_INT64)]
    requires c == D.Fresh(BuildJob(spec.name, spec.template, start, MIN_INT64, true, true))
    ensures var d := D.Finish(s, c);
      |d.creates| == 1 && E.WrapsOnto(spec, s, d.creates[0]) && !E.NamesFree(s.jobs, d.creates)
  {
    var f := D.Finish(s, c).creates[0];
    OldJobsHaveIds(spec, start);
    assert s.jobs[1] in s.jobs && E.IsSelfNamed(spec, s.jobs[1]) && f.name == s.jobs[1].name;
  }

  /** For any ControlledJob without events that recreates its jobs, and any start: with
      the greatest and the least run id in use, the name of the new job is taken. */
  lemma NamesCanClash(spec: D.Spec, start: Instant, now: Instant) returns (jobs: seq<Job>, s: D.State, d: D.Decision)
    requires spec.schedule.events == [] && spec.schedule.zone.Ok? && spec.suspend != Some(true) && spec.recreateOnSpecChange
    ensures D.BuildState(spec, jobs, now) == Ok(s) && DistinctNames(jobs) && D.Decide(spec, s, now, true) == Ok(d)
    ensures |d.creates| == 1 && E.WrapsOnto(spec, s, d.creates[0]) && !E.NamesFree(jobs, d.creates)
  {
    jobs := [OldJob(spec, start, MAX_INT64), OldJob(spec, start, MIN_INT64)];
    Stability.NoEventsNoState(spec, jobs, now);
    s := D.BuildState(spec, jobs, now).value;
    OldJobsDiffer(spec, start, MAX_INT64, MIN_INT64);
    OldJobIsReplaced(spec, s, now, start);
    var c := D.Fresh(BuildJob(spec.name, spec.template, start, MIN_INT64, true, true));
    NewNameIsTaken(spec, s, c, start);
    d := D.Finish(s, c);
  }

  // Too late to start again

  /** One hour past midnight on every 29 February. */
  const OPENING := EventSpec(Start, Ok(SpecSchedule({0}, {0}, {1}, {29}, {2}, {0, 1, 2, 3, 4, 5, 6, STAR_BIT})))

  /** A stop at midnight and a start one hour later, on every 29 February. */
  const SHIFT := Schedule([EVENT, OPENING], Ok(0), 0)

  lemma SameDayAs(midnight: Instant, k: int)
    requires midnight % DAY == 0 && 0 <= k < DAY
    ensures DayAt(0, midnight + k) == DayAt(0, midnight)
  {
    InDays(midnight + k, midnight / DAY, k);
  }

  lemma OneOClock(midnight: Instant)
    requires midnight % DAY == 0
    ensures HourAt(0, midnight + HOUR) == 1 && MinuteAt(0, midnight + HOUR) == 0 && SecondAt(0, midnight + HOUR) == 0
  {
    TimeOfDay(midnight + HOUR, midnight / DAY, 60, 0);
  }

  lemma LeapMidnight(year: int)
    requires IsLeap(year)
    ensures LeapInstant(year) % DAY == 0 && DateAt(0, LeapInstant(year)) == Date(year, 2, 29)
  {
    DateOfDayNumber(Date(year, 2, 29));
    FiresInLeapYears(year);
    FiresIff(LeapInstant(year));
    assert DayAt(0, LeapInstant(year)) == DayNumber(Date(year, 2, 29));
  }

  lemma ShiftFires(year: int)
    requires IsLeap(year)
    ensures StopFires(SHIFT.events, UTC, LeapInstant(year)) && StartFires(SHIFT.events, UTC, LeapInstant(year) + HOUR)
  {
    var t := LeapInstant(year);
    LeapMidnight(year);
    FiresInLeapYears(year);
    SameDayAs(t, HOUR);
    OneOClock(t);
    assert WeekdayAt(0, t + HOUR) in OPENING.schedule.value.dow;
    assert EVENT in SHIFT.events && OPENING in SHIFT.events;
    assert Fires(OPENING, UTC, t + HOUR);
  }

  lemma OneStopThatDay(midnight: Instant, k: int)
    requires midnight % DAY == 0 && 0 < k < DAY
    ensures !Fires(EVENT, UTC, midnight + k)
  {
    InDays(midnight + k, midnight / DAY, k);
    FiresIff(midnight + k);
  }

  lemma NoStopThatDay(year: int, k: int)
    requires IsLeap(year) && 0 < k < DAY
    ensures !StopFires(SHIFT.events, UTC, LeapInstant(year) + k)
  {
    LeapMidnight(year);
    OneStopThatDay(LeapInstant(year), k);
  }

  lemma ShiftIsSearchable()
    ensures ScheduleSearchable(SHIFT) && Loc(SHIFT) == UTC
    ensures forall e | e in SHIFT.events :: e.action == Start || e.action == Stop
  {
  }

  lemma SeenThatDay(year: int, k: int)
    requires IsLeap(year) && 0 <= k < DAY
    ensures WindowFrom(UTC, LeapInstant(year) + k) <= LeapInstant(year)
  {
    LeapMidnight(year);
    SameDayAs(LeapInstant(year), k);
    WindowsAdvance(UTC, LeapInstant(year), LeapInstant(year));
  }

  /** Two hours past midnight the schedule is inside the run period of that day. */
  lemma ShiftIsOpen(year: int)
    requires IsLeap(year)
    ensures IsOpen(SHIFT, LeapInstant(year), LeapInstant(year) + HOUR, LeapInstant(year) + 2 * HOUR)
  {
    var t := LeapInstant(year);
    ShiftIsSearchable();
    ShiftFires(year);
    SeenThatDay(year, 2 * HOUR);
    forall u | t + 1 <= u <= t + 2 * HOUR ensures !StopFires(SHIFT.events, UTC, u) { NoStopThatDay(year, u - t); }
  }

  /** A job that somebody is deleting. */
  function Leaving(spec: D.Spec, start: Instant): Job {
    BuildJob(spec.name, spec.template, start, 0, false, false).(deletionTimestamp := Some(start))
  }

  lemma LeavingIsKept(spec: D.Spec, s: D.State, now: Instant, enableRecreate: bool, start: Instant)
    requires s.jobs == [Leaving(spec, start)] && !s.isSuspended && s.Running() && s.desiredHash == spec.template.hash
    requires s.lastStop.Some? && s.lastStop.value <= start
    ensures D.Decide(spec, s, now, enableRecreate) == Ok(D.Decision([], [], [], [], s.nextEvent))
  {
    var j := s.jobs[0];
    assert O.IsBest(s.jobs, s.lastStop, s.desiredHash, j);
    assert Stability.SettledOn(s, Some(j)) && !D.MustRecreate(j, s, enableRecreate);
    Stability.DecideOnBest(spec, s, now, enableRecreate, j);
  }

  lemma NobodyRemains(jobs: seq<Job>, d: D.Decision, at: Instant)
    requires |jobs| == 1 && IsBeingDeleted(jobs[0]) && d.creates == []
    ensures Convergence.Remaining(E.Apply(jobs, d, at)) == []
  {
    var applied := E.Apply(jobs, d, at);
    assert |applied| == 1 && IsBeingDeleted(applied[0]) && applied[..0] == [];
  }

  /** Inside the run period, past the deadline, nothing remains: the decision fails. */
  lemma NothingCanStart(spec: D.Spec, s: D.State, now: Instant, enableRecreate: bool)
    requires s.jobs == [] && !s.isSuspended && s.Running() && D.DeadlineExceeded(spec, s.start, now)
    ensures Convergence.CannotStart(spec, s, now)
    ensures D.Decide(spec, s, now, enableRecreate) == Err(StartingDeadlineExceeded)
  {
  }

  /** The job is deleted inside its run period, past the starting deadline: the decision
      is to do nothing, and once the job is gone the next one fails. */
  lemma LateDeletion(spec: D.Spec, s: D.State, now: Instant, enableRecreate: bool, start: Instant, at: Instant)
    requires s.jobs == [Leaving(spec, start)] && !s.isSuspended && s.Running() && s.desiredHash == spec.template.hash
    requires s.lastStop.Some? && s.lastStop.value <= start && D.DeadlineExceeded(spec, s.start, now)
    ensures var d := D.Decision([], [], [], [], s.nextEvent);
      var s2 := s.(jobs := Convergence.Remaining(E.Apply(s.jobs, d, at)));
      && D.Decide(spec, s, now, enableRecreate) == Ok(d) && Convergence.CannotStart(spec, s2, now)
      && D.Decide(spec, s2, now, enableRecreate) == Err(StartingDeadlineExceeded)
  {
    LeavingIsKept(spec, s, now, enableRecreate, start);
    NobodyRemains(s.jobs, D.Decision([], [], [], [], s.nextEvent), at);
    NothingCanStart(spec, s.(jobs := []), now, enableRecreate);
  }

  lemma MinuteExceeded(spec: D.Spec, start: Instant, now: Instant)
    requires spec.startingDeadlineSeconds == Some(60) && now >= start + HOUR
    ensures D.DeadlineExceeded(spec, Some(start), now)
  {
    assert D.SecondsToDuration(60) == 60_000_000_000;
  }

  /** The state inside a run period that began more than an hour ago. */
  lemma LeavingState(spec: D.Spec, t: Instant, start: Instant, now: Instant) returns (s: D.State)
    requires spec.suspend != Some(true) && spec.startingDeadlineSeconds == Some(60) && StateFor(spec.schedule, now).Ok?
    requires var st := StateFor(spec.schedule, now).value;
      && st.ShouldBeRunning() && st.lastStop == Some(t)
      && st.runPeriodStart.Some? && st.runPeriodStart.value + HOUR <= now
    ensures D.BuildState(spec, [Leaving(spec, start)], now) == Ok(s) && s.jobs == [Leaving(spec, start)]
    ensures !s.isSuspended && s.Running() && s.desiredHash == spec.template.hash && s.lastStop == Some(t)
    ensures D.DeadlineExceeded(spec, s.start, now)
  {
    s := D.StateOf(spec, StateFor(spec.schedule, now).value, [Leaving(spec, start)]);
    MinuteExceeded(spec, s.start.value, now);
  }

  /** With a deadline of a minute, a job that is deleted an hour after its start cannot
      be started again in that run period. On 29 February ShiftIsOpen gives such a
      schedule and such times. */
  lemma LateDeletionHappens(spec: D.Spec, stop: Instant, start: Instant, now: Instant, enableRecreate: bool, at: Instant)
    returns (jobs: seq<Job>, s: D.State, d: D.Decision, s2: D.State)
    requires IsOpen(spec.schedule, stop, start, now) && start + HOUR <= now
    requires spec.suspend != Some(true) && spec.startingDeadlineSeconds == Some(60)
    ensures D.BuildState(spec, jobs, now) == Ok(s) && D.Decide(spec, s, now, enableRecreate) == Ok(d)
    ensures s2 == s.(jobs := Convergence.Remaining(E.Apply(jobs, d, at))) && Convergence.CannotStart(spec, s2, now)
    ensures D.Decide(spec, s2, now, enableRecreate) == Err(StartingDeadlineExceeded)
  {
    InsideRunPeriod(spec.schedule, stop, start, now);
    s := LeavingState(spec, stop, start, now);
    LateDeletion(spec, s, now, enableRecreate, start, at);
    jobs, d := s.jobs, D.Decision([], [], [], [], s.nextEvent);
    s2 := s.(jobs := Convergence.Remaining(E.Apply(jobs, d, at)));
  }

  // A job does run

  lemma FirstDecision(spec: D.Spec, s: D.State, now: Instant, enableRecreate: bool) returns (d: D.Decision, f: Job)
    requires s.jobs == [] && !s.isSuspended && s.Running() && s.start.Some? && !D.DeadlineExceeded(spec, s.start, now)
    requires spec.template.annotations.suspendReason != "user-stop"
    ensures D.Decide(spec, s, now, enableRecreate) == Ok(d) && d == D.Decision([f], [], [], [], s.nextEvent)
    ensures !IsSuspended(f) && !IsCompleted(f)
  {
    P.FailsIff(spec, s, now, enableRecreate);
    d := D.Decide(spec, s, now, enableRecreate).value;
    P.FirstJobIsCreated(spec, s, now, enableRecreate, d);
    f := d.creates[0];
  }

  /** From an empty cluster, inside a run period and in time, a run of four worlds ends
      with a job that holds pods. */
  lemma AJobRuns(spec: D.Spec, s: D.State, now: Instant, enableRecreate: bool, at: Instant) returns (run: seq<X.World>, n: string)
    requires s.jobs == [] && !s.isSuspended && s.Running() && s.start.Some? && !D.DeadlineExceeded(spec, s.start, now)
    requires spec.template.annotations.suspendReason != "user-stop"
    ensures |run| == 4 && X.IsRun(run) && run[0].jobs == map[]
    ensures n in run[3].jobs && run[3].jobs[n].pods
  {
    var d, f := FirstDecision(spec, s, now, enableRecreate);
    n := f.name;
    var w0 := X.World(map[], 0, []);
    var w1 := w0.(queue := X.QueueOf(R.Plan(d), w0.jobs));
    assert R.Plan(d) == [R.CreateCall(f)];
    var w2 := X.World(map[n := X.Entry(0, f, false)], 1, []);
    var w3 := w2.(jobs := w2.jobs[n := w2.jobs[n].(pods := true)]);
    X.Takes(w0, X.TakesDecision(spec, s, now, enableRecreate), w1);
    assert X.AfterCall(w1, at) == w2;
    X.Takes(w1, X.CallWorks(at), w2);
    X.Takes(w2, X.Changes(n, w3.jobs[n]), w3);
    run := [w0, w1, w2, w3];
  }
}
