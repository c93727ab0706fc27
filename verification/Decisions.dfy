/**
  The reconcile decision: which jobs to create, delete and unsuspend.

  Jobs that the source refers to are positions in the list of jobs, so the model does
  not depend on the jobs being distinct values.
 */
module Decisions {
  import opened Wrappers
  import opened Calendar
  import opened JobNaming
  import opened Jobs
  import opened Failures
  import ScheduleState

  /** What the operator reads of a ControlledJob. */
  datatype Spec = Spec(
    name: string,
    schedule: ScheduleState.Schedule,
    template: JobTemplate,
    startingDeadlineSeconds: Option<int>,
    recreateOnSpecChange: bool,
    suspend: Option<bool>)

  datatype State = State(
    isSuspended: bool,
    shouldBeRunning: Option<bool>,
    start: Option<Instant>,
    lastStop: Option<Instant>,
    nextEvent: Option<Instant>,
    jobs: seq<Job>,
    desiredHash: string,
    autoRestart: bool)
  {
    predicate Running() { shouldBeRunning == Some(true) }
  }

  datatype Decision = Decision(
    creates: seq<Job>, deletes: seq<Job>, suspends: seq<Job>, unsuspends: seq<Job>, requeueAt: Option<Instant>)

  function StateOf(spec: Spec, st: ScheduleState.State, jobs: seq<Job>): State {
    State(
      spec.suspend == Some(true),
      if st.runPeriodStart == None then None else Some(st.ShouldBeRunning()),
      st.runPeriodStart, st.lastStop, st.NextEventTime(),
      jobs, spec.template.hash, spec.recreateOnSpecChange)
  }

  function BuildState(spec: Spec, jobs: seq<Job>, now: Instant): Result<State, Failure> {
    match ScheduleState.StateFor(spec.schedule, now)
    case Err(e) => Err(ScheduleFailure(e))
    case Ok(st) => Ok(StateOf(spec, st, jobs))
  }

  // Reading the list of jobs

  /** The job's start is before the last stop, or cannot be read. */
  predicate IsExpired(j: Job, lastStop: Option<Instant>) {
    lastStop.Some? && !(j.annotations.scheduledAt.Reads? && j.annotations.scheduledAt.value >= lastStop.value)
  }

  predicate IsOutOfDate(j: Job, desiredHash: string) {
    j.annotations.templateHash != "" && j.annotations.templateHash != desiredHash
  }

  /** isBetterCandidateJob */
  predicate IsBetter(a: Job, b: Job, desiredHash: string) {
    if IsBeingDeleted(a) != IsBeingDeleted(b) then !IsBeingDeleted(a)
    else if (a.annotations.templateHash == desiredHash) != (b.annotations.templateHash == desiredHash)
    then a.annotations.templateHash == desiredHash
    else IsGreater(a.name, b.name)
  }

  /** The candidate among the first n jobs after the loop of the source. */
  function BestIndex(jobs: seq<Job>, lastStop: Option<Instant>, hash: string, n: nat): (r: Option<nat>)
    requires n <= |jobs|
    ensures r.Some? ==> r.value < n && !IsExpired(jobs[r.value], lastStop)
  {
    if n == 0 then None
    else
      var best := BestIndex(jobs, lastStop, hash, n - 1);
      if IsExpired(jobs[n - 1], lastStop) then best
      else if best == None || IsBetter(jobs[n - 1], jobs[best.value], hash) then Some(n - 1)
      else best
  }

  /** The highest readable run id of the first n jobs, or -1. */
  function MaxRunId(jobs: seq<Job>, n: nat): (m: int)
    requires n <= |jobs|
    ensures m >= -1
  {
    if n == 0 then -1
    else
      var m := MaxRunId(jobs, n - 1);
      match jobs[n - 1].annotations.runId
      case Reads(id) => if id > m then id else m
      case _ => m
  }

  function CountRunning(jobs: seq<Job>, n: nat): nat
    requires n <= |jobs|
  {
    if n == 0 then 0
    else CountRunning(jobs, n - 1) + if IsPotentiallyRunning(jobs[n - 1]) then 1 else 0
  }

  function ExpiredDeletes(jobs: seq<Job>, lastStop: Option<Instant>, n: nat): seq<Job>
    requires n <= |jobs|
  {
    if n == 0 then []
    else
      var front, j := ExpiredDeletes(jobs, lastStop, n - 1), jobs[n - 1];
      if IsExpired(j, lastStop) && !IsBeingDeleted(j) then front + [j] else front
  }

  function OtherDeletes(jobs: seq<Job>, lastStop: Option<Instant>, chosen: Option<nat>, n: nat): seq<Job>
    requires n <= |jobs|
  {
    if n == 0 then []
    else
      var front, j := OtherDeletes(jobs, lastStop, chosen, n - 1), jobs[n - 1];
      if !IsExpired(j, lastStop) && !IsBeingDeleted(j) && chosen != Some(n - 1) && !IsCompleted(j) then front + [j]
      else front
  }

  // The decision

  /** The one job allowed to run: none, the i-th of the list, or a new one. */
  datatype Choice = Nobody | Existing(i: nat) | Fresh(job: Job)

  /** Go's int64 multiplication of a number of seconds by time.Second. */
  function SecondsToDuration(seconds: int): int {
    (seconds * 1_000_000_000 - MIN_INT64) % 0x1_0000_0000_0000_0000 + MIN_INT64
  }

  predicate DeadlineExceeded(spec: Spec, start: Option<Instant>, now: Instant) {
    match (spec.startingDeadlineSeconds, start)
    case (Some(seconds), Some(t)) =>
      seconds >= 1 && (now - t) * 1_000_000_000 > SecondsToDuration(seconds)
    case _ => false
  }

  /** The job is out of date, runs, and may be replaced. */
  predicate MustRecreate(j: Job, s: State, enableRecreate: bool) {
    && IsOutOfDate(j, s.desiredHash)
    && IsPotentiallyRunning(j) && !WasStoppedByTheUser(j) && !IsBeingDeleted(j)
    && enableRecreate && s.autoRestart
  }

  /** The chosen job of the list: the best candidate, dropped when the schedule says
      to be stopped and it was not scheduled by hand. */
  function Candidate(s: State): (r: Option<nat>)
    ensures r.Some? ==> r.value < |s.jobs|
  {
    var best := BestIndex(s.jobs, s.lastStop, s.desiredHash, |s.jobs|);
    if !s.Running() && best.Some? && !IsManuallyScheduled(s.jobs[best.value]) then None else best
  }

  function Choose(spec: Spec, s: State, now: Instant, enableRecreate: bool): (r: Result<Choice, Failure>)
    ensures r.Ok? && r.value.Existing? ==> r.value.i < |s.jobs|
  {
    match Candidate(s)
    case Some(i) =>
      if MustRecreate(s.jobs[i], s, enableRecreate) then
        match RecreateJob(s.jobs[i], spec.name, spec.template, NextInt64(MaxRunId(s.jobs, |s.jobs|)), true)
        case None => Err(CannotBuildJob)
        case Some(job) => Ok(Fresh(job))
      else Ok(Existing(i))
    case None =>
      if !s.Running() then Ok(Nobody)
      else if DeadlineExceeded(spec, s.start, now) then Err(StartingDeadlineExceeded)
      else match s.start
        case None => Err(NoRunPeriodStart)
        case Some(t) => Ok(Fresh(BuildJob(spec.name, spec.template, t, 0, false, true)))
  }

  function ChosenJob(s: State, c: Choice): Option<Job>
    requires c.Existing? ==> c.i < |s.jobs|
  {
    match c
    case Nobody => None
    case Existing(i) => Some(s.jobs[i])
    case Fresh(job) => Some(job)
  }

  /** The chosen job is suspended, nothing else can be running, and nobody asked for
      it to stop. */
  predicate MayUnsuspend(s: State, c: Choice)
    requires c.Existing? ==> c.i < |s.jobs|
  {
    && CountRunning(s.jobs, |s.jobs|) + (if c.Fresh? then 1 else 0) == 1
    && match ChosenJob(s, c)
       case None => false
       case Some(j) => IsSuspended(j) && !IsBeingDeleted(j) && !WasStoppedByTheUser(j)
  }

  function Finish(s: State, c: Choice): Decision
    requires c.Existing? ==> c.i < |s.jobs|
  {
    var unsuspend := MayUnsuspend(s, c);
    Decision(
      match c
      case Fresh(job) => [if unsuspend then job.(suspend := None) else job]
      case _ => [],
      ExpiredDeletes(s.jobs, s.lastStop, |s.jobs|)
        + OtherDeletes(s.jobs, s.lastStop, if c.Existing? then Some(c.i) else None, |s.jobs|),
      [],
      if c.Existing? && unsuspend then [s.jobs[c.i]] else [],
      s.nextEvent)
  }

  function Decide(spec: Spec, s: State, now: Instant, enableRecreate: bool): Result<Decision, Failure> {
    if s.isSuspended then Ok(Decision([], s.jobs, [], [], None))
    else
      match Choose(spec, s, now, enableRecreate)
      case Err(e) => Err(e)
      case Ok(c) => Ok(Finish(s, c))
  }
}
