/** What a decision writes to the status: the list of conditions, each written once. */
module DecisionStatus {
  import opened Wrappers
  import opened Calendar
  import opened Jobs
  import opened Conditions
  import opened Failures
  import opened Decisions
  import opened ControlledJobs

  function ShouldBeRunningWrite(s: State): Write {
    match s.shouldBeRunning
    case None => Unclocked(ConditionType.ShouldBeRunning, Unknown, NoStartEvent)
    case Some(flag) => FlagWrite(ConditionType.ShouldBeRunning, flag, InsideRunPeriod, OutsideRunPeriod)
  }

  function AllJobsWrites(jobs: seq<Job>): seq<Write> {
    if jobs == [] then
      [Unclocked(JobManuallyScheduled, Unknown, NoCurrentJob), Unclocked(JobBeingDeleted, Unknown, NoCurrentJob)]
    else
      [FlagWrite(JobManuallyScheduled, exists j | j in jobs :: IsManuallyScheduled(j), CreatedByUser, NoManuallyScheduledJobs),
       FlagWrite(JobBeingDeleted, exists j | j in jobs :: IsBeingDeleted(j), Explanation.BeingDeleted, NotBeingDeleted)]
  }

  /** The conditions that describe one job, or the absence of any. */
  function JobWrites(job: Option<Job>): seq<Write> {
    match job
    case None =>
      [Unclocked(JobExists, False, NoCurrentJob), Unclocked(JobRunning, Unknown, NoCurrentJob),
       Unclocked(JobComplete, Unknown, NoCurrentJob), Unclocked(JobFailed, Unknown, NoCurrentJob),
       Unclocked(JobSuspended, Unknown, NoCurrentJob), Unclocked(JobStoppedByUser, Unknown, NoCurrentJob)]
    case Some(j) =>
      [Unclocked(JobExists, True, AJobExists),
       if j.ready.Some? then FlagWrite(JobRunning, IsRunning(j), ReadyCountSufficient, ReadyCountNotSufficient)
       else Unclocked(JobRunning, Unknown, NoReadyStatus),
       RelayWrite(JobComplete, HasCondition(j, Complete), CompleteRelayed, CompleteUnknown),
       RelayWrite(JobFailed, HasCondition(j, JobConditionType.Failed), FailedRelayed, FailedUnknown),
       FlagWrite(JobSuspended, IsSuspended(j), CurrentJobSuspended, CurrentJobNotSuspended),
       FlagWrite(JobStoppedByUser, WasStoppedByTheUser(j), StoppedByUser, NotStoppedByUser)]
  }

  /** A condition of the Job is relayed when true; otherwise it is not known yet. */
  function RelayWrite(ctype: ConditionType, seen: bool, relayed: Explanation, unknown: Explanation): Write {
    if seen then Unclocked(ctype, True, relayed) else Unclocked(ctype, Unknown, unknown)
  }

  /** The job the conditions describe: the best of the first n with a readable run id. */
  function MetricsIndex(jobs: seq<Job>, hash: string, n: nat): (r: Option<nat>)
    requires n <= |jobs|
    ensures r.Some? ==> r.value < n
  {
    if n == 0 then None
    else
      var best := MetricsIndex(jobs, hash, n - 1);
      if !jobs[n - 1].annotations.runId.Reads? then best
      else if best == None || IsBetter(jobs[n - 1], jobs[best.value], hash) then Some(n - 1)
      else best
  }

  function MetricsJob(s: State): Option<Job> {
    match MetricsIndex(s.jobs, s.desiredHash, |s.jobs|)
    case None => None
    case Some(i) => Some(s.jobs[i])
  }

  function OutOfDateWrite(s: State, enableRecreate: bool): Write {
    match Candidate(s)
    case None => Unclocked(OutOfDate, False, NoRunningJob)
    case Some(i) =>
      var j := s.jobs[i];
      if !IsOutOfDate(j, s.desiredHash) then Unclocked(OutOfDate, False, NotOutOfDate)
      else if !IsPotentiallyRunning(j) || WasStoppedByTheUser(j) then Unclocked(OutOfDate, True, JobIsNotRunning)
      else if IsBeingDeleted(j) then Unclocked(OutOfDate, True, JobIsBeingDeleted)
      else if !(enableRecreate && s.autoRestart) then Unclocked(OutOfDate, True, ShouldNotAutoRestart)
      else Unclocked(OutOfDate, False, NotOutOfDate)
  }

  function DeadlineWrite(spec: Spec, s: State, now: Instant): Write {
    if s.Running() && Candidate(s) == None then
      FlagWrite(ConditionType.StartingDeadlineExceeded, Decisions.DeadlineExceeded(spec, s.start, now),
                Explanation.DeadlineExceeded, DeadlineNotExceeded)
    else Unclocked(ConditionType.StartingDeadlineExceeded, Unknown, NoNewJobRequired)
  }

  /** A job that cannot be rebuilt ends the decision before these two. */
  function ChoiceWrites(spec: Spec, s: State, now: Instant, enableRecreate: bool): seq<Write> {
    if Choose(spec, s, now, enableRecreate) == Err(CannotBuildJob) then []
    else [OutOfDateWrite(s, enableRecreate), DeadlineWrite(spec, s, now)]
  }

  function DecisionWrites(spec: Spec, s: State, now: Instant, enableRecreate: bool): seq<Write> {
    var first := [ShouldBeRunningWrite(s), FlagWrite(Suspended, s.isSuspended, SuspendFlagSet, SuspendFlagNotSet)];
    if s.isSuspended then first
    else first + AllJobsWrites(s.jobs) + JobWrites(MetricsJob(s)) + ChoiceWrites(spec, s, now, enableRecreate)
  }

  /** The names of the first n jobs that may be running. */
  function ActiveNames(jobs: seq<Job>, n: nat): seq<string>
    requires n <= |jobs|
  {
    if n == 0 then []
    else
      var front := ActiveNames(jobs, n - 1);
      if IsPotentiallyRunning(jobs[n - 1]) then front + [jobs[n - 1].name] else front
  }

  /** Whether a job was chosen when the decision ended: a failed rebuild leaves the
      old job chosen, the other failures come with none. */
  predicate EndsWithJob(c: Result<Choice, Failure>) {
    match c
    case Ok(choice) => choice != Nobody
    case Err(e) => e == CannotBuildJob
  }

  function StatusAfterDecision(before: Status, conditions: seq<Condition>, spec: Spec, s: State, now: Instant,
                               enableRecreate: bool): Status
  {
    var status := before.(
      conditions := conditions, isSuspended := Some(s.isSuspended), lastScheduledStartTime := s.start,
      shouldBeRunning := Some(s.Running()));
    if s.isSuspended then status
    else status.(
      active := ActiveNames(s.jobs, |s.jobs|),
      isRunning := Some(EndsWithJob(Choose(spec, s, now, enableRecreate))))
  }

  // Each type once

  /** The order in which a pass writes the condition types. */
  function Rank(ctype: ConditionType): nat {
    match ctype
    case ShouldBeRunning => 0
    case Suspended => 1
    case JobManuallyScheduled => 2
    case JobBeingDeleted => 3
    case JobExists => 4
    case JobRunning => 5
    case JobComplete => 6
    case JobFailed => 7
    case JobSuspended => 8
    case JobStoppedByUser => 9
    case OutOfDate => 10
    case StartingDeadlineExceeded => 11
    case Error => 12
    case RunningExpectedly => 13
    case RunningUnexpectedly => 14
    case NotRunningExpectedly => 15
    case NotRunningUnexpectedly => 16
    case _ => 17
  }

  ghost predicate RankedWithin(writes: seq<Write>, from: nat, end: nat) {
    && (forall i | 0 <= i < |writes| :: from <= Rank(writes[i].ctype) < end)
    && forall i, j | 0 <= i < j < |writes| :: Rank(writes[i].ctype) < Rank(writes[j].ctype)
  }

  lemma RankedConcat(a: seq<Write>, b: seq<Write>, from: nat, middle: nat, end: nat)
    requires from <= middle <= end && RankedWithin(a, from, middle) && RankedWithin(b, middle, end)
    ensures RankedWithin(a + b, from, end)
  {
  }

  lemma JobWritesRanked(job: Option<Job>)
    ensures RankedWithin(JobWrites(job), 4, 10)
  {
    var writes := JobWrites(job);
    assert |writes| == 6 && writes[0].ctype == JobExists && writes[1].ctype == JobRunning;
    assert writes[2].ctype == JobComplete && writes[3].ctype == JobFailed;
    assert writes[4].ctype == JobSuspended && writes[5].ctype == JobStoppedByUser;
    assert forall i | 0 <= i < 6 :: Rank(writes[i].ctype) == 4 + i;
  }

  lemma AllJobsWritesRanked(jobs: seq<Job>)
    ensures RankedWithin(AllJobsWrites(jobs), 2, 4)
  {
  }

  lemma ChoiceWritesRanked(spec: Spec, s: State, now: Instant, enableRecreate: bool)
    ensures RankedWithin(ChoiceWrites(spec, s, now, enableRecreate), 10, 12)
  {
    assert OutOfDateWrite(s, enableRecreate).ctype == OutOfDate;
    assert DeadlineWrite(spec, s, now).ctype == ConditionType.StartingDeadlineExceeded;
  }

  lemma FirstWritesRanked(s: State, flag: bool)
    ensures RankedWithin([ShouldBeRunningWrite(s), FlagWrite(Suspended, flag, SuspendFlagSet, SuspendFlagNotSet)], 0, 2)
  {
  }

  /** A decision writes each condition type at most once. */
  lemma DecisionWritesRanked(spec: Spec, s: State, now: Instant, enableRecreate: bool)
    ensures RankedWithin(DecisionWrites(spec, s, now, enableRecreate), 0, 12)
  {
    var first := [ShouldBeRunningWrite(s), FlagWrite(Suspended, s.isSuspended, SuspendFlagSet, SuspendFlagNotSet)];
    var all, job, choice := AllJobsWrites(s.jobs), JobWrites(MetricsJob(s)), ChoiceWrites(spec, s, now, enableRecreate);
    FirstWritesRanked(s, s.isSuspended);
    AllJobsWritesRanked(s.jobs);
    JobWritesRanked(MetricsJob(s));
    ChoiceWritesRanked(spec, s, now, enableRecreate);
    RankedConcat(first, all, 0, 2, 4);
    RankedConcat(first + all, job, 0, 4, 10);
    RankedConcat(first + all + job, choice, 0, 10, 12);
  }
}
