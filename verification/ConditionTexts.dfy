/**
  Every condition of the saved status with its reason, from the fields of the jobs and
  the state of the schedule.
 */
module ConditionTexts {
  import opened Wrappers
  import opened Calendar
  import opened Jobs
  import opened Failures
  import opened Conditions
  import opened Decisions
  import opened ControlledJobs
  import opened DecisionStatus
  import opened OverallConditions
  import opened Reconciling
  import opened StatusFixpoint
  import opened CallConditions
  import opened StatusMeaning
  import opened PlainDecision

  /** The condition is there, with this status and this reason. */
  predicate Says(conditions: seq<Condition>, ctype: ConditionType, status: ConditionStatus, why: Explanation) {
    var i := Find(conditions, ctype);
    i >= 0 && conditions[i].status == status && conditions[i].why == why
  }

  predicate SaysIf(conditions: seq<Condition>, ctype: ConditionType, flag: bool, yes: Explanation, no: Explanation) {
    if flag then Says(conditions, ctype, True, yes) else Says(conditions, ctype, False, no)
  }

  lemma WrittenSays(before: seq<Condition>, generation: int, writes: seq<Write>, after: seq<Condition>,
                    expected: seq<Write>, k: nat)
    requires Wrote(before, generation, writes, after, expected) && EachTypeOnce(expected) && k < |expected|
    ensures Says(after, expected[k].ctype, expected[k].status, expected[k].why)
  {
    assert forall i | 0 <= i < |writes| :: writes[i].(at := 0).ctype == writes[i].ctype == expected[i].ctype;
    LastWriteWins(before, generation, writes, k);
    assert writes[k].(at := 0) == expected[k].(at := 0);
  }

  lemma StillSays(before: seq<Condition>, after: seq<Condition>, w: Write)
    requires Says(before, w.ctype, w.status, w.why) && SameFor(before, after, w.ctype)
    ensures Says(after, w.ctype, w.status, w.why)
  {
  }

  lemma RankedSays(before: seq<Condition>, generation: int, writes: seq<Write>, after: seq<Condition>,
                   expected: seq<Write>, k: nat)
    requires Wrote(before, generation, writes, after, expected) && RankedWithin(expected, 0, 12) && k < |expected|
    ensures Says(after, expected[k].ctype, expected[k].status, expected[k].why)
    ensures !IsCallType(expected[k].ctype) && !IsSummary(expected[k].ctype)
  {
    RankedIsOnce(expected, 0, 12);
    WrittenSays(before, generation, writes, after, expected, k);
    assert Rank(expected[k].ctype) < 12;
  }

  /** What the decision writes is what is saved. */
  lemma SavedSays(x: Round, k: nat)
    requires Passed(x) && RankedWithin(x.trail.expected, 0, 12) && k < |x.trail.expected|
    ensures var w := x.trail.expected[k]; Says(x.saved.conditions, w.ctype, w.status, w.why)
  {
    RankedSays(x.before.conditions, x.q.generation, x.trail.decisionWrites, x.trail.decided.conditions, x.trail.expected, k);
    DecidedStays(x, x.trail.expected[k].ctype);
    StillSays(x.trail.decided.conditions, x.saved.conditions, x.trail.expected[k]);
  }

  lemma DecisionSays(x: Round, s: State, k: nat)
    requires Reconciled(x) && BuildState(x.q.spec, x.q.jobs, x.q.now) == Ok(s)
    requires k < |DecisionWrites(x.q.spec, s, x.q.now, x.q.enableRecreate)|
    ensures var w := DecisionWrites(x.q.spec, s, x.q.now, x.q.enableRecreate)[k];
      Says(x.saved.conditions, w.ctype, w.status, w.why)
  {
    ExpectedRanked(x.q);
    SavedSays(x, k);
  }

  // The schedule

  lemma FirstTwo(spec: Spec, s: State, now: Instant, enableRecreate: bool)
    ensures var w := DecisionWrites(spec, s, now, enableRecreate);
      && |w| >= 2 && w[0] == ShouldBeRunningWrite(s)
      && w[1] == FlagWrite(Suspended, s.isSuspended, SuspendFlagSet, SuspendFlagNotSet)
  {
  }

  lemma StateReads(x: Round, s: State)
    requires BuildState(x.q.spec, x.q.jobs, x.q.now) == Ok(s)
    ensures s.isSuspended <==> x.q.spec.suspend == Some(true)
    ensures s.jobs == x.q.jobs && s.desiredHash == x.q.spec.template.hash && s.autoRestart == x.q.spec.recreateOnSpecChange
  {
  }

  /** Whether the job should be running, and whether the user has suspended it all. */
  lemma ScheduleIsTold(x: Round, s: State)
    requires Reconciled(x) && BuildState(x.q.spec, x.q.jobs, x.q.now) == Ok(s)
    ensures SaysIf(x.saved.conditions, Suspended, x.q.spec.suspend == Some(true), SuspendFlagSet, SuspendFlagNotSet)
    ensures match s.shouldBeRunning
      case None => Says(x.saved.conditions, ConditionType.ShouldBeRunning, Unknown, NoStartEvent)
      case Some(running) => SaysIf(x.saved.conditions, ConditionType.ShouldBeRunning, running, InsideRunPeriod, OutsideRunPeriod)
  {
    FirstTwo(x.q.spec, s, x.q.now, x.q.enableRecreate);
    StateReads(x, s);
    DecisionSays(x, s, 0);
    DecisionSays(x, s, 1);
  }

  // The list of jobs

  lemma NextTwo(spec: Spec, s: State, now: Instant, enableRecreate: bool)
    requires !s.isSuspended
    ensures var w := DecisionWrites(spec, s, now, enableRecreate); |w| >= 4 && w[2..4] == AllJobsWrites(s.jobs)
  {
  }

  ghost predicate ListIsTold(jobs: seq<Job>, conditions: seq<Condition>) {
    if jobs == [] then
      Says(conditions, JobManuallyScheduled, Unknown, NoCurrentJob) && Says(conditions, JobBeingDeleted, Unknown, NoCurrentJob)
    else
      && SaysIf(conditions, JobManuallyScheduled, exists j | j in jobs :: j.annotations.manual == Reads(true),
                CreatedByUser, NoManuallyScheduledJobs)
      && SaysIf(conditions, JobBeingDeleted, exists j | j in jobs :: j.deletionTimestamp != None,
                Explanation.BeingDeleted, NotBeingDeleted)
  }

  lemma AnyJobIs(jobs: seq<Job>)
    ensures (exists j | j in jobs :: j.annotations.manual == Reads(true)) <==> exists j | j in jobs :: IsManuallyScheduled(j)
    ensures (exists j | j in jobs :: j.deletionTimestamp != None) <==> exists j | j in jobs :: IsBeingDeleted(j)
  {
    if j :| j in jobs && j.deletionTimestamp != None { assert IsBeingDeleted(j); }
    if j :| j in jobs && j.annotations.manual == Reads(true) { assert IsManuallyScheduled(j); }
  }

  predicate Said(conditions: seq<Condition>, w: Write) { Says(conditions, w.ctype, w.status, w.why) }

  lemma FlagIsSaid(conditions: seq<Condition>, ctype: ConditionType, flag: bool, yes: Explanation, no: Explanation)
    requires Said(conditions, FlagWrite(ctype, flag, yes, no))
    ensures SaysIf(conditions, ctype, flag, yes, no)
  {
  }

  lemma ListWrites(jobs: seq<Job>, conditions: seq<Condition>)
    requires Said(conditions, AllJobsWrites(jobs)[0]) && Said(conditions, AllJobsWrites(jobs)[1])
    ensures ListIsTold(jobs, conditions)
  {
    AnyJobIs(jobs);
    if jobs != [] {
      FlagIsSaid(conditions, JobManuallyScheduled, exists j | j in jobs :: IsManuallyScheduled(j), CreatedByUser, NoManuallyScheduledJobs);
      FlagIsSaid(conditions, JobBeingDeleted, exists j | j in jobs :: IsBeingDeleted(j), Explanation.BeingDeleted, NotBeingDeleted);
    }
  }

  /** Whether any job was scheduled by hand or is being deleted. */
  lemma JobListIsTold(x: Round, s: State)
    requires Reconciled(x) && BuildState(x.q.spec, x.q.jobs, x.q.now) == Ok(s) && !s.isSuspended
    ensures ListIsTold(x.q.jobs, x.saved.conditions)
  {
    NextTwo(x.q.spec, s, x.q.now, x.q.enableRecreate);
    StateReads(x, s);
    DecisionSays(x, s, 2);
    DecisionSays(x, s, 3);
    ListWrites(s.jobs, x.saved.conditions);
  }

  // The reported job

  lemma NextSix(spec: Spec, s: State, now: Instant, enableRecreate: bool, k: nat)
    requires !s.isSuspended && k < 6
    ensures var w := DecisionWrites(spec, s, now, enableRecreate);
      |w| >= 10 && |JobWrites(MetricsJob(s))| == 6 && w[4 + k] == JobWrites(MetricsJob(s))[k]
  {
  }

  predicate WritesSaid(writes: seq<Write>, conditions: seq<Condition>) {
    forall k | 0 <= k < |writes| :: Says(conditions, writes[k].ctype, writes[k].status, writes[k].why)
  }

  lemma ReportIsSaid(x: Round, s: State)
    requires Reconciled(x) && BuildState(x.q.spec, x.q.jobs, x.q.now) == Ok(s) && !s.isSuspended
    ensures WritesSaid(JobWrites(MetricsJob(s)), x.saved.conditions)
  {
    forall k: nat | k < |JobWrites(MetricsJob(s))|
      ensures var w := JobWrites(MetricsJob(s))[k]; Says(x.saved.conditions, w.ctype, w.status, w.why)
    {
      assert |JobWrites(MetricsJob(s))| == 6;
      NextSix(x.q.spec, s, x.q.now, x.q.enableRecreate, k);
      DecisionSays(x, s, 4 + k);
    }
  }

  /** Which conditions a job reports, in its fields. */
  ghost predicate JobIsTold(j: Job, conditions: seq<Condition>) {
    && Says(conditions, JobExists, True, AJobExists)
    && (match j.ready
        case None => Says(conditions, JobRunning, Unknown, NoReadyStatus)
        case Some(n) => SaysIf(conditions, JobRunning, n > 0 && !Finished(j), ReadyCountSufficient, ReadyCountNotSufficient))
    && (if JobCondition(Complete, True) in j.conditions then Says(conditions, JobComplete, True, CompleteRelayed)
        else Says(conditions, JobComplete, Unknown, CompleteUnknown))
    && (if JobCondition(JobConditionType.Failed, True) in j.conditions then Says(conditions, JobFailed, True, FailedRelayed)
        else Says(conditions, JobFailed, Unknown, FailedUnknown))
    && SaysIf(conditions, JobSuspended, j.suspend == Some(true), CurrentJobSuspended, CurrentJobNotSuspended)
    && SaysIf(conditions, JobStoppedByUser, j.suspend == Some(true) && j.annotations.suspendReason == "user-stop",
              StoppedByUser, NotStoppedByUser)
  }

  ghost predicate NoJobIsTold(conditions: seq<Condition>) {
    && Says(conditions, JobExists, False, NoCurrentJob) && Says(conditions, JobRunning, Unknown, NoCurrentJob)
    && Says(conditions, JobComplete, Unknown, NoCurrentJob) && Says(conditions, JobFailed, Unknown, NoCurrentJob)
    && Says(conditions, JobSuspended, Unknown, NoCurrentJob) && Says(conditions, JobStoppedByUser, Unknown, NoCurrentJob)
  }

  lemma SixSaid(writes: seq<Write>, conditions: seq<Condition>)
    requires |writes| == 6 && WritesSaid(writes, conditions)
    ensures Says(conditions, writes[0].ctype, writes[0].status, writes[0].why)
    ensures Says(conditions, writes[1].ctype, writes[1].status, writes[1].why)
    ensures Says(conditions, writes[2].ctype, writes[2].status, writes[2].why)
    ensures Says(conditions, writes[3].ctype, writes[3].status, writes[3].why)
    ensures Says(conditions, writes[4].ctype, writes[4].status, writes[4].why)
    ensures Says(conditions, writes[5].ctype, writes[5].status, writes[5].why)
  {
  }

  lemma JobWritesTell(job: Option<Job>, conditions: seq<Condition>)
    requires WritesSaid(JobWrites(job), conditions)
    ensures match job
      case Some(j) => JobIsTold(j, conditions)
      case None => NoJobIsTold(conditions)
  {
    SixSaid(JobWrites(job), conditions);
    if job.Some? { FinishedIsCompleted(job.value); }
  }

  /** The conditions about one job are those of the best job with a readable run id. */
  lemma ReportedJobIsTold(x: Round, s: State, r: Job)
    requires Reconciled(x) && BuildState(x.q.spec, x.q.jobs, x.q.now) == Ok(s) && !s.isSuspended
    requires DistinctNames(s.jobs) && IsReported(s, r)
    ensures JobIsTold(r, x.saved.conditions)
  {
    ReportIsSaid(x, s);
    JobWritesTell(MetricsJob(s), x.saved.conditions);
    ReportedIsBest(s);
    if MetricsJob(s).Some? { ReportedIsUnique(s, r, MetricsJob(s).value); }
  }

  /** Without such a job they say so. */
  lemma NoReportedJobIsTold(x: Round, s: State)
    requires Reconciled(x) && BuildState(x.q.spec, x.q.jobs, x.q.now) == Ok(s) && !s.isSuspended
    requires DistinctNames(s.jobs) && forall j | j in s.jobs :: !j.annotations.runId.Reads?
    ensures NoJobIsTold(x.saved.conditions)
  {
    ReportIsSaid(x, s);
    JobWritesTell(MetricsJob(s), x.saved.conditions);
    ReportedIsBest(s);
  }

  // The choice

  /** Whether the wanted job is out of date, and why it is still there. */
  ghost predicate OutdatedIsTold(j: Job, s: State, enableRecreate: bool, conditions: seq<Condition>) {
    if j.annotations.templateHash == "" || j.annotations.templateHash == s.desiredHash
    then Says(conditions, OutOfDate, False, NotOutOfDate)
    else if Finished(j) || (j.suspend == Some(true) && j.annotations.suspendReason == "user-stop")
    then Says(conditions, OutOfDate, True, JobIsNotRunning)
    else if j.deletionTimestamp != None then Says(conditions, OutOfDate, True, JobIsBeingDeleted)
    else if !enableRecreate || !s.autoRestart then Says(conditions, OutOfDate, True, ShouldNotAutoRestart)
    else Says(conditions, OutOfDate, False, NotOutOfDate)
  }

  lemma LastTwoSaid(x: Round, s: State)
    requires Reconciled(x) && BuildState(x.q.spec, x.q.jobs, x.q.now) == Ok(s) && !s.isSuspended
    requires Choose(x.q.spec, s, x.q.now, x.q.enableRecreate) != Err(CannotBuildJob)
    ensures var w := OutOfDateWrite(s, x.q.enableRecreate); Says(x.saved.conditions, w.ctype, w.status, w.why)
    ensures var w := DeadlineWrite(x.q.spec, s, x.q.now); Says(x.saved.conditions, w.ctype, w.status, w.why)
  {
    ChoicePositions(x.q.spec, s, x.q.now, x.q.enableRecreate);
    DecisionSays(x, s, 10);
    DecisionSays(x, s, 11);
  }

  /** The wanted job can be replaced if need be: its start can be read. */
  ghost predicate CanMakeWay(s: State, enableRecreate: bool, j: Job) {
    MakesWay(s, enableRecreate, j) ==> j.annotations.scheduledAt.Reads?
  }

  lemma WantedWrites(spec: Spec, s: State, now: Instant, enableRecreate: bool, j: Job)
    requires DistinctNames(s.jobs) && Wanted(s, j) && CanMakeWay(s, enableRecreate, j)
    ensures Choose(spec, s, now, enableRecreate) != Err(CannotBuildJob)
    ensures Candidate(s).Some? && s.jobs[Candidate(s).value] == j
  {
    CandidateIsWanted(s, j);
    MakesWayIff(s, enableRecreate, j);
  }

  lemma OutdatedWrite(s: State, enableRecreate: bool, j: Job, conditions: seq<Condition>)
    requires Candidate(s).Some? && s.jobs[Candidate(s).value] == j
    requires var w := OutOfDateWrite(s, enableRecreate); Says(conditions, w.ctype, w.status, w.why)
    ensures OutdatedIsTold(j, s, enableRecreate, conditions)
  {
    FinishedIsCompleted(j);
  }

  /** With a wanted job there is no question of starting one. */
  lemma WantedJobIsTold(x: Round, s: State, j: Job)
    requires Reconciled(x) && BuildState(x.q.spec, x.q.jobs, x.q.now) == Ok(s) && !s.isSuspended
    requires DistinctNames(s.jobs) && Wanted(s, j) && CanMakeWay(s, x.q.enableRecreate, j)
    ensures OutdatedIsTold(j, s, x.q.enableRecreate, x.saved.conditions)
    ensures Says(x.saved.conditions, ConditionType.StartingDeadlineExceeded, Unknown, NoNewJobRequired)
  {
    WantedWrites(x.q.spec, s, x.q.now, x.q.enableRecreate, j);
    LastTwoSaid(x, s);
    OutdatedWrite(s, x.q.enableRecreate, j, x.saved.conditions);
  }

  lemma UnwantedWrites(spec: Spec, s: State, now: Instant, enableRecreate: bool)
    requires DistinctNames(s.jobs) && forall j :: !Wanted(s, j)
    ensures Choose(spec, s, now, enableRecreate) != Err(CannotBuildJob) && Candidate(s).None?
  {
    if Candidate(s).Some? {
      CandidateIsWanted(s, s.jobs[Candidate(s).value]);
    }
  }

  /** Without a wanted job nothing is out of date, and inside the run period it is said
      whether it is too late to start one. */
  lemma MissingJobIsTold(x: Round, s: State)
    requires Reconciled(x) && BuildState(x.q.spec, x.q.jobs, x.q.now) == Ok(s) && !s.isSuspended
    requires DistinctNames(s.jobs) && forall j :: !Wanted(s, j)
    ensures Says(x.saved.conditions, OutOfDate, False, NoRunningJob)
    ensures if s.shouldBeRunning == Some(true)
      then SaysIf(x.saved.conditions, ConditionType.StartingDeadlineExceeded, Decisions.DeadlineExceeded(x.q.spec, s.start, x.q.now),
                  Explanation.DeadlineExceeded, DeadlineNotExceeded)
      else Says(x.saved.conditions, ConditionType.StartingDeadlineExceeded, Unknown, NoNewJobRequired)
  {
    UnwantedWrites(x.q.spec, s, x.q.now, x.q.enableRecreate);
    LastTwoSaid(x, s);
  }

  // The calls

  /** The condition for the kind of a call, after that call. */
  ghost predicate CallIsTold(call: Call, reply: Option<string>, conditions: seq<Condition>) {
    match (call, reply)
    case (DeleteCall(j), None) => Says(conditions, FailedToDeleteJob, False, DeletedJob)
    case (CreateCall(j), None) => Says(conditions, FailedToCreateJob, False, CreatedJob)
    case (SuspendCall(j), None) => Says(conditions, FailedToSuspendJob, True, SuspendedJob)
    case (UnsuspendCall(j), None) => Says(conditions, FailedToUnsuspendJob, True, UnsuspendedJob)
    case (DeleteCall(j), Some(e)) => Says(conditions, FailedToDeleteJob, True, Explanation.Failed(CannotDelete(j.name, e)))
    case (CreateCall(j), Some(e)) => Says(conditions, FailedToCreateJob, True, Explanation.Failed(CannotCreate(j.name, e)))
    case (SuspendCall(j), Some(e)) => Says(conditions, FailedToSuspendJob, True, Explanation.Failed(CannotSuspend(j.name, e)))
    case (UnsuspendCall(j), Some(e)) => Says(conditions, FailedToUnsuspendJob, True, Explanation.Failed(CannotUnsuspend(j.name, e)))
  }

  lemma LastCallSays(before: seq<Condition>, generation: int, writes: seq<Write>, after: seq<Condition>,
                     calls: seq<Call>, reply: nat -> Option<string>, from: nat, k: nat, call: Call, r: Option<string>)
    requires Wrote(before, generation, writes, after, CallWrites(calls, reply, from)) && k < SentCount(calls, reply, from)
    requires forall i | k < i < SentCount(calls, reply, from) :: FailureType(calls[i]) != FailureType(calls[k])
    requires call == calls[k] && r == reply(from + k)
    ensures CallIsTold(call, r, after)
  {
    var expected := CallWrites(calls, reply, from);
    CallWritesAre(calls, reply, from, k);
    forall i | k <= i < |writes| ensures writes[i].ctype == FailureType(calls[i]) {
      CallWritesAre(calls, reply, from, i);
      assert writes[i].(at := 0) == expected[i].(at := 0);
    }
    LastWriteWins(before, generation, writes, k);
    assert writes[k].(at := 0) == expected[k].(at := 0);
  }

  predicate OneKind(a: Call, b: Call) {
    || (a.DeleteCall? && b.DeleteCall?) || (a.CreateCall? && b.CreateCall?)
    || (a.SuspendCall? && b.SuspendCall?) || (a.UnsuspendCall? && b.UnsuspendCall?)
  }

  lemma KindsHaveTypes(a: Call, b: Call)
    ensures FailureType(a) == FailureType(b) <==> OneKind(a, b)
    ensures !IsSummary(FailureType(a))
  {
  }

  lemma StillTold(before: seq<Condition>, after: seq<Condition>, call: Call, reply: Option<string>)
    requires CallIsTold(call, reply, before) && SameFor(before, after, FailureType(call))
    ensures CallIsTold(call, reply, after)
  {
  }

  lemma LastInPlan(plan: seq<Call>, start: seq<Call>, sent: nat, calls: seq<Call>, k: nat)
    requires sent <= |plan| && calls == start + plan[..sent]
    requires |start| <= k < |calls| && forall i | k < i < |calls| :: !OneKind(calls[i], calls[k])
    ensures k - |start| < sent && plan[k - |start|] == calls[k]
    ensures forall i | k - |start| < i < sent :: FailureType(plan[i]) != FailureType(plan[k - |start|])
  {
    forall i | k - |start| < i < sent ensures FailureType(plan[i]) != FailureType(plan[k - |start|]) {
      assert plan[i] == calls[|start| + i];
      KindsHaveTypes(calls[|start| + i], calls[k]);
    }
  }

  /** Of the calls of a plan that were sent, the last of each kind is told. */
  lemma SentCallSays(before: seq<Condition>, generation: int, writes: seq<Write>, after: seq<Condition>,
                     plan: seq<Call>, reply: nat -> Option<string>, start: seq<Call>, calls: seq<Call>, k: nat)
    requires Wrote(before, generation, writes, after, CallWrites(plan, reply, |start|))
    requires calls == start + plan[..SentCount(plan, reply, |start|)]
    requires |start| <= k < |calls| && forall i | k < i < |calls| :: !OneKind(calls[i], calls[k])
    ensures CallIsTold(calls[k], reply(k), after)
  {
    LastInPlan(plan, start, SentCount(plan, reply, |start|), calls, k);
    LastCallSays(before, generation, writes, after, plan, reply, |start|, k - |start|, calls[k], reply(k));
  }

  /** After a reconcile, the last call of each kind that it sent is told. */
  lemma LastCallIsTold(x: Round, k: nat)
    requires Passed(x) && |x.start| <= k < |x.calls| && forall i | k < i < |x.calls| :: !OneKind(x.calls[i], x.calls[k])
    ensures CallIsTold(x.calls[k], x.reply(k), x.saved.conditions)
  {
    SentCallSays(x.trail.decided.conditions, x.q.generation, x.trail.callWrites, x.trail.acted.conditions, x.trail.plan,
                 x.reply, x.start, x.calls, k);
    KindsHaveTypes(x.calls[k], x.calls[k]);
    SummaryKeeps(x, FailureType(x.calls[k]));
    StillTold(x.trail.acted.conditions, x.saved.conditions, x.calls[k], x.reply(k));
  }

  // The summary

  /** The one condition of the summary that is true and why, by the four flags in the same
      status; the others cannot be determined. */
  ghost predicate VerdictIsTold(conditions: seq<Condition>) {
    var runs := IsTrue(conditions, JobExists) && !IsTrue(conditions, JobFailed);
    var failed := IsTrue(conditions, JobFailed);
    var scheduled, manual := IsTrue(conditions, ConditionType.ShouldBeRunning), IsTrue(conditions, JobManuallyScheduled);
    && SummarySays(conditions, RunningExpectedly, runs && (scheduled || manual),
                   if scheduled then RunningBasedOnSchedule else RunningManually)
    && SummarySays(conditions, RunningUnexpectedly, runs && !scheduled && !manual, IsRunningUnexpectedly)
    && SummarySays(conditions, NotRunningUnexpectedly, !runs && (scheduled || manual),
                   if scheduled then (if failed then JobFailedInSchedule else NoJobInSchedule)
                   else if failed then ManualJobFailed else NoManualJob)
    && SummarySays(conditions, NotRunningExpectedly, !runs && !scheduled && !manual, IsNotRunningExpectedly)
  }

  predicate SummarySays(conditions: seq<Condition>, ctype: ConditionType, holds: bool, why: Explanation) {
    if holds then Says(conditions, ctype, True, why) else Says(conditions, ctype, Unknown, CannotDetermine)
  }

  lemma OverallSays(before: seq<Condition>, generation: int, writes: seq<Write>, after: seq<Condition>, failure: Option<Failure>)
    requires Wrote(before, generation, writes, after, OverallWrites(before, failure))
    ensures WritesSaid(OverallWrites(before, failure), after)
  {
    var expected := OverallWrites(before, failure);
    OverallRanked(before, failure);
    RankedIsOnce(expected, 12, 17);
    forall k: nat | k < |expected| ensures Says(after, expected[k].ctype, expected[k].status, expected[k].why) {
      WrittenSays(before, generation, writes, after, expected, k);
    }
  }

  lemma SameFlags(before: seq<Condition>, after: seq<Condition>)
    requires forall other | !IsSummary(other) :: SameFor(before, after, other)
    ensures IsTrue(after, JobExists) == IsTrue(before, JobExists) && IsTrue(after, JobFailed) == IsTrue(before, JobFailed)
    ensures IsTrue(after, ConditionType.ShouldBeRunning) == IsTrue(before, ConditionType.ShouldBeRunning)
    ensures IsTrue(after, JobManuallyScheduled) == IsTrue(before, JobManuallyScheduled)
  {
    assert SameFor(before, after, JobExists) && SameFor(before, after, JobFailed);
    assert SameFor(before, after, ConditionType.ShouldBeRunning) && SameFor(before, after, JobManuallyScheduled);
  }

  lemma FiveSaid(before: seq<Condition>, after: seq<Condition>, failure: Option<Failure>)
    requires WritesSaid(OverallWrites(before, failure), after)
    requires IsTrue(after, JobExists) == IsTrue(before, JobExists) && IsTrue(after, JobFailed) == IsTrue(before, JobFailed)
    requires IsTrue(after, ConditionType.ShouldBeRunning) == IsTrue(before, ConditionType.ShouldBeRunning)
    requires IsTrue(after, JobManuallyScheduled) == IsTrue(before, JobManuallyScheduled)
    ensures VerdictIsTold(after) && ErrorIsTold(failure, after)
  {
    var w := OverallWrites(before, failure);
    assert |w| == 5;
    assert Says(after, w[0].ctype, w[0].status, w[0].why) && Says(after, w[1].ctype, w[1].status, w[1].why);
    assert Says(after, w[2].ctype, w[2].status, w[2].why) && Says(after, w[3].ctype, w[3].status, w[3].why);
    assert Says(after, w[4].ctype, w[4].status, w[4].why);
  }

  /** Whether the reconcile failed, and how. */
  predicate ErrorIsTold(failure: Option<Failure>, conditions: seq<Condition>) {
    match failure
    case None => Says(conditions, Error, False, NoError)
    case Some(e) => Says(conditions, Error, True, Explanation.Failed(e))
  }

  lemma SummaryIsTold(x: Round)
    requires Passed(x)
    ensures VerdictIsTold(x.saved.conditions) && ErrorIsTold(x.trail.failure, x.saved.conditions)
  {
    OverallSays(x.trail.acted.conditions, x.q.generation, x.trail.overallWrites, x.saved.conditions, x.trail.failure);
    OthersUntouched(x.trail.acted.conditions, x.q.generation, x.trail.overallWrites, x.saved.conditions, x.trail.failure);
    SameFlags(x.trail.acted.conditions, x.saved.conditions);
    FiveSaid(x.trail.acted.conditions, x.saved.conditions, x.trail.failure);
  }

  /** Which failure that is: the decision's, or that of the last call sent. */
  ghost predicate FailureIs(x: Round, failure: Option<Failure>) {
    var n := |x.calls|;
    match x.q.Decision()
    case Err(e) => failure == Some(e)
    case Ok(_) =>
      if n > |x.start| && x.reply(n - 1).Some?
      then n > 0 && failure.Some? && Blames(failure.value, x.calls[n - 1], x.reply(n - 1).value)
      else failure == None
  }

  lemma FailureOfRound(x: Round)
    requires Reconciled(x)
    ensures FailureIs(x, x.trail.failure)
  {
    LastCallDecides(x.start, x.trail.plan, x.reply, x.calls);
  }
}
