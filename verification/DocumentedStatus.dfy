/**
  The conditions against what their declarations say of them: exactly when JobExists
  means a current job that is not being deleted, and when the summary is about a job
  that may be running.
 */
module DocumentedStatus {
  import opened Wrappers
  import opened Calendar
  import opened Jobs
  import opened Conditions
  import opened Decisions
  import opened CandidateOrder
  import opened ControlledJobs
  import opened DecisionStatus
  import opened OverallConditions
  import opened Reconciling
  import opened CallConditions
  import opened StatusMeaning

  // JobExists

  ghost predicate SomeRunIsRead(s: State) { exists j | j in s.jobs :: HasRun(j) }

  /** As declared: a current job that is not being deleted. */
  ghost predicate HasStayingJob(s: State) {
    exists j | j in s.jobs :: !IsExpired(j, s.lastStop) && !IsBeingDeleted(j)
  }

  lemma DecidedExistence(q: Request, s: State, before: seq<Condition>, writes: seq<Write>, after: seq<Condition>)
    requires BuildState(q.spec, q.jobs, q.now) == Ok(s) && DistinctNames(s.jobs)
    requires Wrote(before, q.generation, writes, after, ExpectedWrites(q))
    ensures IsTrue(after, JobExists) <==> if s.isSuspended then IsTrue(before, JobExists) else SomeRunIsRead(s)
  {
    if s.isSuspended {
      SuspendedKeepsExistence(q.spec, s, q.now, q.enableRecreate, before, q.generation, writes, after);
    } else {
      DecisionTells(q.spec, s, q.now, q.enableRecreate, before, q.generation, writes, after);
      ReportedIsBest(s);
    }
  }

  lemma SuspendedKeepsExistence(spec: Spec, s: State, now: Instant, enableRecreate: bool, before: seq<Condition>,
                                generation: int, writes: seq<Write>, after: seq<Condition>)
    requires s.isSuspended && Wrote(before, generation, writes, after, DecisionWrites(spec, s, now, enableRecreate))
    ensures IsTrue(after, JobExists) == IsTrue(before, JobExists)
  {
    var expected := DecisionWrites(spec, s, now, enableRecreate);
    assert |writes| == 2 && writes[0].(at := 0) == expected[0].(at := 0) && writes[1].(at := 0) == expected[1].(at := 0);
    assert writes[0].ctype == ConditionType.ShouldBeRunning && writes[1].ctype == Suspended;
    PutAllUntouched(before, generation, writes, JobExists);
  }

  lemma ExistenceIsSaved(x: Round)
    requires Passed(x)
    ensures IsTrue(x.saved.conditions, JobExists) == IsTrue(x.trail.decided.conditions, JobExists)
  {
    DecidedStays(x, JobExists);
  }

  /** JobExists says whether any listed job has a readable run id; for a suspended
      ControlledJob it is what it was. */
  lemma JobExistsIs(x: Round, s: State)
    requires Reconciled(x) && DistinctNames(s.jobs) && BuildState(x.q.spec, x.q.jobs, x.q.now) == Ok(s)
    ensures IsTrue(x.saved.conditions, JobExists)
      <==> if s.isSuspended then IsTrue(x.before.conditions, JobExists) else SomeRunIsRead(s)
  {
    DecidedExistence(x.q, s, x.before.conditions, x.trail.decisionWrites, x.trail.decided.conditions);
    ExistenceIsSaved(x);
  }

  /** Jobs there are, but each is expired or on its way out. */
  ghost predicate OnlyLeavingJobs(s: State) {
    SomeRunIsRead(s) && forall j | j in s.jobs :: IsExpired(j, s.lastStop) || IsBeingDeleted(j)
  }

  /** A job stays, and no run id can be read. */
  ghost predicate OnlyUnreadableRuns(s: State) {
    HasStayingJob(s) && forall j | j in s.jobs :: !HasRun(j)
  }

  lemma ExistenceAgreesIff(s: State)
    ensures (SomeRunIsRead(s) <==> HasStayingJob(s)) <==> !OnlyLeavingJobs(s) && !OnlyUnreadableRuns(s)
  {
  }

  /** JobExists is as declared exactly when the jobs are neither all leaving nor all
      without a readable run id; for a suspended ControlledJob, when it was already. */
  lemma JobExistsAsDeclaredIff(x: Round, s: State)
    requires Reconciled(x) && DistinctNames(s.jobs) && BuildState(x.q.spec, x.q.jobs, x.q.now) == Ok(s)
    ensures (IsTrue(x.saved.conditions, JobExists) <==> HasStayingJob(s))
      <==> if s.isSuspended then IsTrue(x.before.conditions, JobExists) == HasStayingJob(s)
           else !OnlyLeavingJobs(s) && !OnlyUnreadableRuns(s)
  {
    JobExistsIs(x, s);
    ExistenceAgreesIff(s);
  }

  lemma OneLeaving(s: State, j: Job)
    requires s.jobs == [j] && HasRun(j) && IsBeingDeleted(j)
    ensures DistinctNames(s.jobs) && SomeRunIsRead(s) && !HasStayingJob(s)
  {
    assert j in s.jobs;
  }

  /** The one job is being deleted, and JobExists is true. */
  lemma LeavingJobExists(x: Round, s: State, j: Job)
    requires Reconciled(x) && BuildState(x.q.spec, x.q.jobs, x.q.now) == Ok(s) && !s.isSuspended
    requires s.jobs == [j] && HasRun(j) && IsBeingDeleted(j)
    ensures IsTrue(x.saved.conditions, JobExists) && !HasStayingJob(s)
  {
    OneLeaving(s, j);
    JobExistsIs(x, s);
  }

  // The summary

  /** As declared: a job that may be running. */
  ghost predicate SomeJobMayRun(s: State) { exists j | j in s.jobs :: IsPotentiallyRunning(j) }

  /** The reported job speaks for all: one that has not completed does; one that failed
      does if nothing runs, and one that is complete if something else does; and if
      there is none, nothing runs. */
  ghost predicate ReportSpeaks(s: State) {
    && (!SomeRunIsRead(s) ==> AllCompleted(s.jobs))
    && forall r | IsReported(s, r) && IsCompleted(r) ::
         if HasCondition(r, JobConditionType.Failed) then AllCompleted(s.jobs) else !AllCompleted(s.jobs)
  }

  lemma HealthAgreesIff(s: State)
    requires DistinctNames(s.jobs)
    ensures HasHealthyJob(s) == SomeJobMayRun(s) <==> ReportSpeaks(s)
  {
    ReportedIsBest(s);
    if MetricsJob(s).Some? {
      var m := MetricsJob(s).value;
      forall r | IsReported(s, r) ensures r == m { ReportedIsUnique(s, r, m); }
    }
  }

  /** The summary is as declared, about a job that may be running, exactly when the
      reported job speaks for all; for a suspended ControlledJob, when the verdicts
      found agree with the jobs. */
  lemma SummaryAsDeclaredIff(x: Round, s: State)
    requires Reconciled(x) && DistinctNames(x.q.jobs) && BuildState(x.q.spec, x.q.jobs, x.q.now) == Ok(s)
    ensures SummaryIs(x.saved.conditions, SomeJobMayRun(s), ExpectsJob(s))
      <==> if s.isSuspended then
             && FoundHealthy(x.before.conditions) == SomeJobMayRun(s)
             && (s.Running() || IsTrue(x.before.conditions, JobManuallyScheduled)) == ExpectsJob(s)
           else ReportSpeaks(s)
  {
    SummaryOfReconcile(x);
    HealthAgreesIff(s);
    SummaryIsUnique(x.saved.conditions, Healthy(x.q, x.before.conditions), Expected(x.q, x.before.conditions),
                    SomeJobMayRun(s), ExpectsJob(s));
  }

  lemma OneCompleted(s: State, j: Job)
    requires s.jobs == [j] && HasRun(j) && HasCondition(j, Complete) && !HasCondition(j, JobConditionType.Failed)
    ensures DistinctNames(s.jobs) && HasHealthyJob(s) && !SomeJobMayRun(s)
  {
    assert j in s.jobs && IsReported(s, j);
  }

  lemma JobsOfState(x: Round, s: State)
    requires BuildState(x.q.spec, x.q.jobs, x.q.now) == Ok(s)
    ensures s.jobs == x.q.jobs
  {
  }

  lemma SummaryOfActive(x: Round, s: State)
    requires Reconciled(x) && DistinctNames(x.q.jobs) && BuildState(x.q.spec, x.q.jobs, x.q.now) == Ok(s) && !s.isSuspended
    ensures SummaryIs(x.saved.conditions, HasHealthyJob(s), ExpectsJob(s))
  {
    SummaryOfReconcile(x);
  }

  /** Inside the run period the one job has completed, nothing may be running, and the
      summary says that the job is running expectedly. */
  lemma CompletedRunsExpectedly(x: Round, s: State, j: Job)
    requires Reconciled(x) && BuildState(x.q.spec, x.q.jobs, x.q.now) == Ok(s) && !s.isSuspended && s.Running()
    requires s.jobs == [j] && HasRun(j) && HasCondition(j, Complete) && !HasCondition(j, JobConditionType.Failed)
    ensures Has(x.saved.conditions, RunningExpectedly, True) && !SomeJobMayRun(s)
  {
    OneCompleted(s, j);
    JobsOfState(x, s);
    SummaryOfActive(x, s);
  }
}
