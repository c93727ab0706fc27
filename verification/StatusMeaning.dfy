/**
  What the saved status tells: the conditions written one after the other by the
  decision, the calls and the summary add up to a statement about the cluster.
 */
module StatusMeaning {
  import opened Wrappers
  import opened Calendar
  import opened Jobs
  import opened Conditions
  import opened Decisions
  import opened CandidateOrder
  import opened ControlledJobs
  import opened DecisionStatus
  import opened OverallConditions
  import opened Reconciling
  import opened Failures
  import opened CallConditions

  // The reported job

  predicate HasRun(j: Job) { j.annotations.runId.Reads? }

  /** The job the conditions describe: the best of those with a readable run id. */
  ghost predicate IsReported(s: State, r: Job) {
    && r in s.jobs && HasRun(r)
    && forall j | j in s.jobs && HasRun(j) && j != r :: IsBetter(r, j, s.desiredHash)
  }

  lemma {:induction false} NoneBeatsReported(jobs: seq<Job>, hash: string, n: nat)
    requires n <= |jobs|
    ensures match MetricsIndex(jobs, hash, n)
      case None => forall i | 0 <= i < n :: !HasRun(jobs[i])
      case Some(r) => HasRun(jobs[r]) && forall i | 0 <= i < n && HasRun(jobs[i]) :: !IsBetter(jobs[i], jobs[r], hash)
  {
    if n > 0 {
      NoneBeatsReported(jobs, hash, n - 1);
      var best, j := MetricsIndex(jobs, hash, n - 1), jobs[n - 1];
      BetterIsAsymmetric(j, j, hash);
      if best.Some? && IsBetter(j, jobs[best.value], hash) {
        forall i | 0 <= i < n - 1 && HasRun(jobs[i]) ensures !IsBetter(jobs[i], j, hash) {
          if IsBetter(jobs[i], j, hash) { BetterIsTransitive(jobs[i], j, jobs[best.value], hash); }
        }
      }
    }
  }

  /** The loop reports the best job with a readable run id, and none only when no run
      id can be read. */
  lemma ReportedIsBest(s: State)
    requires DistinctNames(s.jobs)
    ensures match MetricsJob(s)
      case None => forall j | j in s.jobs :: !HasRun(j)
      case Some(r) => IsReported(s, r)
  {
    NoneBeatsReported(s.jobs, s.desiredHash, |s.jobs|);
    var best := MetricsIndex(s.jobs, s.desiredHash, |s.jobs|);
    if best.Some? {
      var r := s.jobs[best.value];
      forall j | j in s.jobs && HasRun(j) && j != r ensures IsBetter(r, j, s.desiredHash) {
        var i :| 0 <= i < |s.jobs| && s.jobs[i] == j;
        BetterIsAsymmetric(r, j, s.desiredHash);
      }
    }
  }

  lemma ReportedIsUnique(s: State, a: Job, b: Job)
    requires IsReported(s, a) && IsReported(s, b)
    ensures a == b
  {
    if a != b { BetterIsAsymmetric(a, b, s.desiredHash); }
  }

  // The flags after the decision

  /** A written condition is true exactly when it was written so. */
  lemma WrittenTruth(before: seq<Condition>, generation: int, writes: seq<Write>, after: seq<Condition>,
                     expected: seq<Write>, k: nat)
    requires Wrote(before, generation, writes, after, expected) && EachTypeOnce(expected) && k < |expected|
    ensures IsTrue(after, expected[k].ctype) <==> expected[k].status == True
  {
    WroteSettles(before, generation, writes, after, expected, k);
  }

  /** Where a decision writes the four flags of the summary. */
  lemma FlagPositions(spec: Spec, s: State, now: Instant, enableRecreate: bool)
    requires !s.isSuspended
    ensures var w := DecisionWrites(spec, s, now, enableRecreate);
      && |w| >= 10 && w[0] == ShouldBeRunningWrite(s) && w[2] == AllJobsWrites(s.jobs)[0]
      && w[4] == JobWrites(MetricsJob(s))[0] && w[7] == JobWrites(MetricsJob(s))[3]
  {
  }

  /** What the cluster says of the four flags. */
  ghost predicate FlagsTell(s: State, conditions: seq<Condition>) {
    && (IsTrue(conditions, JobExists) <==> MetricsJob(s).Some?)
    && (IsTrue(conditions, JobFailed) <==>
          MetricsJob(s).Some? && HasCondition(MetricsJob(s).value, JobConditionType.Failed))
    && (IsTrue(conditions, ConditionType.ShouldBeRunning) <==> s.Running())
    && (IsTrue(conditions, JobManuallyScheduled) <==> exists j | j in s.jobs :: IsManuallyScheduled(j))
  }

  /** The writes of the four flags are true when the cluster says so. */
  lemma FlagWrites(s: State)
    ensures var w := ShouldBeRunningWrite(s);
      w.ctype == ConditionType.ShouldBeRunning && (w.status == True <==> s.Running())
    ensures var w := AllJobsWrites(s.jobs)[0];
      w.ctype == JobManuallyScheduled && (w.status == True <==> exists j | j in s.jobs :: IsManuallyScheduled(j))
    ensures var w := JobWrites(MetricsJob(s))[0];
      w.ctype == JobExists && (w.status == True <==> MetricsJob(s).Some?)
    ensures var w := JobWrites(MetricsJob(s))[3];
      w.ctype == JobFailed && (w.status == True <==>
        MetricsJob(s).Some? && HasCondition(MetricsJob(s).value, JobConditionType.Failed))
  {
  }

  lemma FourTruths(before: seq<Condition>, generation: int, writes: seq<Write>, after: seq<Condition>,
                   expected: seq<Write>, i: nat, j: nat, k: nat, l: nat)
    requires Wrote(before, generation, writes, after, expected) && EachTypeOnce(expected)
    requires i < |expected| && j < |expected| && k < |expected| && l < |expected|
    ensures IsTrue(after, expected[i].ctype) <==> expected[i].status == True
    ensures IsTrue(after, expected[j].ctype) <==> expected[j].status == True
    ensures IsTrue(after, expected[k].ctype) <==> expected[k].status == True
    ensures IsTrue(after, expected[l].ctype) <==> expected[l].status == True
  {
    WrittenTruth(before, generation, writes, after, expected, i);
    WrittenTruth(before, generation, writes, after, expected, j);
    WrittenTruth(before, generation, writes, after, expected, k);
    WrittenTruth(before, generation, writes, after, expected, l);
  }

  lemma DecisionTells(spec: Spec, s: State, now: Instant, enableRecreate: bool, before: seq<Condition>, generation: int,
                      writes: seq<Write>, after: seq<Condition>)
    requires !s.isSuspended
    requires Wrote(before, generation, writes, after, DecisionWrites(spec, s, now, enableRecreate))
    ensures FlagsTell(s, after)
  {
    var expected := DecisionWrites(spec, s, now, enableRecreate);
    DecisionWritesRanked(spec, s, now, enableRecreate);
    RankedIsOnce(expected, 0, 12);
    FlagPositions(spec, s, now, enableRecreate);
    FourTruths(before, generation, writes, after, expected, 0, 2, 4, 7);
    FlagWrites(s);
  }

  // The summary

  /** The reported job exists and has not failed. */
  ghost predicate HasHealthyJob(s: State) {
    exists r :: IsReported(s, r) && !HasCondition(r, JobConditionType.Failed)
  }

  ghost predicate ExpectsJob(s: State) {
    s.Running() || exists j | j in s.jobs :: IsManuallyScheduled(j)
  }

  /** The same two verdicts, as the conditions found in the status have them. */
  predicate FoundHealthy(conditions: seq<Condition>) { IsTrue(conditions, JobExists) && !IsTrue(conditions, JobFailed) }

  predicate FoundExpected(conditions: seq<Condition>) {
    IsTrue(conditions, ConditionType.ShouldBeRunning) || IsTrue(conditions, JobManuallyScheduled)
  }

  /** The one of the four conditions that is true is the one for these verdicts. */
  ghost predicate SummaryIs(conditions: seq<Condition>, healthy: bool, expected: bool) {
    && Has(conditions, RunningExpectedly, TrueIf(healthy && expected))
    && Has(conditions, RunningUnexpectedly, TrueIf(healthy && !expected))
    && Has(conditions, NotRunningExpectedly, TrueIf(!healthy && !expected))
    && Has(conditions, NotRunningUnexpectedly, TrueIf(!healthy && expected))
  }

  lemma HealthIsReported(s: State)
    requires DistinctNames(s.jobs)
    ensures HasHealthyJob(s) <==> MetricsJob(s).Some? && !HasCondition(MetricsJob(s).value, JobConditionType.Failed)
  {
    ReportedIsBest(s);
    if r :| IsReported(s, r) && !HasCondition(r, JobConditionType.Failed) {
      ReportedIsUnique(s, r, MetricsJob(s).value);
    }
  }

  lemma FlagsGiveVerdicts(s: State, conditions: seq<Condition>)
    requires DistinctNames(s.jobs) && FlagsTell(s, conditions)
    ensures FoundHealthy(conditions) == HasHealthyJob(s) && FoundExpected(conditions) == ExpectsJob(s)
  {
    HealthIsReported(s);
  }

  /** What a suspended ControlledJob's decision leaves of the verdicts: the jobs are
      not looked at, so all but the schedule is as it was found. */
  ghost predicate FlagsStay(before: seq<Condition>, running: bool, after: seq<Condition>) {
    && FoundHealthy(after) == FoundHealthy(before)
    && FoundExpected(after) == (running || IsTrue(before, JobManuallyScheduled))
  }

  lemma SuspendedStays(spec: Spec, s: State, now: Instant, enableRecreate: bool, before: seq<Condition>, generation: int,
                       writes: seq<Write>, after: seq<Condition>)
    requires s.isSuspended
    requires Wrote(before, generation, writes, after, DecisionWrites(spec, s, now, enableRecreate))
    ensures FlagsStay(before, s.Running(), after)
  {
    var expected := DecisionWrites(spec, s, now, enableRecreate);
    assert |writes| == 2 && writes[0].(at := 0) == expected[0].(at := 0) && writes[1].(at := 0) == expected[1].(at := 0);
    assert writes[0].ctype == ConditionType.ShouldBeRunning && writes[1].ctype == Suspended;
    PutAllUntouched(before, generation, writes, JobExists);
    PutAllUntouched(before, generation, writes, JobFailed);
    PutAllUntouched(before, generation, writes, JobManuallyScheduled);
    DecisionWritesRanked(spec, s, now, enableRecreate);
    RankedIsOnce(expected, 0, 12);
    WrittenTruth(before, generation, writes, after, expected, 0);
  }

  lemma SameVerdicts(a: seq<Condition>, b: seq<Condition>)
    requires SameFor(a, b, JobExists) && SameFor(a, b, JobFailed)
    requires SameFor(a, b, ConditionType.ShouldBeRunning) && SameFor(a, b, JobManuallyScheduled)
    ensures FoundHealthy(b) == FoundHealthy(a) && FoundExpected(b) == FoundExpected(a)
  {
  }

  lemma DecidedVerdicts(q: Request, before: seq<Condition>, writes: seq<Write>, after: seq<Condition>)
    requires Wrote(before, q.generation, writes, after, ExpectedWrites(q)) && DistinctNames(q.jobs)
    ensures FoundHealthy(after) == Healthy(q, before) && FoundExpected(after) == Expected(q, before)
  {
    match BuildState(q.spec, q.jobs, q.now)
    case Err(_) =>
    case Ok(s) =>
      if s.isSuspended {
        SuspendedStays(q.spec, s, q.now, q.enableRecreate, before, q.generation, writes, after);
      } else {
        DecisionTells(q.spec, s, q.now, q.enableRecreate, before, q.generation, writes, after);
        FlagsGiveVerdicts(s, after);
      }
  }

  /** The verdicts of a reconcile: those found when the schedule cannot be read, those
      found but for the schedule when the ControlledJob is suspended, and otherwise
      those of the jobs listed. */
  ghost predicate Healthy(q: Request, before: seq<Condition>) {
    match BuildState(q.spec, q.jobs, q.now)
    case Err(_) => FoundHealthy(before)
    case Ok(s) => if s.isSuspended then FoundHealthy(before) else HasHealthyJob(s)
  }

  ghost predicate Expected(q: Request, before: seq<Condition>) {
    match BuildState(q.spec, q.jobs, q.now)
    case Err(_) => FoundExpected(before)
    case Ok(s) => if s.isSuspended then s.Running() || IsTrue(before, JobManuallyScheduled) else ExpectsJob(s)
  }

  lemma CallsKeepVerdicts(before: seq<Condition>, generation: int, writes: seq<Write>, after: seq<Condition>,
                          plan: seq<Call>, reply: nat -> Option<string>, from: nat)
    requires Wrote(before, generation, writes, after, CallWrites(plan, reply, from))
    ensures FoundHealthy(after) == FoundHealthy(before) && FoundExpected(after) == FoundExpected(before)
  {
    OtherCallsKeep(before, generation, writes, after, plan, reply, from, JobExists);
    OtherCallsKeep(before, generation, writes, after, plan, reply, from, JobFailed);
    OtherCallsKeep(before, generation, writes, after, plan, reply, from, ConditionType.ShouldBeRunning);
    OtherCallsKeep(before, generation, writes, after, plan, reply, from, JobManuallyScheduled);
    SameVerdicts(before, after);
  }

  lemma ActsKeepVerdicts(x: Round)
    requires Passed(x)
    ensures FoundHealthy(x.trail.acted.conditions) == FoundHealthy(x.trail.decided.conditions)
    ensures FoundExpected(x.trail.acted.conditions) == FoundExpected(x.trail.decided.conditions)
  {
    CallsKeepVerdicts(x.trail.decided.conditions, x.q.generation, x.trail.callWrites, x.trail.acted.conditions,
                      x.trail.plan, x.reply, |x.start|);
  }

  lemma SummaryOfPass(x: Round, healthy: bool, expected: bool)
    requires Passed(x)
    requires FoundHealthy(x.trail.decided.conditions) == healthy && FoundExpected(x.trail.decided.conditions) == expected
    ensures SummaryIs(x.saved.conditions, healthy, expected)
    ensures FoundHealthy(x.saved.conditions) == healthy && FoundExpected(x.saved.conditions) == expected
  {
    ActsKeepVerdicts(x);
    SummaryOfActs(x.trail.acted.conditions, x.q.generation, x.trail.overallWrites, x.saved.conditions, x.trail.failure);
  }

  /** After any reconcile, whatever calls it sent and however they went, the summary
      is the one for those verdicts. */
  lemma SummaryOfReconcile(x: Round)
    requires Reconciled(x) && DistinctNames(x.q.jobs)
    ensures SummaryIs(x.saved.conditions, Healthy(x.q, x.before.conditions), Expected(x.q, x.before.conditions))
    ensures FoundHealthy(x.saved.conditions) == Healthy(x.q, x.before.conditions)
    ensures FoundExpected(x.saved.conditions) == Expected(x.q, x.before.conditions)
  {
    DecidedVerdicts(x.q, x.before.conditions, x.trail.decisionWrites, x.trail.decided.conditions);
    SummaryOfPass(x, Healthy(x.q, x.before.conditions), Expected(x.q, x.before.conditions));
  }

  lemma SummaryOfActs(acted: seq<Condition>, generation: int, writes: seq<Write>, saved: seq<Condition>, failure: Option<Failure>)
    requires Wrote(acted, generation, writes, saved, OverallWrites(acted, failure))
    ensures SummaryIs(saved, FoundHealthy(acted), FoundExpected(acted))
    ensures FoundHealthy(saved) == FoundHealthy(acted) && FoundExpected(saved) == FoundExpected(acted)
  {
    SummarySelectsOne(acted, generation, writes, saved, failure);
    assert !IsSummary(JobExists) && !IsSummary(JobFailed);
    assert !IsSummary(ConditionType.ShouldBeRunning) && !IsSummary(JobManuallyScheduled);
  }

  lemma SummaryIsUnique(conditions: seq<Condition>, healthy: bool, expected: bool, healthy': bool, expected': bool)
    requires SummaryIs(conditions, healthy, expected)
    ensures SummaryIs(conditions, healthy', expected') <==> healthy == healthy' && expected == expected'
  {
  }

  /** The summary is about the jobs that were listed exactly when the ControlledJob is
      not suspended, or the verdicts that were found agree with those jobs. */
  lemma SummaryTellsClusterIff(x: Round, s: State)
    requires Reconciled(x) && DistinctNames(x.q.jobs) && BuildState(x.q.spec, x.q.jobs, x.q.now) == Ok(s)
    ensures SummaryIs(x.saved.conditions, HasHealthyJob(s), ExpectsJob(s)) <==>
      || !s.isSuspended
      || (&& FoundHealthy(x.before.conditions) == HasHealthyJob(s)
          && (s.Running() || IsTrue(x.before.conditions, JobManuallyScheduled)) == ExpectsJob(s))
  {
    SummaryOfReconcile(x);
    SummaryIsUnique(x.saved.conditions, Healthy(x.q, x.before.conditions), Expected(x.q, x.before.conditions),
                    HasHealthyJob(s), ExpectsJob(s));
  }

  // Out of date, and too late to start

  /** The job that would be kept: the best current one, if it should run or was
      scheduled by hand. */
  ghost predicate IsKeptCandidate(s: State, b: Job) {
    IsBest(s.jobs, s.lastStop, s.desiredHash, b) && (s.Running() || IsManuallyScheduled(b))
  }

  /** It is out of date and stays so, because it is not replaced. */
  ghost predicate StaysOutOfDate(s: State, enableRecreate: bool) {
    exists b :: IsKeptCandidate(s, b) && IsOutOfDate(b, s.desiredHash) && !MustRecreate(b, s, enableRecreate)
  }

  /** It must be replaced, and its scheduled time cannot be read. */
  ghost predicate CannotReplace(s: State, enableRecreate: bool) {
    exists b :: IsKeptCandidate(s, b) && MustRecreate(b, s, enableRecreate) && !b.annotations.scheduledAt.Reads?
  }

  /** True past the deadline for a job that is missing, false before it, and unknown
      when none is. */
  ghost function DeadlineStatus(spec: Spec, s: State, now: Instant): ConditionStatus {
    if s.Running() && !HasCurrentJob(s) then
      if Decisions.DeadlineExceeded(spec, s.start, now) then True else False
    else Unknown
  }

  lemma CandidateIs(s: State)
    requires DistinctNames(s.jobs)
    ensures match Candidate(s)
      case None => (forall b :: !IsKeptCandidate(s, b)) && (s.Running() ==> !HasCurrentJob(s))
      case Some(i) => IsKeptCandidate(s, s.jobs[i]) && HasCurrentJob(s) && forall b | IsKeptCandidate(s, b) :: b == s.jobs[i]
  {
    BestIsGreatest(s.jobs, s.lastStop, s.desiredHash);
    forall b | IsKeptCandidate(s, b) ensures Candidate(s).Some? && b == s.jobs[Candidate(s).value] {
      GreatestIsBest(s.jobs, s.lastStop, s.desiredHash, b);
    }
  }

  /** The two writes about the choice, in terms of the jobs. */
  lemma ChoiceWritesTell(spec: Spec, s: State, now: Instant, enableRecreate: bool)
    requires DistinctNames(s.jobs)
    ensures Choose(spec, s, now, enableRecreate) == Err(CannotBuildJob) <==> CannotReplace(s, enableRecreate)
    ensures OutOfDateWrite(s, enableRecreate).status == (if StaysOutOfDate(s, enableRecreate) then True else False)
    ensures DeadlineWrite(spec, s, now).status == DeadlineStatus(spec, s, now)
  {
    CandidateIs(s);
  }

  lemma ChoicePositions(spec: Spec, s: State, now: Instant, enableRecreate: bool)
    requires !s.isSuspended && Choose(spec, s, now, enableRecreate) != Err(CannotBuildJob)
    ensures var w := DecisionWrites(spec, s, now, enableRecreate);
      |w| == 12 && w[10] == OutOfDateWrite(s, enableRecreate) && w[11] == DeadlineWrite(spec, s, now)
  {
  }

  /** Without a choice, neither condition is written. */
  lemma NoChoiceNoWrite(spec: Spec, s: State, now: Instant, enableRecreate: bool, i: nat)
    requires s.isSuspended || Choose(spec, s, now, enableRecreate) == Err(CannotBuildJob)
    requires i < |DecisionWrites(spec, s, now, enableRecreate)|
    ensures Rank(DecisionWrites(spec, s, now, enableRecreate)[i].ctype) < 10
  {
    JobWritesRanked(MetricsJob(s));
    AllJobsWritesRanked(s.jobs);
    FirstWritesRanked(s, s.isSuspended);
  }

  /** The two conditions, or, for a suspended ControlledJob and when the job cannot be
      replaced, those there were. */
  ghost predicate ChoiceTold(told: bool, outOfDate: bool, deadline: ConditionStatus, before: seq<Condition>, after: seq<Condition>) {
    if told then
      Has(after, OutOfDate, if outOfDate then True else False) && Has(after, ConditionType.StartingDeadlineExceeded, deadline)
    else
      SameFor(before, after, OutOfDate) && SameFor(before, after, ConditionType.StartingDeadlineExceeded)
  }

  lemma LowRanksKeep(before: seq<Condition>, generation: int, writes: seq<Write>, after: seq<Condition>, expected: seq<Write>)
    requires Wrote(before, generation, writes, after, expected)
    requires forall i | 0 <= i < |expected| :: Rank(expected[i].ctype) < 10
    ensures SameFor(before, after, OutOfDate) && SameFor(before, after, ConditionType.StartingDeadlineExceeded)
  {
    forall i | 0 <= i < |writes| ensures Rank(writes[i].ctype) < 10 {
      assert writes[i].(at := 0) == expected[i].(at := 0);
    }
    PutAllUntouched(before, generation, writes, OutOfDate);
    PutAllUntouched(before, generation, writes, ConditionType.StartingDeadlineExceeded);
  }

  lemma ChoiceNotWritten(spec: Spec, s: State, now: Instant, enableRecreate: bool, before: seq<Condition>, generation: int,
                         writes: seq<Write>, after: seq<Condition>)
    requires s.isSuspended || Choose(spec, s, now, enableRecreate) == Err(CannotBuildJob)
    requires Wrote(before, generation, writes, after, DecisionWrites(spec, s, now, enableRecreate))
    ensures SameFor(before, after, OutOfDate) && SameFor(before, after, ConditionType.StartingDeadlineExceeded)
  {
    var expected := DecisionWrites(spec, s, now, enableRecreate);
    forall i | 0 <= i < |expected| ensures Rank(expected[i].ctype) < 10 {
      NoChoiceNoWrite(spec, s, now, enableRecreate, i);
    }
    LowRanksKeep(before, generation, writes, after, expected);
  }

  lemma ChoiceWritten(spec: Spec, s: State, now: Instant, enableRecreate: bool, before: seq<Condition>, generation: int,
                      writes: seq<Write>, after: seq<Condition>)
    requires !s.isSuspended && Choose(spec, s, now, enableRecreate) != Err(CannotBuildJob)
    requires Wrote(before, generation, writes, after, DecisionWrites(spec, s, now, enableRecreate))
    ensures Has(after, OutOfDate, OutOfDateWrite(s, enableRecreate).status)
    ensures Has(after, ConditionType.StartingDeadlineExceeded, DeadlineWrite(spec, s, now).status)
  {
    var expected := DecisionWrites(spec, s, now, enableRecreate);
    ChoicePositions(spec, s, now, enableRecreate);
    DecisionWritesRanked(spec, s, now, enableRecreate);
    RankedIsOnce(expected, 0, 12);
    WroteSettles(before, generation, writes, after, expected, 10);
    WroteSettles(before, generation, writes, after, expected, 11);
    ChoiceTypes(spec, s, now, enableRecreate);
  }

  lemma ChoiceTypes(spec: Spec, s: State, now: Instant, enableRecreate: bool)
    ensures OutOfDateWrite(s, enableRecreate).ctype == OutOfDate
    ensures DeadlineWrite(spec, s, now).ctype == ConditionType.StartingDeadlineExceeded
  {
  }

  lemma DecisionOnChoice(spec: Spec, s: State, now: Instant, enableRecreate: bool, before: seq<Condition>, generation: int,
                         writes: seq<Write>, after: seq<Condition>)
    requires DistinctNames(s.jobs)
    requires Wrote(before, generation, writes, after, DecisionWrites(spec, s, now, enableRecreate))
    ensures ChoiceTold(
      !s.isSuspended && !CannotReplace(s, enableRecreate), StaysOutOfDate(s, enableRecreate),
      DeadlineStatus(spec, s, now), before, after)
  {
    ChoiceWritesTell(spec, s, now, enableRecreate);
    if s.isSuspended || Choose(spec, s, now, enableRecreate) == Err(CannotBuildJob) {
      ChoiceNotWritten(spec, s, now, enableRecreate, before, generation, writes, after);
    } else {
      ChoiceWritten(spec, s, now, enableRecreate, before, generation, writes, after);
    }
  }

  lemma ChoiceStaysTold(told: bool, outOfDate: bool, deadline: ConditionStatus,
                        before: seq<Condition>, middle: seq<Condition>, after: seq<Condition>)
    requires ChoiceTold(told, outOfDate, deadline, before, middle)
    requires SameFor(middle, after, OutOfDate) && SameFor(middle, after, ConditionType.StartingDeadlineExceeded)
    ensures ChoiceTold(told, outOfDate, deadline, before, after)
  {
  }

  lemma ChoiceConditionsStay(x: Round)
    requires Passed(x)
    ensures SameFor(x.trail.decided.conditions, x.saved.conditions, OutOfDate)
    ensures SameFor(x.trail.decided.conditions, x.saved.conditions, ConditionType.StartingDeadlineExceeded)
  {
    DecidedStays(x, OutOfDate);
    DecidedStays(x, ConditionType.StartingDeadlineExceeded);
  }

  lemma DecidedChoiceStays(x: Round, told: bool, outOfDate: bool, deadline: ConditionStatus)
    requires Passed(x) && ChoiceTold(told, outOfDate, deadline, x.before.conditions, x.trail.decided.conditions)
    ensures ChoiceTold(told, outOfDate, deadline, x.before.conditions, x.saved.conditions)
  {
    ChoiceConditionsStay(x);
    ChoiceStaysTold(told, outOfDate, deadline, x.before.conditions, x.trail.decided.conditions, x.saved.conditions);
  }

  /** The saved OutOfDate condition says whether the job that is kept is out of date
      and stays so, and StartingDeadlineExceeded whether a job is missing and may no
      longer be started. */
  lemma ChoiceTellsCluster(x: Round, s: State)
    requires Reconciled(x) && DistinctNames(s.jobs) && BuildState(x.q.spec, x.q.jobs, x.q.now) == Ok(s)
    ensures ChoiceTold(
      !s.isSuspended && !CannotReplace(s, x.q.enableRecreate), StaysOutOfDate(s, x.q.enableRecreate),
      DeadlineStatus(x.q.spec, s, x.q.now), x.before.conditions, x.saved.conditions)
  {
    DecisionOnChoice(x.q.spec, s, x.q.now, x.q.enableRecreate, x.before.conditions, x.q.generation,
                     x.trail.decisionWrites, x.trail.decided.conditions);
    DecidedChoiceStays(x, !s.isSuspended && !CannotReplace(s, x.q.enableRecreate), StaysOutOfDate(s, x.q.enableRecreate),
                       DeadlineStatus(x.q.spec, s, x.q.now));
  }

  // The other fields

  lemma {:induction false} ActiveAre(jobs: seq<Job>, n: nat, name: string)
    requires n <= |jobs|
    ensures name in ActiveNames(jobs, n) <==> exists i :: 0 <= i < n && !IsCompleted(jobs[i]) && jobs[i].name == name
  {
    if n > 0 { ActiveAre(jobs, n - 1, name); }
  }

  ghost predicate BestIsManual(s: State) {
    exists b :: IsBest(s.jobs, s.lastStop, s.desiredHash, b) && IsManuallyScheduled(b)
  }

  ghost predicate HasCurrentJob(s: State) {
    exists j | j in s.jobs :: !IsExpired(j, s.lastStop)
  }

  /** A decision that succeeds ends up with a job chosen exactly when one should run,
      or the best current job was scheduled by hand; one that fails, exactly when
      there is a current job. */
  lemma ChosenIff(spec: Spec, s: State, now: Instant, enableRecreate: bool)
    requires DistinctNames(s.jobs)
    ensures var c := Choose(spec, s, now, enableRecreate);
      EndsWithJob(c) <==> if c.Ok? then s.Running() || BestIsManual(s) else HasCurrentJob(s)
  {
    BestIsGreatest(s.jobs, s.lastStop, s.desiredHash);
    if b :| IsBest(s.jobs, s.lastStop, s.desiredHash, b) && IsManuallyScheduled(b) {
      GreatestIsBest(s.jobs, s.lastStop, s.desiredHash, b);
    }
  }

  /** What a pass leaves of the fields that are neither conditions nor history. */
  lemma FieldsAreDecided(x: Round)
    requires Passed(x)
    ensures x.saved == x.trail.decided.(conditions := x.saved.conditions, history := x.saved.history)
  {
  }

  /** The fields of the status as the decision leaves it. A suspended ControlledJob
      keeps its active list and whether a job is running, and all of them stay when the
      schedule cannot be read. */
  ghost predicate FieldsTell(q: Request, before: Status, after: Status) {
    match BuildState(q.spec, q.jobs, q.now)
    case Err(_) => after.(conditions := before.conditions, history := before.history) == before
    case Ok(s) =>
      && after.isSuspended == Some(s.isSuspended) && after.lastScheduledStartTime == s.start
      && after.shouldBeRunning == Some(s.Running())
      && (s.isSuspended ==> after.active == before.active && after.isRunning == before.isRunning)
      && (!s.isSuspended ==>
        && after.active == ActiveNames(s.jobs, |s.jobs|)
        && after.isRunning == Some(if q.Decision().Ok? then s.Running() || BestIsManual(s) else HasCurrentJob(s)))
  }

  lemma DecidedFields(q: Request, before: Status, conditions: seq<Condition>)
    requires DistinctNames(q.jobs)
    ensures FieldsTell(q, before, StatusDecided(q, before, conditions))
  {
    match BuildState(q.spec, q.jobs, q.now)
    case Err(_) =>
    case Ok(s) =>
      if !s.isSuspended { ChosenIff(q.spec, s, q.now, q.enableRecreate); }
  }

  /** The other fields of the saved status, after any reconcile. */
  lemma FieldsTellCluster(x: Round)
    requires Reconciled(x) && DistinctNames(x.q.jobs)
    ensures FieldsTell(x.q, x.before, x.saved)
  {
    DecidedFields(x.q, x.before, x.trail.decided.conditions);
    FieldsAreDecided(x);
  }

  // Suspending a ControlledJob

  /** A job runs as expected; the ControlledJob is suspended and the job goes; inside
      the run period the next reconcile lists no jobs, and still the status says that
      one is running, and running expectedly. */
  lemma SummaryGoesStale(x: Round, s: State, y: Round, s': State)
    requires Reconciled(x) && Reconciled(y) && y.before == x.saved
    requires BuildState(x.q.spec, x.q.jobs, x.q.now) == Ok(s) && BuildState(y.q.spec, y.q.jobs, y.q.now) == Ok(s')
    requires DistinctNames(x.q.jobs) && !s.isSuspended && HasHealthyJob(s)
    requires s'.isSuspended && s'.Running() && y.q.jobs == []
    ensures Has(y.saved.conditions, RunningExpectedly, True) && !HasHealthyJob(s')
    ensures y.saved.active == ActiveNames(s.jobs, |s.jobs|)
    ensures x.q.Decision().Ok? && s.Running() ==> y.saved.isRunning == Some(true)
  {
    SummaryOfReconcile(x);
    SummaryOfReconcile(y);
    FieldsTellCluster(x);
    FieldsTellCluster(y);
  }
}
