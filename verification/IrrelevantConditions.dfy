/**
  Of the conditions that a job reports, only Complete and Failed count, and only when
  they are true: others change nothing in the decision and nothing in the status.
 */
module IrrelevantConditions {
  import opened Wrappers
  import opened Calendar
  import opened Jobs
  import opened Failures
  import opened Conditions
  import opened Decisions
  import opened ControlledJobs
  import opened DecisionStatus

  /** The same job but for its conditions, which are the same where they count. */
  ghost predicate Alike(j: Job, k: Job) {
    && k == j.(conditions := k.conditions)
    && forall c: JobCondition | c.status == True && (c.ctype == Complete || c.ctype == JobConditionType.Failed) ::
         c in j.conditions <==> c in k.conditions
  }

  ghost predicate AllAlike(a: seq<Job>, b: seq<Job>) {
    |a| == |b| && forall i | 0 <= i < |a| :: Alike(a[i], b[i])
  }

  /** Alike jobs are read alike. */
  lemma ReadAlike(j: Job, k: Job)
    requires Alike(j, k)
    ensures HasCondition(j, Complete) == HasCondition(k, Complete)
    ensures HasCondition(j, JobConditionType.Failed) == HasCondition(k, JobConditionType.Failed)
    ensures IsCompleted(j) == IsCompleted(k) && IsRunning(j) == IsRunning(k)
    ensures j.name == k.name && j.annotations == k.annotations && j.suspend == k.suspend
    ensures j.deletionTimestamp == k.deletionTimestamp && j.ready == k.ready
  {
    assert JobCondition(Complete, True) in j.conditions <==> JobCondition(Complete, True) in k.conditions;
    var failed := JobCondition(JobConditionType.Failed, True);
    assert failed in j.conditions <==> failed in k.conditions;
  }

  lemma ComparedAlike(a: seq<Job>, b: seq<Job>, i: nat, k: nat, lastStop: Option<Instant>, hash: string)
    requires AllAlike(a, b) && i < |a| && k < |a|
    ensures IsBetter(a[i], a[k], hash) == IsBetter(b[i], b[k], hash)
    ensures IsExpired(a[i], lastStop) == IsExpired(b[i], lastStop)
  {
    ReadAlike(a[i], b[i]);
    ReadAlike(a[k], b[k]);
  }

  lemma {:induction false} SameBest(a: seq<Job>, b: seq<Job>, lastStop: Option<Instant>, hash: string, n: nat)
    requires AllAlike(a, b) && n <= |a|
    ensures BestIndex(a, lastStop, hash, n) == BestIndex(b, lastStop, hash, n)
  {
    if n > 0 {
      SameBest(a, b, lastStop, hash, n - 1);
      var best := BestIndex(a, lastStop, hash, n - 1);
      ComparedAlike(a, b, n - 1, if best.Some? then best.value else 0, lastStop, hash);
    }
  }

  lemma {:induction false} SameMetrics(a: seq<Job>, b: seq<Job>, hash: string, n: nat)
    requires AllAlike(a, b) && n <= |a|
    ensures MetricsIndex(a, hash, n) == MetricsIndex(b, hash, n) && MaxRunId(a, n) == MaxRunId(b, n)
  {
    if n > 0 {
      SameMetrics(a, b, hash, n - 1);
      ReadAlike(a[n - 1], b[n - 1]);
      var best := MetricsIndex(a, hash, n - 1);
      ComparedAlike(a, b, n - 1, if best.Some? then best.value else 0, None, hash);
    }
  }

  lemma {:induction false} SameCounts(a: seq<Job>, b: seq<Job>, n: nat)
    requires AllAlike(a, b) && n <= |a|
    ensures CountRunning(a, n) == CountRunning(b, n) && ActiveNames(a, n) == ActiveNames(b, n)
  {
    if n > 0 {
      SameCounts(a, b, n - 1);
      ReadAlike(a[n - 1], b[n - 1]);
    }
  }

  lemma AlikeAppend(a: seq<Job>, b: seq<Job>, j: Job, k: Job)
    requires AllAlike(a, b) && Alike(j, k)
    ensures AllAlike(a + [j], b + [k])
  {
  }

  lemma {:induction false} AlikeDeletes(a: seq<Job>, b: seq<Job>, lastStop: Option<Instant>, chosen: Option<nat>, n: nat)
    requires AllAlike(a, b) && n <= |a|
    ensures AllAlike(ExpiredDeletes(a, lastStop, n), ExpiredDeletes(b, lastStop, n))
    ensures AllAlike(OtherDeletes(a, lastStop, chosen, n), OtherDeletes(b, lastStop, chosen, n))
  {
    if n > 0 {
      var j, k := a[n - 1], b[n - 1];
      AlikeDeletes(a, b, lastStop, chosen, n - 1);
      ReadAlike(j, k);
      AlikeAppend(ExpiredDeletes(a, lastStop, n - 1), ExpiredDeletes(b, lastStop, n - 1), j, k);
      AlikeAppend(OtherDeletes(a, lastStop, chosen, n - 1), OtherDeletes(b, lastStop, chosen, n - 1), j, k);
    }
  }

  /** The same list with conditions that count the same. */
  ghost predicate StatesAlike(s: State, s': State) {
    s' == s.(jobs := s'.jobs) && AllAlike(s.jobs, s'.jobs)
  }

  lemma SameCandidate(s: State, s': State)
    requires StatesAlike(s, s')
    ensures Candidate(s) == Candidate(s')
  {
    SameBest(s.jobs, s'.jobs, s.lastStop, s.desiredHash, |s.jobs|);
    var best := BestIndex(s.jobs, s.lastStop, s.desiredHash, |s.jobs|);
    if best.Some? { ReadAlike(s.jobs[best.value], s'.jobs[best.value]); }
  }

  lemma SameChoice(spec: Spec, s: State, s': State, now: Instant, enableRecreate: bool)
    requires StatesAlike(s, s')
    ensures Choose(spec, s, now, enableRecreate) == Choose(spec, s', now, enableRecreate)
  {
    SameCandidate(s, s');
    SameMetrics(s.jobs, s'.jobs, s.desiredHash, |s.jobs|);
    if Candidate(s).Some? { ReadAlike(s.jobs[Candidate(s).value], s'.jobs[Candidate(s).value]); }
  }

  lemma SameUnsuspend(s: State, s': State, c: Choice)
    requires StatesAlike(s, s') && (c.Existing? ==> c.i < |s.jobs|)
    ensures MayUnsuspend(s, c) == MayUnsuspend(s', c)
  {
    SameCounts(s.jobs, s'.jobs, |s.jobs|);
    if c.Existing? { ReadAlike(s.jobs[c.i], s'.jobs[c.i]); }
  }

  lemma AlikeFinish(s: State, s': State, c: Choice)
    requires StatesAlike(s, s') && (c.Existing? ==> c.i < |s.jobs|)
    ensures DecidesAlike(Ok(Finish(s, c)), Ok(Finish(s', c)))
  {
    SameUnsuspend(s, s', c);
    AlikeDeletes(s.jobs, s'.jobs, s.lastStop, if c.Existing? then Some(c.i) else None, |s.jobs|);
  }

  /** The same failure, or the same jobs created and the alike ones deleted, suspended
      and unsuspended, in the same order. */
  ghost predicate DecidesAlike(r: Result<Decision, Failure>, r': Result<Decision, Failure>) {
    match (r, r')
    case (Err(e), Err(e')) => e == e'
    case (Ok(d), Ok(d')) =>
      && d.creates == d'.creates && d.requeueAt == d'.requeueAt
      && AllAlike(d.deletes, d'.deletes) && AllAlike(d.suspends, d'.suspends) && AllAlike(d.unsuspends, d'.unsuspends)
    case _ => false
  }

  /** Conditions that do not count change nothing in the decision. */
  lemma DecisionIgnoresOthers(spec: Spec, s: State, s': State, now: Instant, enableRecreate: bool)
    requires StatesAlike(s, s')
    ensures DecidesAlike(Decide(spec, s, now, enableRecreate), Decide(spec, s', now, enableRecreate))
  {
    SameChoice(spec, s, s', now, enableRecreate);
    var c := Choose(spec, s, now, enableRecreate);
    if c.Ok? { AlikeFinish(s, s', c.value); }
  }

  lemma AlikeBack(a: seq<Job>, b: seq<Job>)
    requires AllAlike(a, b)
    ensures AllAlike(b, a)
  {
    forall i | 0 <= i < |b| ensures Alike(b[i], a[i]) { assert Alike(a[i], b[i]); }
  }

  lemma AnyJobAlike(a: seq<Job>, b: seq<Job>)
    requires AllAlike(a, b)
    ensures (exists j | j in a :: IsManuallyScheduled(j)) ==> exists j | j in b :: IsManuallyScheduled(j)
    ensures (exists j | j in a :: IsBeingDeleted(j)) ==> exists j | j in b :: IsBeingDeleted(j)
  {
    if j :| j in a && IsManuallyScheduled(j) {
      var i :| 0 <= i < |a| && a[i] == j;
      ReadAlike(a[i], b[i]);
      assert b[i] in b && IsManuallyScheduled(b[i]);
    }
    if j :| j in a && IsBeingDeleted(j) {
      var i :| 0 <= i < |a| && a[i] == j;
      ReadAlike(a[i], b[i]);
      assert b[i] in b && IsBeingDeleted(b[i]);
    }
  }

  lemma SameAnyJob(a: seq<Job>, b: seq<Job>)
    requires AllAlike(a, b)
    ensures AllJobsWrites(a) == AllJobsWrites(b)
  {
    AlikeBack(a, b);
    AnyJobAlike(a, b);
    AnyJobAlike(b, a);
  }

  lemma SameJobWrites(s: State, s': State)
    requires StatesAlike(s, s')
    ensures JobWrites(MetricsJob(s)) == JobWrites(MetricsJob(s'))
  {
    SameMetrics(s.jobs, s'.jobs, s.desiredHash, |s.jobs|);
    var i := MetricsIndex(s.jobs, s.desiredHash, |s.jobs|);
    if i.Some? { ReadAlike(s.jobs[i.value], s'.jobs[i.value]); }
  }

  lemma SameChoiceWrites(spec: Spec, s: State, s': State, now: Instant, enableRecreate: bool)
    requires StatesAlike(s, s')
    ensures ChoiceWrites(spec, s, now, enableRecreate) == ChoiceWrites(spec, s', now, enableRecreate)
  {
    SameChoice(spec, s, s', now, enableRecreate);
    SameCandidate(s, s');
    if Candidate(s).Some? { ReadAlike(s.jobs[Candidate(s).value], s'.jobs[Candidate(s).value]); }
  }

  /** Nor do they change anything that the decision leaves in the status: the active
      list, the other fields, and the conditions. */
  lemma StatusIgnoresOthers(spec: Spec, s: State, s': State, now: Instant, enableRecreate: bool, before: Status,
                            conditions: seq<Condition>)
    requires StatesAlike(s, s')
    ensures DecisionWrites(spec, s, now, enableRecreate) == DecisionWrites(spec, s', now, enableRecreate)
    ensures StatusAfterDecision(before, conditions, spec, s, now, enableRecreate)
      == StatusAfterDecision(before, conditions, spec, s', now, enableRecreate)
  {
    SameAnyJob(s.jobs, s'.jobs);
    SameJobWrites(s, s');
    SameChoiceWrites(spec, s, s', now, enableRecreate);
    SameChoice(spec, s, s', now, enableRecreate);
    SameCounts(s.jobs, s'.jobs, |s.jobs|);
  }
}
