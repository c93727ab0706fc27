/**
  The list of jobs read as a set: the candidate is the greatest job in a strict
  order, the decision's lists hold exactly the jobs they should, and none of it
  depends on the order of the list.
 */
module CandidateOrder {
  import opened Wrappers
  import opened Calendar
  import opened Jobs
  import opened Decisions
  import opened Failures

  // isBetterCandidateJob is a strict order, total on distinct names

  lemma BetterIsAsymmetric(a: Job, b: Job, hash: string)
    ensures IsBetter(a, b, hash) ==> !IsBetter(b, a, hash)
    ensures a.name != b.name ==> IsBetter(a, b, hash) || IsBetter(b, a, hash)
  {
    GreaterIsTotal(a.name, b.name);
  }

  lemma BetterIsTransitive(a: Job, b: Job, c: Job, hash: string)
    requires IsBetter(a, b, hash) && IsBetter(b, c, hash)
    ensures IsBetter(a, c, hash)
  {
    if IsGreater(a.name, b.name) && IsGreater(b.name, c.name) {
      GreaterIsTransitive(a.name, b.name, c.name);
    }
  }

  /** b is the greatest of the jobs that are not expired. */
  ghost predicate IsBest(jobs: seq<Job>, lastStop: Option<Instant>, hash: string, b: Job) {
    && b in jobs && !IsExpired(b, lastStop)
    && forall j | j in jobs && !IsExpired(j, lastStop) && j != b :: IsBetter(b, j, hash)
  }

  lemma {:induction false} NoneBeatsBest(jobs: seq<Job>, lastStop: Option<Instant>, hash: string, n: nat)
    requires n <= |jobs|
    ensures match BestIndex(jobs, lastStop, hash, n)
      case None => forall i | 0 <= i < n :: IsExpired(jobs[i], lastStop)
      case Some(b) => forall i | 0 <= i < n && !IsExpired(jobs[i], lastStop) :: !IsBetter(jobs[i], jobs[b], hash)
  {
    if n > 0 {
      NoneBeatsBest(jobs, lastStop, hash, n - 1);
      var best, j := BestIndex(jobs, lastStop, hash, n - 1), jobs[n - 1];
      BetterIsAsymmetric(j, j, hash);
      if best.Some? && IsBetter(j, jobs[best.value], hash) {
        forall i | 0 <= i < n - 1 && !IsExpired(jobs[i], lastStop) ensures !IsBetter(jobs[i], j, hash) {
          if IsBetter(jobs[i], j, hash) { BetterIsTransitive(jobs[i], j, jobs[best.value], hash); }
        }
      }
    }
  }

  /** The loop finds the greatest candidate, and there is none only when every job
      is expired. */
  lemma BestIsGreatest(jobs: seq<Job>, lastStop: Option<Instant>, hash: string)
    requires DistinctNames(jobs)
    ensures match BestIndex(jobs, lastStop, hash, |jobs|)
      case None => forall j | j in jobs :: IsExpired(j, lastStop)
      case Some(b) => IsBest(jobs, lastStop, hash, jobs[b])
  {
    NoneBeatsBest(jobs, lastStop, hash, |jobs|);
    var best := BestIndex(jobs, lastStop, hash, |jobs|);
    if best.Some? {
      var b := jobs[best.value];
      forall j | j in jobs && !IsExpired(j, lastStop) && j != b ensures IsBetter(b, j, hash) {
        var i :| 0 <= i < |jobs| && jobs[i] == j;
        assert i != best.value;
        BetterIsAsymmetric(b, j, hash);
      }
    }
  }

  lemma GreatestIsBest(jobs: seq<Job>, lastStop: Option<Instant>, hash: string, b: Job)
    requires DistinctNames(jobs) && IsBest(jobs, lastStop, hash, b)
    ensures var best := BestIndex(jobs, lastStop, hash, |jobs|);
      best.Some? && jobs[best.value] == b
  {
    BestIsGreatest(jobs, lastStop, hash);
    var best := BestIndex(jobs, lastStop, hash, |jobs|);
    if best.Some? && jobs[best.value] != b { BetterIsAsymmetric(b, jobs[best.value], hash); }
  }

  // The decision's lists as sets of jobs

  lemma {:induction false} ExpiredDeletesAre(jobs: seq<Job>, lastStop: Option<Instant>, n: nat, j: Job)
    requires n <= |jobs|
    ensures j in ExpiredDeletes(jobs, lastStop, n) <==>
      j in jobs[..n] && IsExpired(j, lastStop) && !IsBeingDeleted(j)
  {
    if n > 0 {
      ExpiredDeletesAre(jobs, lastStop, n - 1, j);
      assert jobs[..n] == jobs[..n - 1] + [jobs[n - 1]];
    }
  }

  lemma {:induction false} OtherDeletesAre(jobs: seq<Job>, lastStop: Option<Instant>, chosen: Option<nat>, n: nat, j: Job)
    requires n <= |jobs| && DistinctNames(jobs)
    requires chosen.Some? ==> chosen.value < |jobs|
    ensures j in OtherDeletes(jobs, lastStop, chosen, n) <==>
      && j in jobs[..n] && !IsExpired(j, lastStop) && !IsBeingDeleted(j) && !IsCompleted(j)
      && (chosen.Some? ==> j != jobs[chosen.value])
  {
    if n > 0 {
      OtherDeletesAre(jobs, lastStop, chosen, n - 1, j);
      assert jobs[..n] == jobs[..n - 1] + [jobs[n - 1]];
    }
  }

  /** The job is the one of the list that was chosen. */
  predicate IsKept(s: State, c: Choice, j: Job)
    requires c.Existing? ==> c.i < |s.jobs|
  {
    c.Existing? && s.jobs[c.i] == j
  }

  predicate ShouldGo(s: State, c: Choice, j: Job)
    requires c.Existing? ==> c.i < |s.jobs|
  {
    && !IsBeingDeleted(j)
    && (IsExpired(j, s.lastStop) || (!IsKept(s, c, j) && !IsCompleted(j)))
  }

  lemma DeletesAre(s: State, c: Choice, j: Job)
    requires DistinctNames(s.jobs) && (c.Existing? ==> c.i < |s.jobs|)
    ensures j in Finish(s, c).deletes <==> j in s.jobs && ShouldGo(s, c, j)
  {
    assert s.jobs[..|s.jobs|] == s.jobs;
    ExpiredDeletesAre(s.jobs, s.lastStop, |s.jobs|, j);
    OtherDeletesAre(s.jobs, s.lastStop, if c.Existing? then Some(c.i) else None, |s.jobs|, j);
  }

  lemma {:induction false} CountIsZero(jobs: seq<Job>, n: nat)
    requires n <= |jobs|
    ensures CountRunning(jobs, n) == 0 <==> forall i | 0 <= i < n :: IsCompleted(jobs[i])
  {
    if n > 0 { CountIsZero(jobs, n - 1); }
  }

  lemma {:induction false} CountIsOne(jobs: seq<Job>, n: nat, k: nat)
    requires k < n <= |jobs| && IsPotentiallyRunning(jobs[k])
    ensures CountRunning(jobs, n) == 1 <==> forall i | 0 <= i < n && i != k :: IsCompleted(jobs[i])
  {
    if k < n - 1 {
      CountIsOne(jobs, n - 1, k);
      CountIsZero(jobs, n - 1);
    } else {
      CountIsZero(jobs, n - 1);
    }
  }

  /** Every other job has completed. */
  ghost predicate OnlyOne(jobs: seq<Job>, j: Job) {
    j in jobs && IsPotentiallyRunning(j) && forall k | k in jobs && k != j :: IsCompleted(k)
  }

  ghost predicate AllCompleted(jobs: seq<Job>) {
    forall k | k in jobs :: IsCompleted(k)
  }

  lemma RunningJobs(jobs: seq<Job>)
    requires DistinctNames(jobs)
    ensures CountRunning(jobs, |jobs|) == 0 <==> AllCompleted(jobs)
    ensures CountRunning(jobs, |jobs|) == 1 <==> exists j :: OnlyOne(jobs, j)
  {
    CountIsZero(jobs, |jobs|);
    if j :| OnlyOne(jobs, j) {
      var k :| 0 <= k < |jobs| && jobs[k] == j;
      CountIsOne(jobs, |jobs|, k);
    }
    if CountRunning(jobs, |jobs|) == 1 {
      var k :| 0 <= k < |jobs| && !IsCompleted(jobs[k]);
      CountIsOne(jobs, |jobs|, k);
      assert OnlyOne(jobs, jobs[k]);
    }
  }

  /** Unsuspending needs every job but the chosen one to have completed, or exactly
      one job that has not when the chosen one has. */
  lemma MayUnsuspendIff(s: State, c: Choice)
    requires DistinctNames(s.jobs) && (c.Existing? ==> c.i < |s.jobs|)
    ensures MayUnsuspend(s, c) <==>
      && (match ChosenJob(s, c)
          case None => false
          case Some(j) => IsSuspended(j) && !IsBeingDeleted(j) && !WasStoppedByTheUser(j))
      && (if c.Fresh? then AllCompleted(s.jobs) else exists j :: OnlyOne(s.jobs, j))
  {
    RunningJobs(s.jobs);
  }

  // The order of the list does not matter

  ghost predicate SameJobs(a: seq<Job>, b: seq<Job>) {
    forall j :: j in a <==> j in b
  }

  lemma PermutationHasSameJobs(a: seq<Job>, b: seq<Job>)
    requires multiset(a) == multiset(b)
    ensures SameJobs(a, b)
  {
    forall j ensures j in a <==> j in b {
      assert j in a <==> j in multiset(a);
      assert j in b <==> j in multiset(b);
    }
  }

  lemma {:induction false} MaxRunIdIsGreatest(jobs: seq<Job>, n: nat)
    requires n <= |jobs|
    ensures var m := MaxRunId(jobs, n);
      && (forall i | 0 <= i < n && jobs[i].annotations.runId.Reads? :: jobs[i].annotations.runId.value <= m)
      && (m > -1 ==> exists i | 0 <= i < n :: jobs[i].annotations.runId == Reads(m))
  {
    if n > 0 { MaxRunIdIsGreatest(jobs, n - 1); }
  }

  lemma MaxRunIdOfSame(a: seq<Job>, b: seq<Job>)
    requires SameJobs(a, b)
    ensures MaxRunId(a, |a|) <= MaxRunId(b, |b|)
  {
    var m := MaxRunId(a, |a|);
    MaxRunIdIsGreatest(a, |a|);
    MaxRunIdIsGreatest(b, |b|);
    if m > -1 {
      var i :| 0 <= i < |a| && a[i].annotations.runId == Reads(m);
      assert a[i] in b;
      var k :| 0 <= k < |b| && b[k] == a[i];
    }
  }

  lemma SameCandidate(s: State, s': State)
    requires s' == s.(jobs := s'.jobs) && DistinctNames(s.jobs) && DistinctNames(s'.jobs) && SameJobs(s.jobs, s'.jobs)
    ensures Candidate(s).Some? <==> Candidate(s').Some?
    ensures Candidate(s).Some? ==> s.jobs[Candidate(s).value] == s'.jobs[Candidate(s').value]
  {
    BestIsGreatest(s.jobs, s.lastStop, s.desiredHash);
    BestIsGreatest(s'.jobs, s.lastStop, s.desiredHash);
    var best := BestIndex(s.jobs, s.lastStop, s.desiredHash, |s.jobs|);
    if best.Some? {
      assert IsBest(s'.jobs, s.lastStop, s.desiredHash, s.jobs[best.value]);
      GreatestIsBest(s'.jobs, s.lastStop, s.desiredHash, s.jobs[best.value]);
    } else {
      assert forall j | j in s'.jobs :: IsExpired(j, s.lastStop);
    }
  }

  /** The same failure, or the same creates, suspends and unsuspends and the same jobs
      to delete. */
  ghost predicate SameDecision(r: Result<Decision, Failure>, r': Result<Decision, Failure>) {
    match (r, r')
    case (Err(e), Err(e')) => e == e'
    case (Ok(d), Ok(d')) =>
      && d.creates == d'.creates && d.suspends == d'.suspends && d.unsuspends == d'.unsuspends
      && d.requeueAt == d'.requeueAt && SameJobs(d.deletes, d'.deletes)
    case _ => false
  }

  lemma SameJobsSameDecision(spec: Spec, s: State, s': State, now: Instant, enableRecreate: bool)
    requires s' == s.(jobs := s'.jobs) && SameJobs(s.jobs, s'.jobs)
    requires DistinctNames(s.jobs) && DistinctNames(s'.jobs)
    ensures SameDecision(Decide(spec, s, now, enableRecreate), Decide(spec, s', now, enableRecreate))
  {
    if !s.isSuspended {
      SameChoice(spec, s, s', now, enableRecreate);
      var c, c' := Choose(spec, s, now, enableRecreate), Choose(spec, s', now, enableRecreate);
      if c.Ok? { SameFinish(s, c.value, s', c'.value); }
    }
  }

  /** Any permutation of the list of jobs gives the same decision. */
  lemma DecisionIgnoresOrder(spec: Spec, s: State, s': State, now: Instant, enableRecreate: bool)
    requires s' == s.(jobs := s'.jobs) && multiset(s.jobs) == multiset(s'.jobs)
    requires DistinctNames(s.jobs) && DistinctNames(s'.jobs)
    ensures SameDecision(Decide(spec, s, now, enableRecreate), Decide(spec, s', now, enableRecreate))
  {
    PermutationHasSameJobs(s.jobs, s'.jobs);
    SameJobsSameDecision(spec, s, s', now, enableRecreate);
  }

  ghost predicate SameChoices(s: State, r: Result<Choice, Failure>, s': State, r': Result<Choice, Failure>)
    requires (r.Ok? && r.value.Existing? ==> r.value.i < |s.jobs|) && (r'.Ok? && r'.value.Existing? ==> r'.value.i < |s'.jobs|)
  {
    match (r, r')
    case (Err(e), Err(e')) => e == e'
    case (Ok(c), Ok(c')) => c.Fresh? == c'.Fresh? && ChosenJob(s, c) == ChosenJob(s', c')
    case _ => false
  }

  lemma SameChoiceOfCandidate(spec: Spec, s: State, s': State, now: Instant, enableRecreate: bool)
    requires s' == s.(jobs := s'.jobs) && MaxRunId(s.jobs, |s.jobs|) == MaxRunId(s'.jobs, |s'.jobs|)
    requires Candidate(s).Some? && Candidate(s').Some?
    requires s.jobs[Candidate(s).value] == s'.jobs[Candidate(s').value]
    ensures SameChoices(s, Choose(spec, s, now, enableRecreate), s', Choose(spec, s', now, enableRecreate))
  {
    var j := s.jobs[Candidate(s).value];
    assert MustRecreate(j, s, enableRecreate) == MustRecreate(j, s', enableRecreate);
  }

  lemma SameChoice(spec: Spec, s: State, s': State, now: Instant, enableRecreate: bool)
    requires s' == s.(jobs := s'.jobs) && SameJobs(s.jobs, s'.jobs)
    requires DistinctNames(s.jobs) && DistinctNames(s'.jobs)
    ensures SameChoices(s, Choose(spec, s, now, enableRecreate), s', Choose(spec, s', now, enableRecreate))
  {
    SameCandidate(s, s');
    MaxRunIdOfSame(s.jobs, s'.jobs);
    MaxRunIdOfSame(s'.jobs, s.jobs);
    if Candidate(s).Some? { SameChoiceOfCandidate(spec, s, s', now, enableRecreate); }
  }

  lemma SameFinish(s: State, c: Choice, s': State, c': Choice)
    requires s' == s.(jobs := s'.jobs) && SameJobs(s.jobs, s'.jobs)
    requires DistinctNames(s.jobs) && DistinctNames(s'.jobs)
    requires (c.Existing? ==> c.i < |s.jobs|) && (c'.Existing? ==> c'.i < |s'.jobs|)
    requires c.Fresh? == c'.Fresh? && ChosenJob(s, c) == ChosenJob(s', c')
    ensures var d, d' := Finish(s, c), Finish(s', c');
      && d.creates == d'.creates && d.unsuspends == d'.unsuspends && d.requeueAt == d'.requeueAt
      && SameJobs(d.deletes, d'.deletes)
  {
    MayUnsuspendIff(s, c);
    MayUnsuspendIff(s', c');
    assert AllCompleted(s.jobs) <==> AllCompleted(s'.jobs);
    forall j ensures OnlyOne(s.jobs, j) <==> OnlyOne(s'.jobs, j) {}
    forall j ensures j in Finish(s, c).deletes <==> j in Finish(s', c').deletes {
      DeletesAre(s, c, j);
      DeletesAre(s', c', j);
    }
  }
}
