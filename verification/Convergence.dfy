/**
  Two rounds bring any cluster to rest: decide and act, let every deletion finish,
  decide and act again.
 */
module Convergence {
  import opened Wrappers
  import opened Calendar
  import opened JobNaming
  import opened Jobs
  import opened Decisions
  import opened CandidateOrder
  import opened DecisionEffects
  import opened Stability

  /** The jobs once every deletion under way has finished. */
  function Remaining(jobs: seq<Job>): seq<Job> {
    if jobs == [] then []
    else
      var last := jobs[|jobs| - 1];
      Remaining(jobs[..|jobs| - 1]) + if IsBeingDeleted(last) then [] else [last]
  }

  lemma {:induction false} RemainingIs(jobs: seq<Job>, j: Job)
    ensures j in Remaining(jobs) <==> j in jobs && !IsBeingDeleted(j)
  {
    if jobs != [] {
      var front, last := jobs[..|jobs| - 1], jobs[|jobs| - 1];
      RemainingIs(front, j);
      assert jobs == front + [last];
    }
  }

  lemma {:induction false} RemainingDistinct(jobs: seq<Job>)
    requires DistinctNames(jobs)
    ensures DistinctNames(Remaining(jobs))
  {
    if jobs != [] {
      var front, last := jobs[..|jobs| - 1], jobs[|jobs| - 1];
      RemainingDistinct(front);
      var kept := Remaining(front);
      forall i | 0 <= i < |kept| ensures kept[i].name != last.name {
        RemainingIs(front, kept[i]);
        var k :| 0 <= k < |front| && front[k] == kept[i];
        assert jobs[k] == front[k];
      }
    }
  }

  lemma RemainingAre(jobs: seq<Job>)
    requires DistinctNames(jobs)
    ensures forall j :: j in Remaining(jobs) <==> j in jobs && !IsBeingDeleted(j)
    ensures DistinctNames(Remaining(jobs))
  {
    forall j ensures j in Remaining(jobs) <==> j in jobs && !IsBeingDeleted(j) { RemainingIs(jobs, j); }
    RemainingDistinct(jobs);
  }

  /** What one round and the end of its deletions leave: nothing expired and nothing
      on its way out, and a job that has not completed is the one to keep. */
  ghost predicate Settling(s: State, enableRecreate: bool) {
    && DistinctNames(s.jobs)
    && (forall j | j in s.jobs :: !IsExpired(j, s.lastStop) && !IsBeingDeleted(j))
    && forall a | a in s.jobs && !IsCompleted(a) :: IsToKeep(s, a, enableRecreate)
  }

  ghost predicate IsToKeep(s: State, a: Job, enableRecreate: bool) {
    && IsBest(s.jobs, s.lastStop, s.desiredHash, a)
    && (s.Running() || IsManuallyScheduled(a)) && !MustRecreate(a, s, enableRecreate)
  }

  lemma FirstRoundSettles(spec: Spec, s: State, now: Instant, enableRecreate: bool, d: Decision, at: Instant)
    requires DistinctNames(s.jobs) && WellTimed(s) && s.desiredHash == spec.template.hash
    requires !s.isSuspended && Decide(spec, s, now, enableRecreate) == Ok(d) && NamesFree(s.jobs, d.creates)
    ensures Settling(s.(jobs := Remaining(Apply(s.jobs, d, at))), enableRecreate)
  {
    var c := Choose(spec, s, now, enableRecreate).value;
    var applied := Apply(s.jobs, d, at);
    var s' := s.(jobs := Remaining(applied));
    ChoiceFacts(spec, s, now, enableRecreate, c);
    AppliedNamesDistinct(s, c, at);
    RemainingAre(applied);
    if c.Fresh? { FreshIsNotExpired(spec, s, now, enableRecreate, c.job); }
    forall j | j in s'.jobs ensures !IsExpired(j, s.lastStop) && !IsBeingDeleted(j) {
      AppliedMembers(s.jobs, d, at, j);
      if k :| k in s.jobs && j == ApplyTo(k, d, at) { AppliedJob(s, c, k, at); }
    }
    forall a | a in s'.jobs && !IsCompleted(a) ensures IsToKeep(s', a, enableRecreate) {
      LiveIsToKeep(spec, s, now, enableRecreate, c, at, a);
    }
  }

  lemma LiveIsToKeep(spec: Spec, s: State, now: Instant, enableRecreate: bool, c: Choice, at: Instant, a: Job)
    requires DistinctNames(s.jobs) && WellTimed(s) && s.desiredHash == spec.template.hash
    requires Choose(spec, s, now, enableRecreate) == Ok(c)
    requires NamesFree(s.jobs, Finish(s, c).creates) && a in Apply(s.jobs, Finish(s, c), at) && IsLive(a)
    ensures IsToKeep(s.(jobs := Remaining(Apply(s.jobs, Finish(s, c), at))), a, enableRecreate)
  {
    var applied := Apply(s.jobs, Finish(s, c), at);
    AppliedNamesDistinct(s, c, at);
    RemainingAre(applied);
    ChoiceFacts(spec, s, now, enableRecreate, c);
    LiveIsChosen(s, c, a, at);
    if c.Fresh? {
      FreshIsBest(spec, s, now, enableRecreate, c, at);
    } else {
      KeptStaysBest(s, c, at);
      KeptIsSettled(s, c, at, enableRecreate);
    }
  }

  /** Nothing remains inside the run period, and a job can no longer be started: the
      start is not known, or the deadline has passed. */
  predicate CannotStart(spec: Spec, s: State, now: Instant) {
    s.Running() && s.jobs == [] && (s.start == None || DeadlineExceeded(spec, s.start, now))
  }

  /** The second choice fails exactly when a job has to be started and cannot be. */
  lemma SecondChoice(spec: Spec, s: State, now: Instant, enableRecreate: bool)
    requires Settling(s, enableRecreate)
    ensures match Choose(spec, s, now, enableRecreate)
      case Err(_) => CannotStart(spec, s, now)
      case Ok(Nobody) => !s.Running() && AllCompleted(s.jobs)
      case Ok(Existing(i)) =>
        i < |s.jobs| && forall a | a in s.jobs && !IsCompleted(a) :: a == s.jobs[i] && IsToKeep(s, a, enableRecreate)
      case Ok(Fresh(f)) => s.jobs == [] && f.conditions == [] && s.Running() && !CannotStart(spec, s, now)
  {
    assert s.jobs != [] ==> s.jobs[0] in s.jobs;
    BestIsGreatest(s.jobs, s.lastStop, s.desiredHash);
    var best := BestIndex(s.jobs, s.lastStop, s.desiredHash, |s.jobs|);
    if best.Some? {
      forall a | a in s.jobs && !IsCompleted(a) ensures a == s.jobs[best.value] {
        BestIsUnique(s.jobs, s.lastStop, s.desiredHash, a, s.jobs[best.value]);
      }
    }
  }

  /** At rest: no job is expired, at most one has not completed, there is one inside
      the run period, and the one that has not completed may run: it stays, it is not
      suspended unless by the user, and outside the run period it was started by hand. */
  ghost predicate AtRest(s: State, jobs: seq<Job>) {
    && (forall j | j in jobs :: !IsExpired(j, s.lastStop))
    && (forall a, b | a in jobs && b in jobs && !IsCompleted(a) && !IsCompleted(b) :: a == b)
    && (s.Running() ==> jobs != [])
    && forall a | a in jobs && !IsCompleted(a) :: MayRun(s, a)
  }

  predicate MayRun(s: State, a: Job) {
    && !IsBeingDeleted(a) && (IsSuspended(a) ==> WasStoppedByTheUser(a))
    && (s.Running() || IsManuallyScheduled(a))
  }

  lemma KeptMayRun(s: State, c: Choice, enableRecreate: bool, at: Instant)
    requires Settling(s, enableRecreate) && c.Existing? && c.i < |s.jobs| && !IsCompleted(s.jobs[c.i])
    ensures MayRun(s, ApplyTo(s.jobs[c.i], Finish(s, c), at))
  {
    var a := s.jobs[c.i];
    assert IsToKeep(s, a, enableRecreate);
    AppliedJob(s, c, a, at);
    forall k | k in s.jobs && k != a ensures IsCompleted(k) {
      if !IsCompleted(k) { BestIsUnique(s.jobs, s.lastStop, s.desiredHash, a, k); }
    }
    assert OnlyOne(s.jobs, a);
    MayUnsuspendIff(s, c);
  }

  lemma FreshMayRun(spec: Spec, s: State, now: Instant, enableRecreate: bool, c: Choice)
    requires s.jobs == [] && s.Running() && c.Fresh? && Choose(spec, s, now, enableRecreate) == Ok(c)
    ensures MayRun(s, Finish(s, c).creates[0])
  {
    ChoiceFacts(spec, s, now, enableRecreate, c);
    MayUnsuspendIff(s, c);
  }

  /** The second decision succeeds unless a job cannot be started, and then leaves
      the cluster at rest. */
  lemma SecondRoundRests(spec: Spec, s: State, now: Instant, enableRecreate: bool, at: Instant)
    requires Settling(s, enableRecreate) && WellTimed(s) && !s.isSuspended
    ensures var r := Decide(spec, s, now, enableRecreate);
      && (r.Ok? <==> !CannotStart(spec, s, now))
      && (r.Ok? ==> NamesFree(s.jobs, r.value.creates) && AtRest(s, Apply(s.jobs, r.value, at)))
  {
    SecondChoice(spec, s, now, enableRecreate);
    match Choose(spec, s, now, enableRecreate)
    case Err(_) =>
    case Ok(c) =>
      if c.Fresh? {
        FreshIsNotExpired(spec, s, now, enableRecreate, c.job);
        FreshMayRun(spec, s, now, enableRecreate, c);
      } else {
        KeptRests(s, c, enableRecreate, at);
      }
  }

  lemma KeptRests(s: State, c: Choice, enableRecreate: bool, at: Instant)
    requires Settling(s, enableRecreate) && !c.Fresh? && (c.Existing? ==> c.i < |s.jobs|)
    requires forall a | a in s.jobs && !IsCompleted(a) :: c.Existing? && a == s.jobs[c.i]
    requires s.Running() ==> c.Existing?
    ensures AtRest(s, Apply(s.jobs, Finish(s, c), at))
  {
    var d := Finish(s, c);
    forall j | j in Apply(s.jobs, d, at)
      ensures !IsExpired(j, s.lastStop)
      ensures !IsCompleted(j) ==> c.Existing? && j == ApplyTo(s.jobs[c.i], d, at) && MayRun(s, j)
    {
      AppliedMembers(s.jobs, d, at, j);
      var k :| k in s.jobs && j == ApplyTo(k, d, at);
      AppliedJob(s, c, k, at);
      if !IsCompleted(k) { KeptMayRun(s, c, enableRecreate, at); }
    }
  }

  /** With something left to keep there are no second thoughts. */
  lemma NoSecondThoughts(s: State, enableRecreate: bool)
    requires Settling(s, enableRecreate)
    ensures !SecondThoughts(s)
  {
    if SecondThoughts(s) {
      RunningJobs(s.jobs);
      var a :| OnlyOne(s.jobs, a);
      assert IsToKeep(s, a, enableRecreate);
      GreatestIsBest(s.jobs, s.lastStop, s.desiredHash, a);
    }
  }

  /** From any cluster with a successful first decision, the second one fails exactly
      when nothing remains and a job cannot be started; otherwise it leaves the
      cluster at rest, and a third does nothing. */
  lemma TwoRoundsConverge(spec: Spec, s: State, t1: Instant, t2: Instant, t3: Instant, enableRecreate: bool, d: Decision,
                          at1: Instant, at2: Instant)
    requires DistinctNames(s.jobs) && WellTimed(s) && s.desiredHash == spec.template.hash && !s.isSuspended
    requires Decide(spec, s, t1, enableRecreate) == Ok(d) && NamesFree(s.jobs, d.creates)
    ensures
      var s2 := s.(jobs := Remaining(Apply(s.jobs, d, at1)));
      var r := Decide(spec, s2, t2, enableRecreate);
      && (r.Ok? <==> !CannotStart(spec, s2, t2))
      && (r.Ok? ==>
        && AtRest(s, Apply(s2.jobs, r.value, at2))
        && DoesNothing(Decide(spec, s.(jobs := Apply(s2.jobs, r.value, at2)), t3, enableRecreate), s))
  {
    var s2 := s.(jobs := Remaining(Apply(s.jobs, d, at1)));
    FirstRoundSettles(spec, s, t1, enableRecreate, d, at1);
    SecondRoundRests(spec, s2, t2, enableRecreate, at2);
    match Decide(spec, s2, t2, enableRecreate)
    case Err(_) =>
    case Ok(d2) =>
      NoSecondThoughts(s2, enableRecreate);
      DecisionsAreStable(spec, s2, t2, enableRecreate, d2, at2, t3);
  }

  /** The clusters that the operator makes by itself: its jobs are named by their
      annotations and the run ids are in range, so no name is in the way. */
  lemma OwnClustersConverge(spec: Spec, s: State, t1: Instant, t2: Instant, t3: Instant, enableRecreate: bool, d: Decision,
                            at1: Instant, at2: Instant)
    requires DistinctNames(s.jobs) && WellTimed(s) && s.desiredHash == spec.template.hash && !s.isSuspended
    requires Decide(spec, s, t1, enableRecreate) == Ok(d)
    requires AllSelfNamed(spec, s.jobs) && MaxRunId(s.jobs, |s.jobs|) < MAX_INT64
    ensures
      var s2 := s.(jobs := Remaining(Apply(s.jobs, d, at1)));
      var r := Decide(spec, s2, t2, enableRecreate);
      && (r.Ok? <==> !CannotStart(spec, s2, t2))
      && (r.Ok? ==>
        && AtRest(s, Apply(s2.jobs, r.value, at2))
        && DoesNothing(Decide(spec, s.(jobs := Apply(s2.jobs, r.value, at2)), t3, enableRecreate), s))
  {
    NamesFreeIff(spec, s, t1, enableRecreate, d);
    TwoRoundsConverge(spec, s, t1, t2, t3, enableRecreate, d, at1, at2);
  }
}
