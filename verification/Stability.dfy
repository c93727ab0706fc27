/**
  Deciding again after a decision was carried out: nothing is left to do, except in
  one family of clusters that is given exactly.
 */
module Stability {
  import opened Wrappers
  import opened Calendar
  import opened Jobs
  import opened Decisions
  import opened Failures
  import opened CandidateOrder
  import opened DecisionEffects

  // The jobs after a decision

  lemma AppliedNamesDistinct(s: State, c: Choice, at: Instant)
    requires DistinctNames(s.jobs) && (c.Existing? ==> c.i < |s.jobs|)
    requires NamesFree(s.jobs, Finish(s, c).creates)
    ensures DistinctNames(Apply(s.jobs, Finish(s, c), at))
  {
    var d := Finish(s, c);
    var applied := Apply(s.jobs, d, at);
    forall i, k | 0 <= i < k < |applied| ensures applied[i].name != applied[k].name {
      AppliedJob(s, c, s.jobs[i], at);
      if k < |s.jobs| {
        AppliedJob(s, c, s.jobs[k], at);
      } else {
        assert d.creates[0] in d.creates;
      }
    }
  }

  lemma {:induction false} SameCount(a: seq<Job>, b: seq<Job>, n: nat)
    requires n <= |a| && n <= |b| && forall i | 0 <= i < n :: a[i].conditions == b[i].conditions
    ensures CountRunning(a, n) == CountRunning(b, n)
  {
    if n > 0 { SameCount(a, b, n - 1); }
  }

  lemma AppliedCount(s: State, c: Choice, at: Instant)
    requires DistinctNames(s.jobs) && (c.Existing? ==> c.i < |s.jobs|)
    requires c.Fresh? ==> c.job.conditions == []
    ensures var applied := Apply(s.jobs, Finish(s, c), at);
      CountRunning(applied, |applied|) == CountRunning(s.jobs, |s.jobs|) + if c.Fresh? then 1 else 0
  {
    var applied := Apply(s.jobs, Finish(s, c), at);
    forall i | 0 <= i < |s.jobs| ensures s.jobs[i].conditions == applied[i].conditions {
      AppliedJob(s, c, s.jobs[i], at);
    }
    SameCount(s.jobs, applied, |s.jobs|);
  }

  // Deciding on a settled cluster

  /** A successful decision with no action, to be taken again at the next event. */
  predicate DoesNothing(r: Result<Decision, Failure>, s: State) {
    r == Ok(Decision([], [], [], [], s.nextEvent))
  }

  /** Every job that a choice of b would delete is on its way out already. */
  ghost predicate SettledOn(s: State, b: Option<Job>) {
    forall j | j in s.jobs && (IsExpired(j, s.lastStop) || (Some(j) != b && !IsCompleted(j))) :: IsBeingDeleted(j)
  }

  predicate WouldUnsuspend(s: State, b: Job) {
    && CountRunning(s.jobs, |s.jobs|) == 1
    && IsSuspended(b) && !IsBeingDeleted(b) && !WasStoppedByTheUser(b)
  }

  lemma NothingToDelete(s: State, c: Choice, b: Option<Job>)
    requires DistinctNames(s.jobs) && !c.Fresh? && (c.Existing? ==> c.i < |s.jobs|)
    requires b == ChosenJob(s, c) && SettledOn(s, b)
    ensures Finish(s, c).deletes == []
  {
    var deletes := Finish(s, c).deletes;
    if deletes != [] {
      assert deletes[0] in deletes;
      DeletesAre(s, c, deletes[0]);
    }
  }

  lemma DecideOnBest(spec: Spec, s: State, now: Instant, enableRecreate: bool, b: Job)
    requires DistinctNames(s.jobs) && !s.isSuspended && SettledOn(s, Some(b))
    requires IsBest(s.jobs, s.lastStop, s.desiredHash, b)
    requires (s.Running() || IsManuallyScheduled(b)) && !MustRecreate(b, s, enableRecreate)
    ensures Decide(spec, s, now, enableRecreate)
      == Ok(Decision([], [], [], if WouldUnsuspend(s, b) then [b] else [], s.nextEvent))
  {
    GreatestIsBest(s.jobs, s.lastStop, s.desiredHash, b);
    var i := BestIndex(s.jobs, s.lastStop, s.desiredHash, |s.jobs|).value;
    NothingToDelete(s, Existing(i), Some(b));
  }

  lemma DecideOnNobody(spec: Spec, s: State, now: Instant, enableRecreate: bool)
    requires DistinctNames(s.jobs) && !s.isSuspended && SettledOn(s, None) && !s.Running()
    requires forall b | IsBest(s.jobs, s.lastStop, s.desiredHash, b) :: !IsManuallyScheduled(b)
    ensures DoesNothing(Decide(spec, s, now, enableRecreate), s)
  {
    BestIsGreatest(s.jobs, s.lastStop, s.desiredHash);
    NothingToDelete(s, Nobody, None);
  }

  // The choice is the same again

  lemma AppliedIsSettled(s: State, c: Choice, at: Instant, b: Option<Job>)
    requires DistinctNames(s.jobs) && (c.Existing? ==> c.i < |s.jobs|)
    requires match c
      case Nobody => true
      case Existing(i) => b == Some(ApplyTo(s.jobs[i], Finish(s, c), at))
      case Fresh(_) => b == Some(Finish(s, c).creates[0]) && !IsExpired(c.job, s.lastStop)
    ensures SettledOn(s.(jobs := Apply(s.jobs, Finish(s, c), at)), b)
  {
    var d := Finish(s, c);
    forall j | j in Apply(s.jobs, d, at) && (IsExpired(j, s.lastStop) || (Some(j) != b && !IsCompleted(j)))
      ensures IsBeingDeleted(j)
    {
      AppliedMembers(s.jobs, d, at, j);
      if j !in d.creates {
        var k :| k in s.jobs && j == ApplyTo(k, d, at);
        AppliedJob(s, c, k, at);
      }
    }
  }

  lemma KeptStaysBest(s: State, c: Choice, at: Instant)
    requires DistinctNames(s.jobs) && c.Existing? && c.i < |s.jobs|
    requires IsBest(s.jobs, s.lastStop, s.desiredHash, s.jobs[c.i])
    ensures IsBest(Apply(s.jobs, Finish(s, c), at), s.lastStop, s.desiredHash, ApplyTo(s.jobs[c.i], Finish(s, c), at))
  {
    var d, b := Finish(s, c), s.jobs[c.i];
    var b' := ApplyTo(b, d, at);
    AppliedMembers(s.jobs, d, at, b');
    AppliedJob(s, c, b, at);
    forall j | j in Apply(s.jobs, d, at) && !IsExpired(j, s.lastStop) && j != b' ensures IsBetter(b', j, s.desiredHash) {
      AppliedMembers(s.jobs, d, at, j);
      var k :| k in s.jobs && j == ApplyTo(k, d, at);
      AppliedJob(s, c, k, at);
    }
  }

  /** A current job that stays does not have the desired hash when the best one must
      be recreated. */
  lemma FreshBeats(spec: Spec, s: State, enableRecreate: bool, c: Choice, b: Job, at: Instant, k: Job)
    requires DistinctNames(s.jobs) && s.desiredHash == spec.template.hash && c.Fresh?
    requires IsRebuilt(spec, s, enableRecreate, b, c.job)
    requires k in s.jobs && !IsExpired(k, s.lastStop)
    ensures IsBetter(Finish(s, c).creates[0], ApplyTo(k, Finish(s, c), at), s.desiredHash)
  {
    AppliedJob(s, c, k, at);
    if !IsBeingDeleted(ApplyTo(k, Finish(s, c), at)) {
      assert IsCompleted(k) && k != b && IsBetter(b, k, s.desiredHash);
    }
  }

  lemma FreshIsBest(spec: Spec, s: State, now: Instant, enableRecreate: bool, c: Choice, at: Instant)
    requires DistinctNames(s.jobs) && WellTimed(s) && s.desiredHash == spec.template.hash
    requires c.Fresh? && Choose(spec, s, now, enableRecreate) == Ok(c)
    ensures IsBest(Apply(s.jobs, Finish(s, c), at), s.lastStop, s.desiredHash, Finish(s, c).creates[0])
  {
    var d := Finish(s, c);
    var f := d.creates[0];
    AppliedMembers(s.jobs, d, at, f);
    FreshFacts(spec, s, now, enableRecreate, c.job);
    FreshIsNotExpired(spec, s, now, enableRecreate, c.job);
    forall j | j in Apply(s.jobs, d, at) && !IsExpired(j, s.lastStop) && j != f ensures IsBetter(f, j, s.desiredHash) {
      AppliedMembers(s.jobs, d, at, j);
      var k :| k in s.jobs && j == ApplyTo(k, d, at);
      AppliedJob(s, c, k, at);
      var b :| IsRebuilt(spec, s, enableRecreate, b, c.job);
      FreshBeats(spec, s, enableRecreate, c, b, at, k);
    }
  }

  // Second thoughts

  /** The job has completed, is current and stays. */
  predicate IsLeftover(s: State, j: Job) {
    IsCompleted(j) && !IsExpired(j, s.lastStop) && !IsBeingDeleted(j)
  }

  ghost predicate IsBestLeftover(s: State, b: Job) {
    && b in s.jobs && IsLeftover(s, b)
    && forall j | j in s.jobs && IsLeftover(s, j) && j != b :: IsBetter(b, j, s.desiredHash)
  }

  /** The one family in which a second decision acts: nobody may run, exactly one job
      has not completed, and the best of the completed jobs was scheduled by hand
      and still carries a suspend flag that is not the user's. */
  ghost predicate SecondThoughts(s: State) {
    && !s.isSuspended && !s.Running() && Candidate(s) == None && CountRunning(s.jobs, |s.jobs|) == 1
    && exists b :: IsBestLeftover(s, b) && IsManuallyScheduled(b) && IsSuspended(b) && !WasStoppedByTheUser(b)
  }

  lemma KeptIsSettled(s: State, c: Choice, at: Instant, enableRecreate: bool)
    requires DistinctNames(s.jobs) && c.Existing? && c.i < |s.jobs|
    ensures var s', b' := s.(jobs := Apply(s.jobs, Finish(s, c), at)), ApplyTo(s.jobs[c.i], Finish(s, c), at);
      && !WouldUnsuspend(s', b')
      && (!MustRecreate(s.jobs[c.i], s, enableRecreate) ==> !MustRecreate(b', s', enableRecreate))
      && (IsManuallyScheduled(s.jobs[c.i]) ==> IsManuallyScheduled(b'))
  {
    AppliedCount(s, c, at);
    AppliedJob(s, c, s.jobs[c.i], at);
  }

  lemma ExistingIsStable(spec: Spec, s: State, now: Instant, enableRecreate: bool, c: Choice, at: Instant, later: Instant)
    requires DistinctNames(s.jobs) && !s.isSuspended && c.Existing? && Choose(spec, s, now, enableRecreate) == Ok(c)
    ensures DoesNothing(Decide(spec, s.(jobs := Apply(s.jobs, Finish(s, c), at)), later, enableRecreate), s)
  {
    var b' := ApplyTo(s.jobs[c.i], Finish(s, c), at);
    ChoiceFacts(spec, s, now, enableRecreate, c);
    AppliedNamesDistinct(s, c, at);
    AppliedIsSettled(s, c, at, Some(b'));
    KeptStaysBest(s, c, at);
    KeptIsSettled(s, c, at, enableRecreate);
    DecideOnBest(spec, s.(jobs := Apply(s.jobs, Finish(s, c), at)), later, enableRecreate, b');
  }

  lemma FreshIsNotUnsuspended(spec: Spec, s: State, now: Instant, enableRecreate: bool, c: Choice, at: Instant)
    requires DistinctNames(s.jobs) && c.Fresh? && Choose(spec, s, now, enableRecreate) == Ok(c)
    ensures !WouldUnsuspend(s.(jobs := Apply(s.jobs, Finish(s, c), at)), Finish(s, c).creates[0])
  {
    ChoiceFacts(spec, s, now, enableRecreate, c);
    AppliedCount(s, c, at);
  }

  lemma FreshIsStable(spec: Spec, s: State, now: Instant, enableRecreate: bool, c: Choice, at: Instant, later: Instant)
    requires DistinctNames(s.jobs) && !s.isSuspended && WellTimed(s) && s.desiredHash == spec.template.hash
    requires c.Fresh? && Choose(spec, s, now, enableRecreate) == Ok(c) && NamesFree(s.jobs, Finish(s, c).creates)
    ensures DoesNothing(Decide(spec, s.(jobs := Apply(s.jobs, Finish(s, c), at)), later, enableRecreate), s)
  {
    var f := Finish(s, c).creates[0];
    var s' := s.(jobs := Apply(s.jobs, Finish(s, c), at));
    assert !IsExpired(f, s.lastStop) && (s.Running() || IsManuallyScheduled(f)) && !MustRecreate(f, s', enableRecreate) by {
      ChoiceFacts(spec, s, now, enableRecreate, c);
      FreshIsNotExpired(spec, s, now, enableRecreate, c.job);
    }
    AppliedNamesDistinct(s, c, at);
    AppliedIsSettled(s, c, at, Some(f));
    FreshIsBest(spec, s, now, enableRecreate, c, at);
    FreshIsNotUnsuspended(spec, s, now, enableRecreate, c, at);
    DecideOnBest(spec, s', later, enableRecreate, f);
  }

  /** The jobs not on their way out are the leftovers of s. */
  ghost predicate LeavesLeftovers(s: State, after: seq<Job>) {
    forall j :: (j in after && !IsExpired(j, s.lastStop) && !IsBeingDeleted(j)) <==> (j in s.jobs && IsLeftover(s, j))
  }

  lemma LeftoversRemain(s: State, at: Instant)
    requires DistinctNames(s.jobs)
    ensures LeavesLeftovers(s, Apply(s.jobs, Finish(s, Nobody), at))
  {
    var d := Finish(s, Nobody);
    forall j ensures j in Apply(s.jobs, d, at) && !IsExpired(j, s.lastStop) && !IsBeingDeleted(j)
      <==> j in s.jobs && IsLeftover(s, j)
    {
      AppliedMembers(s.jobs, d, at, j);
      if j in s.jobs { AppliedJob(s, Nobody, j, at); }
      if k :| k in s.jobs && j == ApplyTo(k, d, at) { AppliedJob(s, Nobody, k, at); }
    }
  }

  lemma BestLeftoverIsBest(s: State, after: seq<Job>, l: Job)
    requires LeavesLeftovers(s, after) && IsBestLeftover(s, l)
    ensures IsBest(after, s.lastStop, s.desiredHash, l)
  {
    assert l in after && !IsExpired(l, s.lastStop);
    forall j | j in after && !IsExpired(j, s.lastStop) && j != l ensures IsBetter(l, j, s.desiredHash) {
      if !IsBeingDeleted(j) { assert j in s.jobs && IsLeftover(s, j); }
    }
  }

  lemma BestIsUnique(jobs: seq<Job>, lastStop: Option<Instant>, hash: string, a: Job, b: Job)
    requires IsBest(jobs, lastStop, hash, a) && IsBest(jobs, lastStop, hash, b)
    ensures a == b
  {
    if a != b { BetterIsAsymmetric(a, b, hash); }
  }

  lemma SecondThoughtsIff(s: State, after: seq<Job>, b: Job)
    requires !s.isSuspended && !s.Running() && Candidate(s) == None
    requires SettledOn(s.(jobs := after), None) && LeavesLeftovers(s, after)
    requires CountRunning(after, |after|) == CountRunning(s.jobs, |s.jobs|)
    requires IsBest(after, s.lastStop, s.desiredHash, b) && IsManuallyScheduled(b)
    ensures WouldUnsuspend(s.(jobs := after), b) <==> SecondThoughts(s)
  {
    if SecondThoughts(s) {
      var l :| IsBestLeftover(s, l) && IsManuallyScheduled(l) && IsSuspended(l) && !WasStoppedByTheUser(l);
      BestLeftoverIsBest(s, after, l);
      BestIsUnique(after, s.lastStop, s.desiredHash, l, b);
    }
    if WouldUnsuspend(s.(jobs := after), b) {
      assert b in s.jobs && IsLeftover(s, b);
      forall j | j in s.jobs && IsLeftover(s, j) && j != b ensures IsBetter(b, j, s.desiredHash) {
        assert j in after && !IsExpired(j, s.lastStop);
      }
      assert IsBestLeftover(s, b);
    }
  }

  /** Deciding where everything but the leftovers is on its way out. */
  lemma DecideOnLeftovers(spec: Spec, s: State, after: seq<Job>, later: Instant, enableRecreate: bool)
    requires DistinctNames(after) && !s.isSuspended && !s.Running() && Candidate(s) == None
    requires SettledOn(s.(jobs := after), None) && LeavesLeftovers(s, after)
    requires CountRunning(after, |after|) == CountRunning(s.jobs, |s.jobs|)
    ensures DoesNothing(Decide(spec, s.(jobs := after), later, enableRecreate), s) <==> !SecondThoughts(s)
  {
    if b :| IsBest(after, s.lastStop, s.desiredHash, b) && IsManuallyScheduled(b) {
      SecondThoughtsIff(s, after, b);
      DecideOnBest(spec, s.(jobs := after), later, enableRecreate, b);
    } else {
      DecideOnNobody(spec, s.(jobs := after), later, enableRecreate);
      if l :| IsBestLeftover(s, l) { BestLeftoverIsBest(s, after, l); }
    }
  }

  lemma NobodyIsStable(spec: Spec, s: State, now: Instant, enableRecreate: bool, at: Instant, later: Instant)
    requires DistinctNames(s.jobs) && !s.isSuspended && Choose(spec, s, now, enableRecreate) == Ok(Nobody)
    ensures DoesNothing(Decide(spec, s.(jobs := Apply(s.jobs, Finish(s, Nobody), at)), later, enableRecreate), s)
      <==> !SecondThoughts(s)
  {
    AppliedNamesDistinct(s, Nobody, at);
    AppliedCount(s, Nobody, at);
    AppliedIsSettled(s, Nobody, at, None);
    LeftoversRemain(s, at);
    DecideOnLeftovers(spec, s, Apply(s.jobs, Finish(s, Nobody), at), later, enableRecreate);
  }

  /** A decision that was carried out leaves nothing for the next one, at whatever
      time it is taken, exactly when there are no second thoughts. */
  lemma DecisionsAreStable(spec: Spec, s: State, now: Instant, enableRecreate: bool, d: Decision, at: Instant, later: Instant)
    requires DistinctNames(s.jobs) && WellTimed(s) && s.desiredHash == spec.template.hash
    requires !s.isSuspended && Decide(spec, s, now, enableRecreate) == Ok(d) && NamesFree(s.jobs, d.creates)
    ensures DoesNothing(Decide(spec, s.(jobs := Apply(s.jobs, d, at)), later, enableRecreate), s)
      <==> !SecondThoughts(s)
  {
    var c := Choose(spec, s, now, enableRecreate).value;
    match c
    case Nobody => NobodyIsStable(spec, s, now, enableRecreate, at, later);
    case Existing(_) => ExistingIsStable(spec, s, now, enableRecreate, c, at, later);
    case Fresh(_) => FreshIsStable(spec, s, now, enableRecreate, c, at, later);
  }

  /** In particular when no completed job carries the suspend flag. */
  lemma StableWithoutSuspendedCompletions(spec: Spec, s: State, now: Instant, enableRecreate: bool, d: Decision,
                                          at: Instant, later: Instant)
    requires DistinctNames(s.jobs) && WellTimed(s) && s.desiredHash == spec.template.hash
    requires !s.isSuspended && Decide(spec, s, now, enableRecreate) == Ok(d) && NamesFree(s.jobs, d.creates)
    requires forall j | j in s.jobs && IsCompleted(j) :: !IsSuspended(j)
    ensures DoesNothing(Decide(spec, s.(jobs := Apply(s.jobs, d, at)), later, enableRecreate), s)
  {
    DecisionsAreStable(spec, s, now, enableRecreate, d, at, later);
  }

  const RUNNING := Job("b", Annotations(Absent, Absent, Absent, "", ""), None, None, [], None, 1)

  const FINISHED := Job("a", Annotations(Absent, Absent, Reads(true), "", ""), Some(true), None,
                        [JobCondition(Complete, True)], None, 0)

  /** Without events there is nothing to be before or after. */
  lemma NoEventsNoState(spec: Spec, jobs: seq<Job>, now: Instant)
    requires spec.schedule.events == [] && spec.schedule.zone.Ok?
    ensures BuildState(spec, jobs, now)
      == Ok(State(spec.suspend == Some(true), None, None, None, None, jobs, spec.template.hash, spec.recreateOnSpecChange))
  {
  }

  lemma RunningIsPreferred(hash: string)
    ensures var jobs := [RUNNING, FINISHED]; hash != "" ==>
      && BestIndex(jobs, None, hash, 2) == Some(0) && CountRunning(jobs, 2) == 1 && DistinctNames(jobs)
  {
    var jobs := [RUNNING, FINISHED];
    assert IsCompleted(FINISHED) && !IsCompleted(RUNNING) && !IsBetter(FINISHED, RUNNING, hash);
    assert BestIndex(jobs, None, hash, 1) == Some(0);
    assert CountRunning(jobs, 0) == 0 && CountRunning(jobs, 1) == 1;
  }

  /** The state with those two jobs, outside of any run period. */
  predicate HasTheTwo(s: State) {
    && s.jobs == [RUNNING, FINISHED] && !s.isSuspended && !s.Running() && s.lastStop == None && s.desiredHash != ""
  }

  lemma TheTwoHaveSecondThoughts(spec: Spec, s: State, now: Instant, enableRecreate: bool)
    requires HasTheTwo(s)
    ensures SecondThoughts(s) && DistinctNames(s.jobs) && IsBestLeftover(s, FINISHED)
    ensures Decide(spec, s, now, enableRecreate) == Ok(Finish(s, Nobody))
    ensures Finish(s, Nobody).creates == [] && Finish(s, Nobody).unsuspends == []
  {
    RunningIsPreferred(s.desiredHash);
    assert IsBestLeftover(s, FINISHED);
  }

  lemma TheFlagIsClearedNext(spec: Spec, s: State, enableRecreate: bool, at: Instant, later: Instant)
    requires HasTheTwo(s) && DistinctNames(s.jobs) && SecondThoughts(s) && IsBestLeftover(s, FINISHED)
    ensures Decide(spec, s.(jobs := Apply(s.jobs, Finish(s, Nobody), at)), later, enableRecreate)
      == Ok(Decision([], [], [], [FINISHED], s.nextEvent))
  {
    var after := Apply(s.jobs, Finish(s, Nobody), at);
    AppliedNamesDistinct(s, Nobody, at);
    AppliedCount(s, Nobody, at);
    AppliedIsSettled(s, Nobody, at, None);
    LeftoversRemain(s, at);
    BestLeftoverIsBest(s, after, FINISHED);
    DecideOnBest(spec, s.(jobs := after), later, enableRecreate, FINISHED);
  }

  /** A cluster with second thoughts, for any ControlledJob without events: the one
      running job goes, and only the next decision clears the flag of a completed job
      started by hand. */
  lemma SecondThoughtsHappen(spec: Spec, now: Instant, enableRecreate: bool, at: Instant, later: Instant)
    requires spec.schedule.events == [] && spec.schedule.zone.Ok? && spec.suspend != Some(true) && spec.template.hash != ""
    ensures exists jobs, s, d ::
      && BuildState(spec, jobs, now) == Ok(s)
      && BuildState(spec, Apply(jobs, d, at), later) == Ok(s.(jobs := Apply(jobs, d, at)))
      && SecondThoughts(s) && Decide(spec, s, now, enableRecreate) == Ok(d) && d.creates == [] && d.unsuspends == []
      && Decide(spec, s.(jobs := Apply(jobs, d, at)), later, enableRecreate) == Ok(Decision([], [], [], [FINISHED], None))
  {
    var jobs := [RUNNING, FINISHED];
    NoEventsNoState(spec, jobs, now);
    var s := BuildState(spec, jobs, now).value;
    TheTwoHaveSecondThoughts(spec, s, now, enableRecreate);
    TheFlagIsClearedNext(spec, s, enableRecreate, at, later);
    NoEventsNoState(spec, Apply(jobs, Finish(s, Nobody), at), later);
  }
}
