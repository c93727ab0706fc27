/**
  The calls of a decision, sent one by one to the cluster with no step in between,
  leave the jobs that carrying the decision out leaves; so what is proved of decisions
  carried out holds of the runs of the operator.
 */
module RunEffects {
  import opened Wrappers
  import opened Calendar
  import opened Jobs
  import opened Decisions
  import opened CandidateOrder
  import opened DecisionEffects
  import opened Stability
  import opened Convergence
  import opened ExclusiveRun
  import opened Reconciling

  /** The world after the calls of the queue, up to the first that is not accepted. */
  function AfterCalls(w: World, at: Instant): World
    decreases |w.queue|
  {
    if w.queue == [] || !Accepts(w.jobs, w.queue[0]) then w else AfterCalls(AfterCall(w, at), at)
  }

  /** It is reached by steps of a run. */
  lemma {:induction false} CallsAreSteps(w: World, at: Instant) returns (run: seq<World>)
    ensures run != [] && run[0] == w && run[|run| - 1] == AfterCalls(w, at)
    ensures forall i | 0 <= i < |run| - 1 :: CanStep(run[i], run[i + 1])
    decreases |w.queue|
  {
    if w.queue == [] || !Accepts(w.jobs, w.queue[0]) {
      run := [w];
    } else {
      assert Next(w, CallWorks(at), AfterCall(w, at));
      var rest := CallsAreSteps(AfterCall(w, at), at);
      run := [w] + rest;
      assert run[1] == rest[0];
    }
  }

  // One call on a list of jobs

  function CallOnJob(j: Job, call: Call, at: Instant): Job {
    if j.name != call.job.name then j
    else match call
      case DeleteCall(_) => if IsBeingDeleted(j) then j else j.(deletionTimestamp := Some(at))
      case CreateCall(_) => j
      case SuspendCall(_) => j.(suspend := Some(true))
      case UnsuspendCall(_) => j.(suspend := Some(false))
  }

  function CallOnList(list: seq<Job>, call: Call, at: Instant): seq<Job> {
    seq(|list|, i requires 0 <= i < |list| => CallOnJob(list[i], call, at)) + if call.CreateCall? then [call.job] else []
  }

  function CallsOnList(list: seq<Job>, calls: seq<Call>, at: Instant): seq<Job>
    decreases |calls|
  {
    if calls == [] then list else CallsOnList(CallOnList(list, calls[0], at), calls[1..], at)
  }

  lemma CallOnListMembers(list: seq<Job>, call: Call, at: Instant, k: Job)
    ensures k in CallOnList(list, call, at)
      <==> (call.CreateCall? && k == call.job) || exists j | j in list :: k == CallOnJob(j, call, at)
  {
    var after := CallOnList(list, call, at);
    if j :| j in list && k == CallOnJob(j, call, at) {
      var i :| 0 <= i < |list| && list[i] == j;
      assert after[i] == k;
    }
    if call.CreateCall? && k == call.job { assert after[|list|] == k; }
    if k in after {
      var i :| 0 <= i < |after| && after[i] == k;
      if i < |list| { assert list[i] in list; }
    }
  }

  /** A call that is accepted keeps a listing a listing. */
  lemma CallKeepsListing(list: seq<Job>, w: World, at: Instant)
    requires IsListing(list, w.jobs) && w.queue != [] && Accepts(w.jobs, w.queue[0])
    ensures IsListing(CallOnList(list, w.queue[0].call, at), AfterCall(w, at).jobs)
  {
    var call := w.queue[0].call;
    var after, jobs' := CallOnList(list, call, at), AfterCall(w, at).jobs;
    if call.CreateCall? {
      forall i | 0 <= i < |list| ensures list[i].name != call.job.name { assert list[i] in list; }
    }
    forall k ensures k in after <==> k.name in jobs' && jobs'[k.name].job == k {
      CallOnListMembers(list, call, at, k);
      if k.name in w.jobs && w.jobs[k.name].job.name == k.name { assert w.jobs[k.name].job in list; }
    }
  }

  // All calls of a plan

  /** Every call is accepted, and all but one are deletes, which never get in the way
      of the others. */
  ghost predicate Ready(w: World) {
    && (forall i | 0 <= i < |w.queue| :: Accepts(w.jobs, w.queue[i]))
    && forall i, k | 0 <= i < k < |w.queue| :: w.queue[i].call.DeleteCall? || w.queue[k].call.DeleteCall?
  }

  lemma StaysReady(w: World, at: Instant)
    requires Ready(w) && w.queue != []
    ensures Ready(AfterCall(w, at))
  {
    var w' := AfterCall(w, at);
    forall i | 0 <= i < |w'.queue| ensures Accepts(w'.jobs, w'.queue[i]) {
      assert w'.queue[i] == w.queue[i + 1] && Accepts(w.jobs, w.queue[i + 1]);
    }
  }

  function CallsOf(queue: seq<Pending>): seq<Call> {
    seq(|queue|, i requires 0 <= i < |queue| => queue[i].call)
  }

  lemma {:induction false} AllCallsWork(list: seq<Job>, w: World, at: Instant)
    requires IsListing(list, w.jobs) && Ready(w)
    ensures AfterCalls(w, at).queue == []
    ensures IsListing(CallsOnList(list, CallsOf(w.queue), at), AfterCalls(w, at).jobs)
    decreases |w.queue|
  {
    if w.queue != [] {
      CallKeepsListing(list, w, at);
      StaysReady(w, at);
      AllCallsWork(CallOnList(list, w.queue[0].call, at), AfterCall(w, at), at);
      assert CallsOf(w.queue)[1..] == CallsOf(w.queue[1..]);
    }
  }

  /** The list after some deletes, all at once. */
  function Deleted(list: seq<Job>, deletes: seq<Job>, at: Instant): seq<Job> {
    seq(|list|, i requires 0 <= i < |list| =>
      if Named(list[i], deletes) && !IsBeingDeleted(list[i]) then list[i].(deletionTimestamp := Some(at)) else list[i])
  }

  lemma {:induction false} DeletesOnList(list: seq<Job>, deletes: seq<Job>, rest: seq<Call>, at: Instant)
    ensures CallsOnList(list, Deletes(deletes) + rest, at) == CallsOnList(Deleted(list, deletes, at), rest, at)
    decreases |deletes|
  {
    if deletes == [] {
      assert Deletes(deletes) + rest == rest && Deleted(list, deletes, at) == list;
    } else {
      var calls, first := Deletes(deletes) + rest, CallOnList(list, DeleteCall(deletes[0]), at);
      assert calls[0] == DeleteCall(deletes[0]) && calls[1..] == Deletes(deletes[1..]) + rest;
      DeletesOnList(first, deletes[1..], rest, at);
      forall i | 0 <= i < |list| ensures Deleted(first, deletes[1..], at)[i] == Deleted(list, deletes, at)[i] {
        NamedInParts(list[i], deletes);
      }
      assert Deleted(first, deletes[1..], at) == Deleted(list, deletes, at);
    }
  }

  lemma NamedInParts(j: Job, js: seq<Job>)
    requires js != []
    ensures Named(j, js) <==> js[0].name == j.name || Named(j, js[1..])
  {
    if k :| k in js && k.name == j.name && k != js[0] { assert k in js[1..]; }
  }

  /** Sent one by one to a list of jobs, a plan does what Apply says. */
  lemma PlanOnList(jobs: seq<Job>, d: Decision, at: Instant)
    requires d.suspends == [] && |d.creates| + |d.unsuspends| <= 1 && NamesFree(jobs, d.creates)
    ensures CallsOnList(jobs, Plan(d), at) == Apply(jobs, d, at)
  {
    var rest := Creates(d.creates) + Unsuspends(d.unsuspends);
    assert Plan(d) == Deletes(d.deletes) + rest;
    DeletesOnList(jobs, d.deletes, rest, at);
    var deleted := Deleted(jobs, d.deletes, at);
    if d.creates != [] {
      assert rest == [CreateCall(d.creates[0])] && d.creates == [d.creates[0]];
      OneCall(deleted, rest[0], at);
      assert CallOnList(deleted, rest[0], at) == Apply(jobs, d, at);
    } else if d.unsuspends != [] {
      assert rest == [UnsuspendCall(d.unsuspends[0])] && d.unsuspends == [d.unsuspends[0]];
      OneCall(deleted, rest[0], at);
      assert CallOnList(deleted, rest[0], at) == Apply(jobs, d, at);
    } else {
      assert rest == [] && deleted == Apply(jobs, d, at);
    }
  }

  lemma OneCall(list: seq<Job>, call: Call, at: Instant)
    ensures CallsOnList(list, [call], at) == CallOnList(list, call, at)
  {
    assert [call][1..] == [];
  }

  /** The world in which a decision has been taken. */
  function WithDecision(w: World, d: Decision): World {
    w.(queue := QueueOf(Plan(d), w.jobs))
  }

  lemma DecisionIsReady(w: World, spec: Spec, s: State, now: Instant, enableRecreate: bool, d: Decision)
    requires IsListing(s.jobs, w.jobs) && NamedByKey(w.jobs)
    requires Decide(spec, s, now, enableRecreate) == Ok(d) && NamesFree(s.jobs, d.creates)
    ensures Ready(WithDecision(w, d)) && d.suspends == [] && |d.creates| + |d.unsuspends| <= 1
  {
    CreatesAreSafe(spec, s, now, enableRecreate, d);
    UnsuspendsAreSafe(spec, s, now, enableRecreate, d);
    PlannedCalls(d, w.jobs);
    var q := WithDecision(w, d).queue;
    forall i | 0 <= i < |q| ensures Accepts(w.jobs, q[i]) {
      match q[i].call
      case CreateCall(f) => CreateIsAccepted(s.jobs, w.jobs, d, f);
      case UnsuspendCall(x) => assert x in d.unsuspends && x in s.jobs;
      case _ =>
    }
  }

  lemma CreateIsAccepted(list: seq<Job>, jobs: map<string, Entry>, d: Decision, f: Job)
    requires IsListing(list, jobs) && NamesFree(list, d.creates) && f in d.creates && NamedByKey(jobs)
    ensures f.name !in jobs
  {
    assert f.name in jobs ==> jobs[f.name].job in list;
  }

  ghost predicate NamedByKey(jobs: map<string, Entry>) {
    forall n | n in jobs :: jobs[n].job.name == n
  }

  /** All calls of a decision, with no step in between: every one is accepted, and the
      cluster lists the jobs that carrying out the decision leaves. */
  lemma PassCarriesOut(w: World, spec: Spec, s: State, now: Instant, enableRecreate: bool, d: Decision, at: Instant)
    requires IsListing(s.jobs, w.jobs) && NamedByKey(w.jobs)
    requires Decide(spec, s, now, enableRecreate) == Ok(d) && NamesFree(s.jobs, d.creates)
    ensures var after := AfterCalls(WithDecision(w, d), at);
      after.queue == [] && IsListing(Apply(s.jobs, d, at), after.jobs)
  {
    var v := WithDecision(w, d);
    DecisionIsReady(w, spec, s, now, enableRecreate, d);
    AllCallsWork(s.jobs, v, at);
    assert CallsOf(v.queue) == Plan(d);
    PlanOnList(s.jobs, d, at);
  }

  // Stability and convergence of runs

  lemma ListingsAgree(a: seq<Job>, b: seq<Job>, jobs: map<string, Entry>)
    requires IsListing(a, jobs) && IsListing(b, jobs)
    ensures SameJobs(a, b)
  {
  }

  lemma SameIsNothing(spec: Spec, s: State, s': State, now: Instant, enableRecreate: bool)
    requires s' == s.(jobs := s'.jobs) && SameJobs(s.jobs, s'.jobs)
    requires DistinctNames(s.jobs) && DistinctNames(s'.jobs)
    ensures DoesNothing(Decide(spec, s, now, enableRecreate), s) <==> DoesNothing(Decide(spec, s', now, enableRecreate), s)
  {
    SameJobsSameDecision(spec, s, s', now, enableRecreate);
    var r, r' := Decide(spec, s, now, enableRecreate), Decide(spec, s', now, enableRecreate);
    if r.Ok? && r'.Ok? {
      assert r.value.deletes != [] ==> r.value.deletes[0] in r'.value.deletes;
      assert r'.value.deletes != [] ==> r'.value.deletes[0] in r.value.deletes;
    }
  }

  /** After a pass whose calls all worked, the next decision, from any listing of the
      cluster and at any time, does nothing exactly when there were no second thoughts. */
  lemma PassIsStable(w: World, spec: Spec, s: State, now: Instant, enableRecreate: bool, d: Decision, at: Instant,
                     list: seq<Job>, later: Instant)
    requires IsListing(s.jobs, w.jobs) && NamedByKey(w.jobs)
    requires WellTimed(s) && s.desiredHash == spec.template.hash && !s.isSuspended
    requires Decide(spec, s, now, enableRecreate) == Ok(d) && NamesFree(s.jobs, d.creates)
    requires IsListing(list, AfterCalls(WithDecision(w, d), at).jobs)
    ensures DoesNothing(Decide(spec, s.(jobs := list), later, enableRecreate), s) <==> !SecondThoughts(s)
  {
    PassCarriesOut(w, spec, s, now, enableRecreate, d, at);
    ListingsAgree(list, Apply(s.jobs, d, at), AfterCalls(WithDecision(w, d), at).jobs);
    DecisionsAreStable(spec, s, now, enableRecreate, d, at, later);
    SameIsNothing(spec, s.(jobs := list), s.(jobs := Apply(s.jobs, d, at)), later, enableRecreate);
  }

  /** The cluster once every deletion under way has finished. */
  function AfterDeletions(w: World): World {
    w.(jobs := map n | n in w.jobs && !IsBeingDeleted(w.jobs[n].job) :: w.jobs[n])
  }

  /** Without pods, it is reached by steps in which deletions finish. */
  lemma {:induction false} DeletionsAreSteps(w: World, going: set<string>) returns (run: seq<World>)
    requires going == set n | n in w.jobs && IsBeingDeleted(w.jobs[n].job)
    requires forall n | n in going :: !w.jobs[n].pods
    ensures run != [] && run[0] == w && run[|run| - 1] == AfterDeletions(w)
    ensures forall i | 0 <= i < |run| - 1 :: CanStep(run[i], run[i + 1])
    decreases going
  {
    if going == {} {
      assert forall n | n in w.jobs :: n !in going;
      assert AfterDeletions(w).jobs == w.jobs;
      run := [w];
    } else {
      var n :| n in going;
      var v := w.(jobs := w.jobs - {n});
      assert Next(w, DeletionFinishes(n), v);
      var rest := DeletionsAreSteps(v, going - {n});
      assert AfterDeletions(v).jobs == AfterDeletions(w).jobs;
      run := [w] + rest;
      assert run[1] == rest[0];
    }
  }

  lemma RemainingIsListing(list: seq<Job>, w: World)
    requires IsListing(list, w.jobs)
    ensures IsListing(Remaining(list), AfterDeletions(w).jobs)
  {
    RemainingAre(list);
  }

  lemma SameSettling(s: State, s': State, enableRecreate: bool)
    requires s' == s.(jobs := s'.jobs) && SameJobs(s.jobs, s'.jobs) && DistinctNames(s'.jobs) && Settling(s, enableRecreate)
    ensures Settling(s', enableRecreate)
  {
    forall a | a in s'.jobs && !IsCompleted(a) ensures IsToKeep(s', a, enableRecreate) {
      assert IsToKeep(s, a, enableRecreate);
    }
  }

  lemma SameRest(s: State, jobs: seq<Job>, jobs': seq<Job>)
    requires SameJobs(jobs, jobs') && AtRest(s, jobs)
    ensures AtRest(s, jobs')
  {
    assert jobs != [] ==> jobs[0] in jobs';
  }

  lemma {:induction false} CallsKeepKeys(w: World, at: Instant)
    requires NamedByKey(w.jobs)
    ensures NamedByKey(AfterCalls(w, at).jobs)
    decreases |w.queue|
  {
    if w.queue != [] && Accepts(w.jobs, w.queue[0]) { CallsKeepKeys(AfterCall(w, at), at); }
  }

  /** The cluster after a pass and the end of its deletions, from any listing. */
  lemma PassSettles(w: World, spec: Spec, s: State, now: Instant, enableRecreate: bool, d: Decision, at: Instant, list: seq<Job>)
    requires IsListing(s.jobs, w.jobs) && NamedByKey(w.jobs)
    requires WellTimed(s) && s.desiredHash == spec.template.hash && !s.isSuspended
    requires Decide(spec, s, now, enableRecreate) == Ok(d) && NamesFree(s.jobs, d.creates)
    requires IsListing(list, AfterDeletions(AfterCalls(WithDecision(w, d), at)).jobs)
    ensures Settling(s.(jobs := list), enableRecreate)
    ensures NamedByKey(AfterDeletions(AfterCalls(WithDecision(w, d), at)).jobs)
  {
    var after := AfterCalls(WithDecision(w, d), at);
    PassCarriesOut(w, spec, s, now, enableRecreate, d, at);
    CallsKeepKeys(WithDecision(w, d), at);
    RemainingIsListing(Apply(s.jobs, d, at), after);
    var remaining := Remaining(Apply(s.jobs, d, at));
    ListingsAgree(remaining, list, AfterDeletions(after).jobs);
    FirstRoundSettles(spec, s, now, enableRecreate, d, at);
    SameSettling(s.(jobs := remaining), s.(jobs := list), enableRecreate);
  }

  /** Two passes of the operator whose calls all work, with the deletions finishing in
      between: the second decision fails exactly when a job cannot be started, and
      otherwise leaves the cluster at rest, where the next does nothing. */
  lemma TwoPassesConverge(w: World, spec: Spec, s: State, t1: Instant, enableRecreate: bool, d: Decision, at1: Instant,
                          w2: World, s2: State, t2: Instant, at2: Instant, list: seq<Job>, t3: Instant)
    requires IsListing(s.jobs, w.jobs) && NamedByKey(w.jobs)
    requires WellTimed(s) && s.desiredHash == spec.template.hash && !s.isSuspended
    requires Decide(spec, s, t1, enableRecreate) == Ok(d) && NamesFree(s.jobs, d.creates)
    requires w2 == AfterDeletions(AfterCalls(WithDecision(w, d), at1))
    requires s2 == s.(jobs := s2.jobs) && IsListing(s2.jobs, w2.jobs)
    ensures var r := Decide(spec, s2, t2, enableRecreate);
      && (r.Ok? <==> !CannotStart(spec, s2, t2))
      && (r.Ok? ==>
        && AfterCalls(WithDecision(w2, r.value), at2).queue == []
        && (IsListing(list, AfterCalls(WithDecision(w2, r.value), at2).jobs) ==>
              AtRest(s, list) && DoesNothing(Decide(spec, s.(jobs := list), t3, enableRecreate), s)))
  {
    PassSettles(w, spec, s, t1, enableRecreate, d, at1, s2.jobs);
    SecondRoundRests(spec, s2, t2, enableRecreate, at2);
    match Decide(spec, s2, t2, enableRecreate)
    case Err(_) =>
    case Ok(d2) =>
      PassCarriesOut(w2, spec, s2, t2, enableRecreate, d2, at2);
      NoSecondThoughts(s2, enableRecreate);
      var after := AfterCalls(WithDecision(w2, d2), at2);
      if IsListing(list, after.jobs) {
        ListingsAgree(Apply(s2.jobs, d2, at2), list, after.jobs);
        SameRest(s, Apply(s2.jobs, d2, at2), list);
        PassIsStable(w2, spec, s2, t2, enableRecreate, d2, at2, list, t3);
      }
  }
}
