/**
  At most one job runs, in every run that interleaves the operator with everything
  else: a pass takes its decision from a listing of the jobs and then sends its calls
  one by one, each of which may fail and end the pass, while pods start and stop, jobs
  complete, deletions finish and users add, suspend, delete and annotate jobs.
 */
module ExclusiveRun {
  import opened Wrappers
  import opened Calendar
  import opened Jobs
  import opened Decisions
  import opened CandidateOrder
  import opened Reconciling

  /** A job in the cluster. The uid tells it from another job that had its name
      before; pods tells whether it still holds any. */
  datatype Entry = Entry(uid: nat, job: Job, pods: bool)

  /** A call still to be sent, with the uid of the object it was planned for. */
  datatype Pending = Pending(call: Call, uid: nat)

  datatype World = World(jobs: map<string, Entry>, nextUid: nat, queue: seq<Pending>)

  /** The job has pods or may get some. */
  predicate Active(e: Entry) {
    !IsCompleted(e.job) && (!IsSuspended(e.job) || e.pods)
  }

  ghost predicate AtMostOneActive(jobs: map<string, Entry>) {
    forall m, n | m in jobs && n in jobs && Active(jobs[m]) && Active(jobs[n]) :: m == n
  }

  // The steps

  datatype Step =
    | TakesDecision(spec: Spec, s: State, now: Instant, enableRecreate: bool)
    | CallWorks(at: Instant)
    | PassEnds
    | Changes(name: string, after: Entry)
    | DeletionFinishes(name: string)
    | UserAdds(job: Job)

  /** The list holds every job of the cluster once, in any order. */
  ghost predicate IsListing(list: seq<Job>, jobs: map<string, Entry>) {
    DistinctNames(list) && forall j :: j in list <==> j.name in jobs && jobs[j.name].job == j
  }

  /** The calls as a queue, each with the uid of the object it is for. */
  function QueueOf(calls: seq<Call>, jobs: map<string, Entry>): seq<Pending> {
    seq(|calls|, i requires 0 <= i < |calls| =>
      Pending(calls[i], if calls[i].job.name in jobs then jobs[calls[i].job.name].uid else 0))
  }

  /** Whether the cluster can accept the call: a name is created once, and an update
      is of the very object that was read. */
  predicate Accepts(jobs: map<string, Entry>, p: Pending) {
    var n := p.call.job.name;
    match p.call
    case DeleteCall(_) => true
    case CreateCall(_) => n !in jobs
    case SuspendCall(_) => n in jobs && jobs[n].uid == p.uid
    case UnsuspendCall(_) => n in jobs && jobs[n].uid == p.uid
  }

  /** Deleting marks the job, in the foreground, until its pods are gone; a job that
      is gone already counts as deleted. */
  function Effect(jobs: map<string, Entry>, nextUid: nat, p: Pending, at: Instant): map<string, Entry>
    requires Accepts(jobs, p)
  {
    var n := p.call.job.name;
    match p.call
    case DeleteCall(_) =>
      if n !in jobs || IsBeingDeleted(jobs[n].job) then jobs
      else jobs[n := jobs[n].(job := jobs[n].job.(deletionTimestamp := Some(at)))]
    case CreateCall(j) => jobs[n := Entry(nextUid, j, false)]
    case SuspendCall(_) => jobs[n := jobs[n].(job := jobs[n].job.(suspend := Some(true)))]
    case UnsuspendCall(_) => jobs[n := jobs[n].(job := jobs[n].job.(suspend := Some(false)))]
  }

  /** The first call of the queue is sent, and works. */
  function AfterCall(w: World, at: Instant): World
    requires w.queue != [] && Accepts(w.jobs, w.queue[0])
  {
    World(Effect(w.jobs, w.nextUid, w.queue[0], at), w.nextUid + 1, w.queue[1..])
  }

  /** Everything that can happen to a job without the operator: pods start only when
      it is not suspended, a completed job stays completed and holds no pods, nobody
      else unsuspends it, and a deletion is not taken back. */
  predicate MayBecome(e: Entry, e': Entry) {
    && e'.uid == e.uid && e'.job.name == e.job.name
    && (IsCompleted(e.job) ==> IsCompleted(e'.job))
    && (IsCompleted(e'.job) ==> !e'.pods)
    && (IsSuspended(e.job) ==> IsSuspended(e'.job))
    && (e'.pods ==> e.pods || !IsSuspended(e.job))
    && (IsBeingDeleted(e.job) ==> IsBeingDeleted(e'.job))
  }

  ghost predicate Next(w: World, step: Step, w': World) {
    match step
    case TakesDecision(spec, s, now, enableRecreate) =>
      && w.queue == [] && IsListing(s.jobs, w.jobs)
      && var r := Decide(spec, s, now, enableRecreate);
      && r.Ok? && w' == w.(queue := QueueOf(Plan(r.value), w.jobs))
    case CallWorks(at) => w.queue != [] && Accepts(w.jobs, w.queue[0]) && w' == AfterCall(w, at)
    case PassEnds => w' == w.(queue := [])
    case Changes(n, after) =>
      n in w.jobs && MayBecome(w.jobs[n], after) && w' == w.(jobs := w.jobs[n := after])
    case DeletionFinishes(n) =>
      && n in w.jobs && IsBeingDeleted(w.jobs[n].job) && !w.jobs[n].pods
      && w' == w.(jobs := w.jobs - {n})
    case UserAdds(j) =>
      && j.name !in w.jobs && IsSuspended(j)
      && w' == World(w.jobs[j.name := Entry(w.nextUid, j, false)], w.nextUid + 1, w.queue)
  }

  ghost predicate Starts(w: World) {
    && w.queue == [] && WellFormed(w) && AtMostOneActive(w.jobs)
  }

  ghost predicate CanStep(w: World, w': World) {
    exists step :: Next(w, step, w')
  }

  ghost predicate IsRun(run: seq<World>) {
    && run != [] && Starts(run[0])
    && forall i | 0 <= i < |run| - 1 :: CanStep(run[i], run[i + 1])
  }

  lemma Takes(w: World, step: Step, w': World)
    requires Next(w, step, w')
    ensures CanStep(w, w')
  {
  }

  /** What may happen to any job at any time, in the middle of a pass too: its pods start
      when it is neither suspended nor completed, and stop; it completes; users suspend
      or delete it; it goes when it is being deleted and holds no pods; and the pass ends. */
  lemma EnvironmentIsFree(w: World, n: string, at: Instant)
    requires n in w.jobs && (IsCompleted(w.jobs[n].job) ==> !w.jobs[n].pods)
    ensures var e := w.jobs[n];
      && (!IsSuspended(e.job) && !IsCompleted(e.job) ==> CanStep(w, w.(jobs := w.jobs[n := e.(pods := true)])))
      && CanStep(w, w.(jobs := w.jobs[n := e.(pods := false)]))
      && CanStep(w, w.(jobs := w.jobs[n := Entry(e.uid, e.job.(conditions := [JobCondition(Complete, True)]), false)]))
      && CanStep(w, w.(jobs := w.jobs[n := e.(job := e.job.(suspend := Some(true)))]))
      && CanStep(w, w.(jobs := w.jobs[n := e.(job := e.job.(deletionTimestamp := Some(at)))]))
      && (IsBeingDeleted(e.job) && !e.pods ==> CanStep(w, w.(jobs := w.jobs - {n})))
      && CanStep(w, w.(queue := []))
  {
    var e := w.jobs[n];
    if !IsSuspended(e.job) && !IsCompleted(e.job) { BecomesAny(w, n, e.(pods := true)); }
    BecomesAny(w, n, e.(pods := false));
    BecomesAny(w, n, Entry(e.uid, e.job.(conditions := [JobCondition(Complete, True)]), false));
    BecomesAny(w, n, e.(job := e.job.(suspend := Some(true))));
    BecomesAny(w, n, e.(job := e.job.(deletionTimestamp := Some(at))));
    if IsBeingDeleted(e.job) && !e.pods { Takes(w, DeletionFinishes(n), w.(jobs := w.jobs - {n})); }
    Takes(w, PassEnds, w.(queue := []));
  }

  lemma BecomesAny(w: World, n: string, after: Entry)
    requires n in w.jobs && MayBecome(w.jobs[n], after)
    ensures CanStep(w, w.(jobs := w.jobs[n := after]))
  {
    Takes(w, Changes(n, after), w.(jobs := w.jobs[n := after]));
  }

  // The invariant

  ghost predicate WellFormed(w: World) {
    forall n | n in w.jobs ::
      && w.jobs[n].job.name == n && w.jobs[n].uid < w.nextUid
      && (IsCompleted(w.jobs[n].job) ==> !w.jobs[n].pods)
  }

  predicate Activates(p: Pending) {
    p.call.UnsuspendCall? || (p.call.CreateCall? && !IsSuspended(p.call.job))
  }

  ghost predicate NoneActiveBut(jobs: map<string, Entry>, name: string) {
    forall m | m in jobs && m != name :: !Active(jobs[m])
  }

  ghost predicate NoneActive(jobs: map<string, Entry>) {
    forall m | m in jobs :: !Active(jobs[m])
  }

  /** Sending the call now, or later, lets no second job run. Unsuspending a job that
      has completed does nothing. */
  ghost predicate IsSafe(w: World, p: Pending) {
    var n := p.call.job.name;
    match p.call
    case UnsuspendCall(_) =>
      && p.uid < w.nextUid
      && (n in w.jobs && w.jobs[n].uid == p.uid && !IsCompleted(w.jobs[n].job) ==> NoneActiveBut(w.jobs, n))
    case CreateCall(j) => IsSuspended(j) || NoneActive(w.jobs)
    case _ => true
  }

  ghost predicate SafeQueue(w: World) {
    && (forall i | 0 <= i < |w.queue| :: IsSafe(w, w.queue[i]))
    && forall i, k | 0 <= i < k < |w.queue| :: !(Activates(w.queue[i]) && Activates(w.queue[k]))
  }

  ghost predicate Invariant(w: World) {
    WellFormed(w) && AtMostOneActive(w.jobs) && SafeQueue(w)
  }

  /** From w to w' no job became active and no job came back from completion. */
  ghost predicate Calms(w: World, w': World) {
    && w.nextUid <= w'.nextUid
    && forall n | n in w'.jobs ::
      && (Active(w'.jobs[n]) ==> n in w.jobs && Active(w.jobs[n]))
      && (w'.jobs[n].uid < w.nextUid && !IsCompleted(w'.jobs[n].job) ==>
            n in w.jobs && w.jobs[n].uid == w'.jobs[n].uid && !IsCompleted(w.jobs[n].job))
  }

  lemma CalmKeepsSafe(w: World, w': World, p: Pending)
    requires Calms(w, w') && IsSafe(w, p)
    ensures IsSafe(w', p)
  {
  }

  /** A calm step over a part of the queue keeps the invariant. */
  lemma CalmKeepsInvariant(w: World, w': World)
    requires Invariant(w) && WellFormed(w') && Calms(w, w')
    requires w'.queue == w.queue || w'.queue == [] || (w.queue != [] && w'.queue == w.queue[1..])
    ensures Invariant(w')
  {
    forall i | 0 <= i < |w'.queue| ensures IsSafe(w', w'.queue[i]) {
      var k := |w.queue| - |w'.queue| + i;
      assert w'.queue[i] == w.queue[k];
      CalmKeepsSafe(w, w', w.queue[k]);
    }
  }

  /** The one activating call: afterwards its job is the only one that may be active,
      and no other call of the queue activates. */
  lemma ActivationKeepsInvariant(w: World, at: Instant)
    requires Invariant(w) && w.queue != [] && Activates(w.queue[0]) && Accepts(w.jobs, w.queue[0])
    ensures Invariant(AfterCall(w, at))
  {
    var w' := AfterCall(w, at);
    var n := w.queue[0].call.job.name;
    assert IsSafe(w, w.queue[0]);
    if !(n in w.jobs && IsCompleted(w.jobs[n].job)) {
      assert NoneActiveBut(w.jobs, n);
      assert NoneActiveBut(w'.jobs, n);
    }
    forall i | 0 <= i < |w'.queue| ensures IsSafe(w', w'.queue[i]) && !Activates(w'.queue[i]) {
      assert w'.queue[i] == w.queue[i + 1];
      assert IsSafe(w, w.queue[i + 1]);
    }
  }

  /** Changing one job, or adding one, is calm when it makes nothing active and
      brings nothing back from completion. */
  lemma OneJobIsCalm(w: World, n: string, e: Entry, w': World)
    requires WellFormed(w) && w'.jobs == w.jobs[n := e] && w.nextUid <= w'.nextUid
    requires e.job.name == n && e.uid < w'.nextUid && (IsCompleted(e.job) ==> !e.pods)
    requires if n in w.jobs then
        && e.uid == w.jobs[n].uid && (Active(e) ==> Active(w.jobs[n]))
        && (IsCompleted(w.jobs[n].job) ==> IsCompleted(e.job))
      else e.uid == w.nextUid && !Active(e)
    ensures WellFormed(w') && Calms(w, w')
  {
  }

  lemma OtherCallIsCalm(w: World, at: Instant, w': World)
    requires Invariant(w) && Next(w, CallWorks(at), w') && !Activates(w.queue[0])
    ensures WellFormed(w') && Calms(w, w')
  {
    var n := w.queue[0].call.job.name;
    if w'.jobs != w.jobs { OneJobIsCalm(w, n, w'.jobs[n], w'); }
  }

  lemma CallKeepsInvariant(w: World, at: Instant, w': World)
    requires Invariant(w) && Next(w, CallWorks(at), w')
    ensures Invariant(w')
  {
    if Activates(w.queue[0]) {
      ActivationKeepsInvariant(w, at);
    } else {
      OtherCallIsCalm(w, at, w');
      CalmKeepsInvariant(w, w');
    }
  }

  // A decision plans safe calls only

  lemma PlannedCalls(d: Decision, jobs: map<string, Entry>)
    requires d.suspends == []
    ensures var q, a, b := QueueOf(Plan(d), jobs), |d.deletes|, |d.creates|;
      && |q| == a + b + |d.unsuspends|
      && (forall i | 0 <= i < a :: q[i].call.DeleteCall?)
      && (forall i | a <= i < a + b :: q[i].call == CreateCall(d.creates[i - a]))
      && (forall i | a + b <= i < |q| :: q[i].call == UnsuspendCall(d.unsuspends[i - a - b]))
      && forall i | 0 <= i < |q| ::
           q[i].uid == (if q[i].call.job.name in jobs then jobs[q[i].call.job.name].uid else 0)
  {
  }

  /** An unsuspended job is created only when every listed job has completed. */
  lemma CreatesAreSafe(spec: Spec, s: State, now: Instant, enableRecreate: bool, d: Decision)
    requires DistinctNames(s.jobs) && Decide(spec, s, now, enableRecreate) == Ok(d)
    ensures d.suspends == [] && |d.creates| + |d.unsuspends| <= 1
    ensures forall f | f in d.creates :: IsSuspended(f) || AllCompleted(s.jobs)
  {
    if !s.isSuspended {
      var c := Choose(spec, s, now, enableRecreate).value;
      MayUnsuspendIff(s, c);
    }
  }

  /** A job that has not completed is unsuspended only when every other has. */
  lemma UnsuspendsAreSafe(spec: Spec, s: State, now: Instant, enableRecreate: bool, d: Decision)
    requires DistinctNames(s.jobs) && Decide(spec, s, now, enableRecreate) == Ok(d)
    ensures forall x | x in d.unsuspends :: x in s.jobs && (IsCompleted(x) || OnlyOne(s.jobs, x))
  {
    if !s.isSuspended {
      var c := Choose(spec, s, now, enableRecreate).value;
      MayUnsuspendIff(s, c);
    }
  }

  lemma DecisionIsSafe(w: World, w': World, spec: Spec, s: State, now: Instant, enableRecreate: bool)
    requires Invariant(w) && Next(w, TakesDecision(spec, s, now, enableRecreate), w')
    ensures Invariant(w')
  {
    var d := Decide(spec, s, now, enableRecreate).value;
    CreatesAreSafe(spec, s, now, enableRecreate, d);
    UnsuspendsAreSafe(spec, s, now, enableRecreate, d);
    PlannedCalls(d, w.jobs);
    forall n | n in w.jobs ensures w.jobs[n].job in s.jobs {}
    forall i | 0 <= i < |w'.queue| ensures IsSafe(w', w'.queue[i]) {
      var p := w'.queue[i];
      match p.call
      case CreateCall(j) => assert j in d.creates;
      case UnsuspendCall(x) => assert x in d.unsuspends;
      case _ =>
    }
  }

  // Every run

  lemma EnvironmentIsCalm(w: World, step: Step, w': World)
    requires Invariant(w) && Next(w, step, w') && !step.TakesDecision? && !step.CallWorks?
    ensures Invariant(w')
  {
    CalmKeepsInvariant(w, w');
  }

  lemma StepKeepsInvariant(w: World, w': World)
    requires Invariant(w) && CanStep(w, w')
    ensures Invariant(w')
  {
    var step :| Next(w, step, w');
    match step
    case TakesDecision(spec, s, now, enableRecreate) => DecisionIsSafe(w, w', spec, s, now, enableRecreate);
    case CallWorks(at) => CallKeepsInvariant(w, at, w');
    case _ => EnvironmentIsCalm(w, step, w');
  }

  lemma {:induction false} InvariantAlways(run: seq<World>, i: nat)
    requires IsRun(run) && i < |run|
    ensures Invariant(run[i])
  {
    if i > 0 {
      InvariantAlways(run, i - 1);
      StepKeepsInvariant(run[i - 1], run[i]);
    }
  }

  /** In every run, at every moment, at most one job is active, so at most one holds
      any pods. */
  lemma AtMostOneRuns(run: seq<World>, i: nat)
    requires IsRun(run) && i < |run|
    ensures AtMostOneActive(run[i].jobs)
    ensures forall m, n | m in run[i].jobs && n in run[i].jobs && run[i].jobs[m].pods && run[i].jobs[n].pods :: m == n
  {
    InvariantAlways(run, i);
  }
}
