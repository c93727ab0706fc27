/**
  One reconcile: decide, send the planned calls one by one up to the first that
  fails, summarise the conditions and save the status.
 */
module Reconciling {
  import opened Wrappers
  import opened Calendar
  import opened JobNaming
  import opened Jobs
  import opened Conditions
  import opened ActionHistory
  import opened Failures
  import opened Decisions
  import opened ControlledJobs
  import opened DecisionStatus
  import opened MakeDecision
  import opened OverallConditions

  datatype Call = DeleteCall(job: Job) | CreateCall(job: Job) | SuspendCall(job: Job) | UnsuspendCall(job: Job)

  /** The cluster's API, as the replies it will give: None for success. */
  class Client {
    const reply: nat -> Option<string>
    var calls: seq<Call>

    constructor (reply: nat -> Option<string>)
      ensures this.reply == reply && calls == []
    {
      this.reply, calls := reply, [];
    }

    method Send(call: Call) returns (r: Option<string>)
      modifies this
      ensures calls == old(calls) + [call] && r == reply(|old(calls)|)
    {
      r := reply(|calls|);
      calls := calls + [call];
    }
  }

  function Plan(d: Decision): seq<Call> {
    Deletes(d.deletes) + Creates(d.creates) + Suspends(d.suspends) + Unsuspends(d.unsuspends)
  }

  function Deletes(jobs: seq<Job>): seq<Call> { seq(|jobs|, i requires 0 <= i < |jobs| => DeleteCall(jobs[i])) }

  function Creates(jobs: seq<Job>): seq<Call> { seq(|jobs|, i requires 0 <= i < |jobs| => CreateCall(jobs[i])) }

  function Suspends(jobs: seq<Job>): seq<Call> { seq(|jobs|, i requires 0 <= i < |jobs| => SuspendCall(jobs[i])) }

  function Unsuspends(jobs: seq<Job>): seq<Call> { seq(|jobs|, i requires 0 <= i < |jobs| => UnsuspendCall(jobs[i])) }

  /** Deletes come first, then creates, then suspends, then unsuspends. */
  function TurnOf(call: Call): nat {
    match call
    case DeleteCall(_) => 0
    case CreateCall(_) => 1
    case SuspendCall(_) => 2
    case UnsuspendCall(_) => 3
  }

  lemma PlanTakesTurns(d: Decision)
    ensures forall i, k | 0 <= i < k < |Plan(d)| :: TurnOf(Plan(d)[i]) <= TurnOf(Plan(d)[k])
    ensures |Plan(d)| == |d.deletes| + |d.creates| + |d.suspends| + |d.unsuspends|
  {
    var plan := Plan(d);
    var a, b, c := |d.deletes|, |d.deletes| + |d.creates|, |d.deletes| + |d.creates| + |d.suspends|;
    forall i | 0 <= i < |plan| ensures TurnOf(plan[i]) == if i < a then 0 else if i < b then 1 else if i < c then 2 else 3 {
    }
  }

  function FailureOf(call: Call, reply: string): Failure {
    match call
    case DeleteCall(j) => CannotDelete(j.name, reply)
    case CreateCall(j) => CannotCreate(j.name, reply)
    case SuspendCall(j) => CannotSuspend(j.name, reply)
    case UnsuspendCall(j) => CannotUnsuspend(j.name, reply)
  }

  function FailureType(call: Call): ConditionType {
    match call
    case DeleteCall(_) => FailedToDeleteJob
    case CreateCall(_) => FailedToCreateJob
    case SuspendCall(_) => FailedToSuspendJob
    case UnsuspendCall(_) => FailedToUnsuspendJob
  }

  /** A suspend or unsuspend that works sets its failure condition to true as well. */
  function SuccessWrite(call: Call): Write {
    match call
    case DeleteCall(_) => Unclocked(FailedToDeleteJob, False, DeletedJob)
    case CreateCall(_) => Unclocked(FailedToCreateJob, False, CreatedJob)
    case SuspendCall(_) => Unclocked(FailedToSuspendJob, True, SuspendedJob)
    case UnsuspendCall(_) => Unclocked(FailedToUnsuspendJob, True, UnsuspendedJob)
  }

  function FailureWrite(call: Call, reply: string): Write {
    Unclocked(FailureType(call), True, Explanation.Failed(FailureOf(call, reply)))
  }

  /** The action recorded for a call that worked, at whatever time. */
  function ActionFor(call: Call): Action {
    match call
    case DeleteCall(j) => Action("JobStopped", None, "Deleted job: " + j.name, None, None, j.name)
    case CreateCall(j) => Action("JobStarted", None, "Created job: " + j.name, None, None, j.name)
    case SuspendCall(j) => Action("JobSuspended", None, "Suspended job: " + j.name, None, None, j.name)
    case UnsuspendCall(j) => Action("JobUnsuspended", None, "Unsuspended job: " + j.name, None, None, j.name)
  }

  function SuccessWrites(calls: seq<Call>): seq<Write> {
    seq(|calls|, i requires 0 <= i < |calls| => SuccessWrite(calls[i]))
  }

  ghost predicate RecordedFor(recorded: seq<Action>, calls: seq<Call>) {
    |recorded| == |calls| && forall i | 0 <= i < |calls| :: recorded[i].(timestamp := None) == ActionFor(calls[i])
  }

  /** The replies from one position up to another are all successes. */
  ghost predicate AllWork(reply: nat -> Option<string>, from: nat, end: nat) {
    forall i: nat | from <= i < end :: reply(i) == None
  }

  /** How many of the n calls work before the first that fails. */
  function Successes(reply: nat -> Option<string>, from: nat, n: nat): (k: nat)
    ensures k <= n && AllWork(reply, from, from + k) && (k < n ==> reply(from + k).Some?)
    decreases n
  {
    if n == 0 || reply(from).Some? then 0 else 1 + Successes(reply, from + 1, n - 1)
  }

  lemma SuccessesAre(reply: nat -> Option<string>, from: nat, n: nat, k: nat)
    requires k <= n && AllWork(reply, from, from + k) && (k < n ==> reply(from + k).Some?)
    ensures Successes(reply, from, n) == k
  {
  }

  // Sending the calls

  /** A pass that sends its calls: what it began with and what it planned. */
  datatype Pass = Pass(before: Status, generation: int, reply: nat -> Option<string>, start: seq<Call>, planned: seq<Call>)

  /** How far it has come: the calls that worked, the conditions written and the
      actions recorded. */
  datatype Progress = Progress(done: seq<Call>, writes: seq<Write>, recorded: seq<Action>)

  /** The planned calls done have all worked, with this in the status. */
  ghost predicate Sending(x: Pass, p: Progress, calls: seq<Call>, status: Status) {
    && |p.done| <= |x.planned| && p.done == x.planned[..|p.done|] && calls == x.start + p.done
    && AllWork(x.reply, |x.start|, |x.start| + |p.done|)
    && Wrote(x.before.conditions, x.generation, p.writes, status.conditions, SuccessWrites(p.done))
    && RecordedFor(p.recorded, p.done) && status.history == RecordAll(x.before.history, p.recorded)
    && status == x.before.(conditions := status.conditions, history := status.history)
  }

  /** Those done worked, and the next was sent and failed. */
  ghost predicate Stopped(x: Pass, p: Progress, calls: seq<Call>, status: Status, e: Failure) {
    && |p.done| < |x.planned| && p.done == x.planned[..|p.done|] && calls == x.start + x.planned[..|p.done| + 1]
    && AllWork(x.reply, |x.start|, |x.start| + |p.done|)
    && var reply := x.reply(|x.start| + |p.done|);
    && reply.Some? && e == FailureOf(x.planned[|p.done|], reply.value)
    && Wrote(x.before.conditions, x.generation, p.writes, status.conditions,
             SuccessWrites(p.done) + [FailureWrite(x.planned[|p.done|], reply.value)])
    && RecordedFor(p.recorded, p.done) && status.history == RecordAll(x.before.history, p.recorded)
    && status == x.before.(conditions := status.conditions, history := status.history)
  }

  lemma RecordOneMore(h: History, recorded: seq<Action>, done: seq<Call>, action: Action, call: Call)
    requires RecordedFor(recorded, done) && action.(timestamp := None) == ActionFor(call)
    ensures RecordedFor(recorded + [action], done + [call])
    ensures RecordAll(h, recorded + [action]) == Record(RecordAll(h, recorded), action, true)
  {
    assert (recorded + [action])[..|recorded|] == recorded;
  }

  /** The status after one more call that worked, or that failed. */
  ghost predicate AfterSuccess(status: Status, generation: int, call: Call, w: Write, action: Action, next: Status) {
    && w.(at := 0) == SuccessWrite(call) && action.(timestamp := None) == ActionFor(call)
    && next == status.(
         conditions := Put(status.conditions, generation, w), history := Record(status.history, action, true))
  }

  ghost predicate AfterFailure(status: Status, generation: int, call: Call, reply: string, w: Write, next: Status) {
    && w.(at := 0) == FailureWrite(call, reply)
    && next == status.(conditions := Put(status.conditions, generation, w))
  }

  lemma OneMoreWorks(x: Pass, p: Progress, calls: seq<Call>, status: Status, w: Write, action: Action, next: Status)
    requires Sending(x, p, calls, status) && |p.done| < |x.planned| && x.reply(|x.start| + |p.done|) == None
    requires AfterSuccess(status, x.generation, x.planned[|p.done|], w, action, next)
    ensures Sending(x, Progress(x.planned[..|p.done| + 1], p.writes + [w], p.recorded + [action]),
                    calls + [x.planned[|p.done|]], next)
  {
    var call := x.planned[|p.done|];
    assert x.planned[..|p.done| + 1] == p.done + [call];
    WroteAnother(x.before.conditions, x.generation, p.writes, status.conditions, SuccessWrites(p.done), w, SuccessWrite(call));
    assert SuccessWrites(p.done + [call]) == SuccessWrites(p.done) + [SuccessWrite(call)];
    RecordOneMore(x.before.history, p.recorded, p.done, action, call);
  }

  lemma OneMoreFails(x: Pass, p: Progress, calls: seq<Call>, status: Status, reply: string, w: Write, next: Status)
    requires Sending(x, p, calls, status) && |p.done| < |x.planned| && x.reply(|x.start| + |p.done|) == Some(reply)
    requires AfterFailure(status, x.generation, x.planned[|p.done|], reply, w, next)
    ensures Stopped(x, p.(writes := p.writes + [w]), calls + [x.planned[|p.done|]], next, FailureOf(x.planned[|p.done|], reply))
  {
    var call := x.planned[|p.done|];
    assert x.planned[..|p.done| + 1] == p.done + [call];
    WroteAnother(x.before.conditions, x.generation, p.writes, status.conditions, SuccessWrites(p.done), w, FailureWrite(call, reply));
  }

  /** One call, and what its reply leaves in the status. */
  method SendOne(cj: ControlledJob, client: Client, call: Call)
    returns (failure: Option<string>, ghost w: Write, ghost action: Action)
    modifies cj, client
    ensures client.calls == old(client.calls) + [call] && failure == client.reply(|old(client.calls)|)
    ensures match failure
      case None => AfterSuccess(old(cj.status), cj.generation, call, w, action, cj.status)
      case Some(reply) => AfterFailure(old(cj.status), cj.generation, call, reply, w, cj.status)
  {
    failure := client.Send(call);
    action := ActionFor(call);
    if failure.Some? {
      w := cj.SetCondition(FailureType(call), True, Explanation.Failed(FailureOf(call, failure.value)));
      return;
    }
    var now: Option<Instant> := *;
    var entry := ActionFor(call).(timestamp := now);
    action := entry;
    cj.AddActionHistoryEntry(entry, true);
    var success := SuccessWrite(call);
    w := cj.SetCondition(success.ctype, success.status, success.why);
  }

  method SendNext(cj: ControlledJob, client: Client, call: Call, ghost x: Pass, ghost p: Progress)
    returns (failure: Option<Failure>, ghost q: Progress)
    requires x.generation == cj.generation && x.reply == client.reply && Sending(x, p, client.calls, cj.status)
    requires |p.done| < |x.planned| && call == x.planned[|p.done|]
    modifies cj, client
    ensures match failure
      case None => |q.done| == |p.done| + 1 && Sending(x, q, client.calls, cj.status)
      case Some(e) => Stopped(x, q, client.calls, cj.status, e)
  {
    ghost var status, calls := cj.status, client.calls;
    ghost var w, action;
    var reply;
    reply, w, action := SendOne(cj, client, call);
    match reply
    case None =>
      failure, q := None, Progress(x.planned[..|p.done| + 1], p.writes + [w], p.recorded + [action]);
      OneMoreWorks(x, p, calls, status, w, action, cj.status);
    case Some(text) =>
      failure, q := Some(FailureOf(call, text)), p.(writes := p.writes + [w]);
      OneMoreFails(x, p, calls, status, text, w, cj.status);
  }

  /** Sends planned calls in order and stops at the first that fails. */
  method SendAll(cj: ControlledJob, client: Client, calls: seq<Call>, ghost x: Pass, ghost p: Progress)
    returns (failure: Option<Failure>, ghost q: Progress)
    requires x.generation == cj.generation && x.reply == client.reply && Sending(x, p, client.calls, cj.status)
    requires |p.done| + |calls| <= |x.planned| && calls == x.planned[|p.done|..|p.done| + |calls|]
    modifies cj, client
    ensures match failure
      case None => |q.done| == |p.done| + |calls| && Sending(x, q, client.calls, cj.status)
      case Some(e) => Stopped(x, q, client.calls, cj.status, e)
  {
    q, failure := p, None;
    for i := 0 to |calls|
      invariant |q.done| == |p.done| + i && failure == None && Sending(x, q, client.calls, cj.status)
    {
      failure, q := SendNext(cj, client, calls[i], x, q);
      if failure.Some? { return; }
    }
  }

  // The whole plan

  /** How many of the calls are sent: up to and with the first that fails. */
  function SentCount(calls: seq<Call>, reply: nat -> Option<string>, from: nat): (n: nat)
    ensures n <= |calls|
  {
    var k := Successes(reply, from, |calls|);
    if k < |calls| then k + 1 else k
  }

  function CallFailure(calls: seq<Call>, reply: nat -> Option<string>, from: nat): Option<Failure> {
    var k := Successes(reply, from, |calls|);
    if k < |calls| then Some(FailureOf(calls[k], reply(from + k).value)) else None
  }

  function CallWrites(calls: seq<Call>, reply: nat -> Option<string>, from: nat): seq<Write> {
    var k := Successes(reply, from, |calls|);
    SuccessWrites(calls[..k]) + if k < |calls| then [FailureWrite(calls[k], reply(from + k).value)] else []
  }

  /** The plan was carried out up to the first failure, and the status tells it. */
  ghost predicate CarriedOut(x: Pass, writes: seq<Write>, recorded: seq<Action>, calls: seq<Call>, status: Status,
                             failure: Option<Failure>)
  {
    var from := |x.start|;
    && calls == x.start + x.planned[..SentCount(x.planned, x.reply, from)]
    && failure == CallFailure(x.planned, x.reply, from)
    && Wrote(x.before.conditions, x.generation, writes, status.conditions, CallWrites(x.planned, x.reply, from))
    && RecordedFor(recorded, x.planned[..Successes(x.reply, from, |x.planned|)])
    && status == x.before.(conditions := status.conditions, history := RecordAll(x.before.history, recorded))
  }

  lemma AllSent(x: Pass, p: Progress, calls: seq<Call>, status: Status)
    requires Sending(x, p, calls, status) && |p.done| == |x.planned|
    ensures CarriedOut(x, p.writes, p.recorded, calls, status, None)
  {
    SuccessesAre(x.reply, |x.start|, |x.planned|, |x.planned|);
    assert x.planned[..|x.planned|] == x.planned;
    assert SuccessWrites(x.planned) + [] == SuccessWrites(x.planned);
  }

  lemma SomeSent(x: Pass, p: Progress, calls: seq<Call>, status: Status, e: Failure)
    requires Stopped(x, p, calls, status, e)
    ensures CarriedOut(x, p.writes, p.recorded, calls, status, Some(e))
  {
    SuccessesAre(x.reply, |x.start|, |x.planned|, |p.done|);
  }

  /** The four loops of the source, as one over the calls in their order: deletes,
      then creates, then suspends, then unsuspends. */
  method SendPlan(cj: ControlledJob, client: Client, plan: seq<Call>, ghost x: Pass)
    returns (failure: Option<Failure>, ghost writes: seq<Write>, ghost recorded: seq<Action>)
    requires x == Pass(cj.status, cj.generation, client.reply, client.calls, plan)
    modifies cj, client
    ensures CarriedOut(x, writes, recorded, client.calls, cj.status, failure)
  {
    ghost var p := Progress([], [], []);
    WroteNothing(cj.status.conditions, cj.generation);
    failure, p := SendAll(cj, client, plan, x, p);
    match failure {
      case None => AllSent(x, p, client.calls, cj.status);
      case Some(e) => SomeSent(x, p, client.calls, cj.status, e);
    }
    writes, recorded := p.writes, p.recorded;
  }

  // Results

  datatype PossiblyRetryable = PossiblyRetryable(failure: Failure, isRetryable: bool)

  datatype ReconcileResult = ReconcileResult(requeueAfter: int, error: Option<PossiblyRetryable>)

  /** What the controller runtime is told: a delay, or an error to retry. */
  datatype ControllerResult = ControllerResult(requeueAfter: int, error: Option<Failure>)

  function AsControllerResult(r: ReconcileResult): ControllerResult {
    match r.error
    case None => ControllerResult(r.requeueAfter, None)
    case Some(e) => ControllerResult(0, if e.isRetryable then Some(e.failure) else None)
  }

  /** Go's zero time, in seconds since 1970. */
  const ZERO_TIME := -62_135_596_800

  /** Go's time.Time.Sub, in nanoseconds, which saturates at the int64 limits. */
  function Sub(t: Instant, u: Instant): int {
    var d := (t - u) * 1_000_000_000;
    if d < MIN_INT64 then MIN_INT64 else if d > MAX_INT64 then MAX_INT64 else d
  }

  function RequeueAfter(at: Option<Instant>, now: Instant): int {
    Sub(match at case None => ZERO_TIME case Some(t) => t, now)
  }

  // The reconcile

  /** What makeDecision comes to. */
  function Decided(spec: Spec, jobs: seq<Job>, now: Instant, enableRecreate: bool): Result<Decision, Failure> {
    match BuildState(spec, jobs, now)
    case Err(e) => Err(e)
    case Ok(s) => Decide(spec, s, now, enableRecreate)
  }

  function Planned(r: Result<Decision, Failure>): seq<Call> {
    match r case Err(_) => [] case Ok(d) => Plan(d)
  }

  function PassFailure(r: Result<Decision, Failure>, reply: nat -> Option<string>, from: nat): Option<Failure> {
    match r
    case Err(e) => Some(e)
    case Ok(d) => CallFailure(Plan(d), reply, from)
  }

  /** A decision that fails is not retried, a call that fails is; otherwise the
      reconcile is wanted again at the next event. */
  function ResultOf(r: Result<Decision, Failure>, failure: Option<Failure>, now: Instant): ReconcileResult {
    match (r, failure)
    case (Err(e), _) => ReconcileResult(0, Some(PossiblyRetryable(e, false)))
    case (Ok(_), Some(e)) => ReconcileResult(0, Some(PossiblyRetryable(e, true)))
    case (Ok(d), None) => ReconcileResult(RequeueAfter(d.requeueAt, now), None)
  }

  /** What a reconcile is given: the resource, the jobs listed and the time. */
  datatype Request = Request(spec: Spec, generation: int, jobs: seq<Job>, now: Instant, enableRecreate: bool) {
    function Decision(): Result<Decisions.Decision, Failure> { Decided(spec, jobs, now, enableRecreate) }
  }

  /** The conditions that the decision writes. */
  function ExpectedWrites(q: Request): seq<Write> {
    match BuildState(q.spec, q.jobs, q.now)
    case Err(_) => []
    case Ok(s) => DecisionWrites(q.spec, s, q.now, q.enableRecreate)
  }

  /** The status as the decision leaves it, but for the conditions. */
  function StatusDecided(q: Request, before: Status, conditions: seq<Condition>): Status {
    match BuildState(q.spec, q.jobs, q.now)
    case Err(_) => before.(conditions := conditions)
    case Ok(s) => StatusAfterDecision(before, conditions, q.spec, s, q.now, q.enableRecreate)
  }

  /** The three stages of a pass over the status: the decision, the calls of its plan
      and the summary; and whether it failed. */
  datatype Trail = Trail(
    expected: seq<Write>, decided: Status, decisionWrites: seq<Write>,
    plan: seq<Call>, acted: Status, callWrites: seq<Write>, recorded: seq<Action>,
    failure: Option<Failure>, overallWrites: seq<Write>)

  /** One reconcile, from the status and the calls before it to those after. */
  datatype Round = Round(
    q: Request, reply: nat -> Option<string>, start: seq<Call>, calls: seq<Call>,
    before: Status, trail: Trail, saved: Status)

  /** The decision writes first, then the calls that were sent, up to the first that
      failed, then the summary. */
  ghost predicate Passed(x: Round) {
    && Wrote(x.before.conditions, x.q.generation, x.trail.decisionWrites, x.trail.decided.conditions, x.trail.expected)
    && x.trail.decided.history == x.before.history
    && CarriedOut(Pass(x.trail.decided, x.q.generation, x.reply, x.start, x.trail.plan), x.trail.callWrites,
                  x.trail.recorded, x.calls, x.trail.acted, CallFailure(x.trail.plan, x.reply, |x.start|))
    && x.saved == x.trail.acted.(conditions := x.saved.conditions)
    && Wrote(x.trail.acted.conditions, x.q.generation, x.trail.overallWrites, x.saved.conditions,
             OverallWrites(x.trail.acted.conditions, x.trail.failure))
  }

  /** The decision, its plan and the failure are those of the request. */
  ghost predicate Follows(x: Round) {
    && x.trail.expected == ExpectedWrites(x.q)
    && x.trail.decided == StatusDecided(x.q, x.before, x.trail.decided.conditions)
    && x.trail.plan == Planned(x.q.Decision())
    && x.trail.failure == PassFailure(x.q.Decision(), x.reply, |x.start|)
  }

  ghost predicate Reconciled(x: Round) { Passed(x) && Follows(x) }

  // What the controller is told

  /** The failure is that of the call: it names the job and gives the reply. */
  predicate Blames(e: Failure, call: Call, reply: string) {
    match call
    case DeleteCall(j) => e == CannotDelete(j.name, reply)
    case CreateCall(j) => e == CannotCreate(j.name, reply)
    case SuspendCall(j) => e == CannotSuspend(j.name, reply)
    case UnsuspendCall(j) => e == CannotUnsuspend(j.name, reply)
  }

  /** An error, to be retried, exactly when the last call that was sent failed, and it
      is that call's; neither an error nor a delay when the decision failed, which sends
      no calls; and otherwise the delay until the decision is due again. */
  ghost predicate IsTold(x: Round, told: ControllerResult) {
    var n := |x.calls|;
    && (told.error.Some? <==> n > |x.start| && x.reply(n - 1).Some?)
    && (told.error.Some? ==>
          n > 0 && told.requeueAfter == 0 && Blames(told.error.value, x.calls[n - 1], x.reply(n - 1).value))
    && (x.q.Decision().Err? ==> x.calls == x.start && told == ControllerResult(0, None))
    && (x.q.Decision().Ok? && told.error.None? ==> told.requeueAfter == RequeueAfter(x.q.Decision().value.requeueAt, x.q.now))
  }

  lemma LastCallDecides(start: seq<Call>, plan: seq<Call>, reply: nat -> Option<string>, calls: seq<Call>)
    requires calls == start + plan[..SentCount(plan, reply, |start|)]
    ensures CallFailure(plan, reply, |start|).Some? <==> |calls| > |start| && reply(|calls| - 1).Some?
    ensures CallFailure(plan, reply, |start|).Some? ==>
      |calls| > 0 && Blames(CallFailure(plan, reply, |start|).value, calls[|calls| - 1], reply(|calls| - 1).value)
  {
    var k := Successes(reply, |start|, |plan|);
    if k < |plan| {
      assert |calls| - 1 == |start| + k && calls[|calls| - 1] == plan[k];
    } else if k > 0 {
      assert reply(|start| + k - 1) == None;
    }
  }

  lemma ResultTells(x: Round, d: Result<Decision, Failure>)
    requires d == x.q.Decision()
    requires x.calls == x.start + Planned(d)[..SentCount(Planned(d), x.reply, |x.start|)]
    ensures IsTold(x, AsControllerResult(ResultOf(d, PassFailure(d, x.reply, |x.start|), x.q.now)))
  {
    LastCallDecides(x.start, Planned(d), x.reply, x.calls);
  }

  /** The event a failure is recorded as. */
  function EventOf(e: Failure): string {
    match e
    case ScheduleFailure(_) => "FailedToCalculateSchedule"
    case CannotDelete(_, _) => "FailedToDeleteJob"
    case CannotCreate(_, _) => "FailedToCreateJob"
    case CannotSuspend(_, _) => "FailedToSuspendJob"
    case CannotUnsuspend(_, _) => "FailedToUnsuspendJob"
    case _ => "FailedToReconcile"
  }

  /** The failure is recorded, with whatever time and message, unless there is none. */
  ghost predicate FailureRecorded(before: Status, failure: Option<Failure>, action: Action, after: Status) {
    match failure
    case None => after == before
    case Some(e) =>
      && action == Action(EventOf(e), action.timestamp, action.message, None, None, "")
      && after == before.(history := Record(before.history, action, true))
  }

  method RecordFailedReconcile(cj: ControlledJob, failure: Option<Failure>) returns (ghost action: Action)
    modifies cj
    ensures FailureRecorded(old(cj.status), failure, action, cj.status)
  {
    var time: Option<Instant> := *;
    var message: string := *;
    var entry := Action(if failure == None then "" else EventOf(failure.value), time, message, None, None, "");
    action := entry;
    if failure != None { cj.AddActionHistoryEntry(entry, true); }
  }

  /** A decision that failed plans no calls. */
  lemma NothingPlanned(x: Pass)
    requires x.planned == []
    ensures CarriedOut(x, [], [], x.start, x.before, CallFailure([], x.reply, |x.start|))
  {
    WroteNothing(x.before.conditions, x.generation);
    AllSent(x, Progress([], [], []), x.start, x.before);
  }

  /** The decision, as makeDecision leaves it in the status. */
  method DecideRequest(cj: ControlledJob, q: Request) returns (r: Result<Decision, Failure>, ghost writes: seq<Write>)
    requires q.spec == cj.spec && q.generation == cj.generation
    modifies cj
    ensures r == q.Decision()
    ensures Wrote(old(cj.status.conditions), q.generation, writes, cj.status.conditions, ExpectedWrites(q))
    ensures cj.status == StatusDecided(q, old(cj.status), cj.status.conditions)
  {
    r, writes := Make(cj, q.jobs, q.now, q.enableRecreate);
  }

  /** The calls of the decision, if there is one, and the failure of either. */
  method Act(cj: ControlledJob, client: Client, r: Result<Decision, Failure>)
    returns (failure: Option<Failure>, ghost writes: seq<Write>, ghost recorded: seq<Action>)
    modifies cj, client
    ensures failure == PassFailure(r, client.reply, |old(client.calls)|)
    ensures CarriedOut(Pass(old(cj.status), cj.generation, client.reply, old(client.calls), Planned(r)), writes, recorded,
                       client.calls, cj.status, CallFailure(Planned(r), client.reply, |old(client.calls)|))
  {
    ghost var x := Pass(cj.status, cj.generation, client.reply, client.calls, Planned(r));
    match r
    case Err(e) =>
      failure, writes, recorded := Some(e), [], [];
      NothingPlanned(x);
    case Ok(d) => failure, writes, recorded := SendPlan(cj, client, Plan(d), x);
  }

  method Conclusion(r: Result<Decision, Failure>, failure: Option<Failure>, now: Instant) returns (result: ReconcileResult)
    ensures result == ResultOf(r, failure, now)
  {
    match (r, failure)
    case (Err(e), _) => result := ReconcileResult(0, Some(PossiblyRetryable(e, false)));
    case (Ok(_), Some(e)) => result := ReconcileResult(0, Some(PossiblyRetryable(e, true)));
    case (Ok(d), None) => result := ReconcileResult(RequeueAfter(d.requeueAt, now), None);
  }

  /** The three stages put together. */
  lemma StagesMakeRound(x: Round, r: Result<Decision, Failure>)
    requires r == x.q.Decision() && x.trail.plan == Planned(r) && x.trail.failure == PassFailure(r, x.reply, |x.start|)
    requires x.trail.expected == ExpectedWrites(x.q)
    requires Wrote(x.before.conditions, x.q.generation, x.trail.decisionWrites, x.trail.decided.conditions, x.trail.expected)
    requires x.trail.decided == StatusDecided(x.q, x.before, x.trail.decided.conditions)
    requires CarriedOut(Pass(x.trail.decided, x.q.generation, x.reply, x.start, x.trail.plan), x.trail.callWrites,
                        x.trail.recorded, x.calls, x.trail.acted, CallFailure(x.trail.plan, x.reply, |x.start|))
    requires x.saved == x.trail.acted.(conditions := x.saved.conditions)
    requires Wrote(x.trail.acted.conditions, x.q.generation, x.trail.overallWrites, x.saved.conditions,
                   OverallWrites(x.trail.acted.conditions, x.trail.failure))
    ensures Reconciled(x)
    ensures x.calls == x.start + x.trail.plan[..SentCount(x.trail.plan, x.reply, |x.start|)]
  {
  }

  /** The calls sent are the plan up to the first that fails, and the result follows
      from how that went. The status is saved before a failure is recorded in it. */
  method Reconcile(cj: ControlledJob, jobs: seq<Job>, client: Client, now: Instant, enableRecreate: bool)
    returns (result: ReconcileResult, saved: Status, ghost trail: Trail, ghost failed: Action)
    modifies cj, client
    ensures var q, from := Request(cj.spec, cj.generation, jobs, now, enableRecreate), |old(client.calls)|;
      var plan, failure := Planned(q.Decision()), PassFailure(q.Decision(), client.reply, from);
      && client.calls == old(client.calls) + plan[..SentCount(plan, client.reply, from)]
      && result == ResultOf(q.Decision(), failure, now)
      && Reconciled(Round(q, client.reply, old(client.calls), client.calls, old(cj.status), trail, saved))
      && FailureRecorded(saved, failure, failed, cj.status)
    ensures IsTold(Round(Request(cj.spec, cj.generation, jobs, now, enableRecreate), client.reply, old(client.calls),
                         client.calls, old(cj.status), trail, saved), AsControllerResult(result))
  {
    var q := Request(cj.spec, cj.generation, jobs, now, enableRecreate);
    ghost var decisionWrites, callWrites, recorded, overallWrites;
    var r, failure;
    r, decisionWrites := DecideRequest(cj, q);
    ghost var decided := cj.status;
    failure, callWrites, recorded := Act(cj, client, r);
    result := Conclusion(r, failure, now);
    ghost var acted := cj.status;
    overallWrites := CalculateOverallConditions(cj, failure);
    trail := Trail(ExpectedWrites(q), decided, decisionWrites, Planned(r), acted, callWrites, recorded, failure, overallWrites);
    saved := cj.status;
    ghost var x := Round(q, client.reply, old(client.calls), client.calls, old(cj.status), trail, saved);
    StagesMakeRound(x, r);
    ResultTells(x, r);
    failed := RecordFailedReconcile(cj, failure);
  }
}
