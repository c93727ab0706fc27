/**
  What carrying a decision out does to the jobs, and what holds right after: the
  partition into jobs kept and jobs deleted, and what a created job looks like.
 */
module DecisionEffects {
  import opened Wrappers
  import opened Calendar
  import opened JobNaming
  import opened Jobs
  import opened Decisions
  import opened CandidateOrder
  import NearestEvent
  import Cron

  // Carrying out a decision

  predicate Named(j: Job, js: seq<Job>) {
    exists k | k in js :: k.name == j.name
  }

  /** Deleting a job marks it until its pods are gone; unsuspending clears the flag. */
  function ApplyTo(j: Job, d: Decision, at: Instant): Job {
    var k := if Named(j, d.deletes) && !IsBeingDeleted(j) then j.(deletionTimestamp := Some(at)) else j;
    if Named(j, d.unsuspends) then k.(suspend := Some(false)) else k
  }

  function Apply(jobs: seq<Job>, d: Decision, at: Instant): seq<Job> {
    seq(|jobs|, i requires 0 <= i < |jobs| => ApplyTo(jobs[i], d, at)) + d.creates
  }

  /** The cluster accepts the creates: no job of that name exists. */
  ghost predicate NamesFree(jobs: seq<Job>, creates: seq<Job>) {
    forall c, j | c in creates && j in jobs :: c.name != j.name
  }

  lemma NamedIsMember(jobs: seq<Job>, js: seq<Job>, j: Job)
    requires DistinctNames(jobs) && j in jobs && forall k | k in js :: k in jobs
    ensures Named(j, js) <==> j in js
  {
    if k :| k in js && k.name == j.name {
      var a :| 0 <= a < |jobs| && jobs[a] == j;
      var b :| 0 <= b < |jobs| && jobs[b] == k;
      assert a == b;
    }
  }

  /** What a decision does to one job of the list. */
  lemma AppliedJob(s: State, c: Choice, j: Job, at: Instant)
    requires DistinctNames(s.jobs) && j in s.jobs && (c.Existing? ==> c.i < |s.jobs|)
    ensures var k := ApplyTo(j, Finish(s, c), at);
      && k.name == j.name && k.annotations == j.annotations && k.conditions == j.conditions
      && (IsBeingDeleted(k) <==> IsBeingDeleted(j) || ShouldGo(s, c, j))
      && k.suspend == (if MayUnsuspend(s, c) && IsKept(s, c, j) then Some(false) else j.suspend)
  {
    var d := Finish(s, c);
    forall k | k in d.deletes ensures k in s.jobs { DeletesAre(s, c, k); }
    DeletesAre(s, c, j);
    NamedIsMember(s.jobs, d.deletes, j);
    NamedIsMember(s.jobs, d.unsuspends, j);
  }

  lemma AppliedMembers(jobs: seq<Job>, d: Decision, at: Instant, k: Job)
    ensures k in Apply(jobs, d, at) <==> k in d.creates || exists j | j in jobs :: k == ApplyTo(j, d, at)
  {
    var applied := Apply(jobs, d, at);
    if k in applied && k !in d.creates {
      var i :| 0 <= i < |applied| && applied[i] == k;
      assert i < |jobs|;
      assert jobs[i] in jobs && k == ApplyTo(jobs[i], d, at);
    }
    if j :| j in jobs && k == ApplyTo(j, d, at) {
      var i :| 0 <= i < |jobs| && jobs[i] == j;
      assert applied[i] == k;
    }
    if k in d.creates {
      var i :| 0 <= i < |d.creates| && d.creates[i] == k;
      assert applied[|jobs| + i] == k;
    }
  }

  // The start of a run period is not before the last stop

  ghost predicate WellTimed(s: State) {
    s.lastStop.Some? && s.start.Some? ==> s.lastStop.value <= s.start.value
  }

  lemma {:induction false} SearchAheadGoesForward(spec: Cron.SpecSchedule, zone: int, end: Instant, t: Instant)
    ensures var r := Cron.SearchAhead(spec, zone, end, t); r.Some? ==> r.value >= t
    decreases end - t
  {
    if t < end && !Cron.Matches(spec, zone, t) { SearchAheadGoesForward(spec, zone, end, t + 1); }
  }

  lemma NextIsLater(events: seq<NearestEvent.EventSpec>, loc: NearestEvent.Location, t: Instant,
                    filter: NearestEvent.EventFilter)
    requires loc.offset != NearestEvent.MIN_INT32
    requires var r := NearestEvent.Nearest(events, loc, t, NearestEvent.Next, filter); r.Ok? && r.value.Some?
    ensures NearestEvent.Nearest(events, loc, t, NearestEvent.Next, filter).value.value.time > t
  {
    NearestEvent.NearestIsNearestEvent(events, loc, t, NearestEvent.Next, filter);
    var kept := NearestEvent.Considered(events, filter);
    var r := NearestEvent.Nearest(events, loc, t, NearestEvent.Next, filter);
    var time, i := NearestEvent.WitnessIndex(kept, loc, t, NearestEvent.Next, r.value);
    var shifted := t + loc.offset;
    SearchAheadGoesForward(NearestEvent.Schedules(kept)[i], loc.zone, Cron.SearchEnd(loc.zone, shifted), shifted + 1);
  }

  /** Whatever the schedule, the state the decision reads has its run period start
      after its last stop, but for the offset that cannot be taken back. */
  lemma BuiltStateIsWellTimed(spec: Spec, jobs: seq<Job>, now: Instant)
    requires BuildState(spec, jobs, now).Ok? && spec.schedule.offset != NearestEvent.MIN_INT32
    ensures var s := BuildState(spec, jobs, now).value;
      WellTimed(s) && (s.lastStop.Some? && s.start.Some? ==> s.lastStop.value < s.start.value)
  {
    var s := BuildState(spec, jobs, now).value;
    if s.lastStop.Some? && s.start.Some? {
      var loc := NearestEvent.Location(spec.schedule.zone.value, spec.schedule.offset);
      NextIsLater(spec.schedule.events, loc, s.lastStop.value, NearestEvent.IsStart);
    }
  }

  // The partition

  /** Neither completed nor on its way out. */
  predicate IsLive(j: Job) { !IsCompleted(j) && !IsBeingDeleted(j) }

  /** What Choose promises about the job it picks. */
  lemma ChoiceFacts(spec: Spec, s: State, now: Instant, enableRecreate: bool, c: Choice)
    requires DistinctNames(s.jobs) && Choose(spec, s, now, enableRecreate) == Ok(c)
    ensures match c
      case Existing(i) =>
        && i < |s.jobs| && IsBest(s.jobs, s.lastStop, s.desiredHash, s.jobs[i])
        && (s.Running() || IsManuallyScheduled(s.jobs[i])) && !MustRecreate(s.jobs[i], s, enableRecreate)
      case Nobody =>
        && !s.Running()
        && (forall b | IsBest(s.jobs, s.lastStop, s.desiredHash, b) :: !IsManuallyScheduled(b))
      case Fresh(f) =>
        && f.suspend == Some(true) && f.conditions == [] && f.deletionTimestamp == None
        && f.annotations.templateHash == spec.template.hash
        && (s.Running() || IsManuallyScheduled(f))
  {
    BestIsGreatest(s.jobs, s.lastStop, s.desiredHash);
    if c == Nobody {
      forall b | IsBest(s.jobs, s.lastStop, s.desiredHash, b) ensures !IsManuallyScheduled(b) {
        GreatestIsBest(s.jobs, s.lastStop, s.desiredHash, b);
      }
    }
  }

  /** f is the rebuilt best candidate b, which must be recreated. */
  ghost predicate IsRebuilt(spec: Spec, s: State, enableRecreate: bool, b: Job, f: Job) {
    && IsBest(s.jobs, s.lastStop, s.desiredHash, b) && MustRecreate(b, s, enableRecreate)
    && b.annotations.scheduledAt.Reads?
    && f == BuildJob(spec.name, spec.template, b.annotations.scheduledAt.value,
                     NextInt64(MaxRunId(s.jobs, |s.jobs|)), IsManuallyScheduled(b), true)
  }

  /** f starts the run period, for want of a current job. */
  ghost predicate IsStarted(spec: Spec, s: State, f: Job) {
    && s.Running() && s.start.Some? && (forall j | j in s.jobs :: IsExpired(j, s.lastStop))
    && f == BuildJob(spec.name, spec.template, s.start.value, 0, false, true)
  }

  lemma FreshFacts(spec: Spec, s: State, now: Instant, enableRecreate: bool, f: Job)
    requires DistinctNames(s.jobs) && Choose(spec, s, now, enableRecreate) == Ok(Fresh(f))
    ensures (exists b :: IsRebuilt(spec, s, enableRecreate, b, f)) || IsStarted(spec, s, f)
  {
    BestIsGreatest(s.jobs, s.lastStop, s.desiredHash);
    var best := BestIndex(s.jobs, s.lastStop, s.desiredHash, |s.jobs|);
    if Candidate(s).Some? {
      assert IsRebuilt(spec, s, enableRecreate, s.jobs[best.value], f);
    }
  }

  lemma FreshIsNotExpired(spec: Spec, s: State, now: Instant, enableRecreate: bool, f: Job)
    requires DistinctNames(s.jobs) && WellTimed(s) && Choose(spec, s, now, enableRecreate) == Ok(Fresh(f))
    ensures f.annotations.scheduledAt.Reads? && !IsExpired(f, s.lastStop)
  {
    FreshFacts(spec, s, now, enableRecreate, f);
  }

  /** After a decision: expired jobs are on their way out, at most one job is live,
      inside the run period some job is current, and outside it a live job is one
      that was scheduled by hand. */
  lemma Partition(spec: Spec, s: State, now: Instant, enableRecreate: bool, d: Decision, at: Instant)
    requires DistinctNames(s.jobs) && WellTimed(s) && !s.isSuspended && Decide(spec, s, now, enableRecreate) == Ok(d)
    ensures forall j | j in s.jobs && IsExpired(j, s.lastStop) :: IsBeingDeleted(ApplyTo(j, d, at))
    ensures forall a, b | a in Apply(s.jobs, d, at) && b in Apply(s.jobs, d, at) && IsLive(a) && IsLive(b) :: a == b
    ensures s.Running() ==> exists j :: j in Apply(s.jobs, d, at) && !IsExpired(j, s.lastStop)
    ensures !s.Running() ==> forall j | j in Apply(s.jobs, d, at) && IsLive(j) :: IsManuallyScheduled(j)
  {
    var c := Choose(spec, s, now, enableRecreate).value;
    ChoiceFacts(spec, s, now, enableRecreate, c);
    forall j | j in s.jobs && IsExpired(j, s.lastStop) ensures IsBeingDeleted(ApplyTo(j, d, at)) {
      AppliedJob(s, c, j, at);
    }
    forall a | a in Apply(s.jobs, d, at) && IsLive(a)
      ensures if c.Fresh? then a in d.creates else c.Existing? && a == ApplyTo(s.jobs[c.i], d, at)
      ensures !s.Running() ==> IsManuallyScheduled(a)
    {
      LiveIsChosen(s, c, a, at);
      if c.Existing? { AppliedJob(s, c, s.jobs[c.i], at); }
    }
    if c.Existing? {
      AppliedMembers(s.jobs, d, at, ApplyTo(s.jobs[c.i], d, at));
      AppliedJob(s, c, s.jobs[c.i], at);
    } else if c.Fresh? {
      FreshIsNotExpired(spec, s, now, enableRecreate, c.job);
      AppliedMembers(s.jobs, d, at, d.creates[0]);
    }
  }

  lemma LiveIsChosen(s: State, c: Choice, a: Job, at: Instant)
    requires DistinctNames(s.jobs) && (c.Existing? ==> c.i < |s.jobs|)
    requires a in Apply(s.jobs, Finish(s, c), at) && IsLive(a)
    ensures if c.Fresh? then a in Finish(s, c).creates
      else c.Existing? && a == ApplyTo(s.jobs[c.i], Finish(s, c), at)
  {
    var d := Finish(s, c);
    AppliedMembers(s.jobs, d, at, a);
    if a !in d.creates {
      var j :| j in s.jobs && a == ApplyTo(j, d, at);
      AppliedJob(s, c, j, at);
      assert !ShouldGo(s, c, j) && IsKept(s, c, j);
    }
  }

  // Created jobs

  /** The job is named by its own readable annotations. */
  predicate IsSelfNamed(spec: Spec, j: Job) {
    && j.annotations.scheduledAt.Reads? && j.annotations.runId.Reads?
    && j.name == JobName(spec.name, j.annotations.scheduledAt.value, j.annotations.runId.value)
  }

  /** f replaces the best current job, which goes: same scheduled time, manual as the
      old job or the template is, the next run id, and suspended until the old one
      is gone. */
  ghost predicate Replaces(spec: Spec, s: State, d: Decision, f: Job) {
    && IsSuspended(f) && f.annotations.runId == Reads(NextInt64(MaxRunId(s.jobs, |s.jobs|)))
    && exists b :: IsBest(s.jobs, s.lastStop, s.desiredHash, b) && b in d.deletes
         && f.annotations.scheduledAt == b.annotations.scheduledAt
         && (IsManuallyScheduled(f) <==> IsManuallyScheduled(b) || spec.template.annotations.manual == Reads(true))
  }

  /** f is the first job of the run period: scheduled at its start, run id 0, and
      suspended as long as any job has not completed, or if the template says that
      the user stopped it. */
  ghost predicate IsFirst(spec: Spec, s: State, f: Job) {
    && s.Running() && s.start.Some? && f.annotations.scheduledAt == Reads(s.start.value)
    && f.annotations.runId == Reads(0)
    && (IsManuallyScheduled(f) <==> spec.template.annotations.manual == Reads(true))
    && (IsSuspended(f) <==> !AllCompleted(s.jobs) || spec.template.annotations.suspendReason == USER_STOP)
  }

  lemma RebuiltReplaces(spec: Spec, s: State, enableRecreate: bool, c: Choice, b: Job)
    requires DistinctNames(s.jobs) && c.Fresh? && IsRebuilt(spec, s, enableRecreate, b, c.job)
    ensures Replaces(spec, s, Finish(s, c), Finish(s, c).creates[0])
  {
    MayUnsuspendIff(s, c);
    DeletesAre(s, c, b);
  }

  lemma StartedIsFirst(spec: Spec, s: State, c: Choice)
    requires DistinctNames(s.jobs) && c.Fresh? && IsStarted(spec, s, c.job)
    ensures IsFirst(spec, s, Finish(s, c).creates[0])
  {
    MayUnsuspendIff(s, c);
  }

  /** A decision creates at most one job: named by its annotations, not expired, with
      the desired hash; it replaces the best current job, or is the first of the run
      period when there is no current one. */
  lemma CreatedJobs(spec: Spec, s: State, now: Instant, enableRecreate: bool, d: Decision)
    requires DistinctNames(s.jobs) && WellTimed(s) && Decide(spec, s, now, enableRecreate) == Ok(d)
    ensures |d.creates| <= 1
    ensures forall f | f in d.creates ::
      && IsSelfNamed(spec, f) && !IsExpired(f, s.lastStop) && f.annotations.templateHash == spec.template.hash
      && if exists b | b in s.jobs :: !IsExpired(b, s.lastStop) then Replaces(spec, s, d, f) else IsFirst(spec, s, f)
  {
    if !s.isSuspended {
      var c := Choose(spec, s, now, enableRecreate).value;
      if c.Fresh? {
        FreshIsNotExpired(spec, s, now, enableRecreate, c.job);
        FreshFacts(spec, s, now, enableRecreate, c.job);
        if b :| IsRebuilt(spec, s, enableRecreate, b, c.job) {
          RebuiltReplaces(spec, s, enableRecreate, c, b);
        } else {
          StartedIsFirst(spec, s, c);
        }
      }
    }
  }

  /** The run ids have reached the greatest int64, and the id that follows by wrapping
      around was used for the start of f. */
  ghost predicate WrapsOnto(spec: Spec, s: State, f: Job) {
    && MaxRunId(s.jobs, |s.jobs|) == MAX_INT64
    && exists j | j in s.jobs :: IsSelfNamed(spec, j)
         && j.annotations.scheduledAt == f.annotations.scheduledAt && j.annotations.runId == Reads(MIN_INT64)
  }

  /** A created name is taken by a self-named job exactly when the run ids wrap onto
      one that was used. */
  lemma CreatedNameIsFresh(spec: Spec, s: State, now: Instant, enableRecreate: bool, d: Decision, f: Job)
    requires DistinctNames(s.jobs) && WellTimed(s) && Decide(spec, s, now, enableRecreate) == Ok(d) && f in d.creates
    ensures (exists j | j in s.jobs :: IsSelfNamed(spec, j) && j.name == f.name) <==> WrapsOnto(spec, s, f)
  {
    var c := Choose(spec, s, now, enableRecreate).value;
    assert c.Fresh? && f.annotations == c.job.annotations && f.name == c.job.name;
    FreshFacts(spec, s, now, enableRecreate, c.job);
    FreshIsNotExpired(spec, s, now, enableRecreate, c.job);
    MaxRunIdIsGreatest(s.jobs, |s.jobs|);
    var time, id := f.annotations.scheduledAt.value, f.annotations.runId.value;
    forall j | j in s.jobs && IsSelfNamed(spec, j)
      ensures j.name == f.name <==> j.annotations.scheduledAt == Reads(time) && j.annotations.runId == Reads(id)
      ensures j.annotations.scheduledAt == Reads(time) ==> !IsExpired(j, s.lastStop)
      ensures j.annotations.runId.value <= MaxRunId(s.jobs, |s.jobs|)
    {
      if j.name == f.name {
        JobNameDeterminesRun(spec.name, time, id, j.annotations.scheduledAt.value, j.annotations.runId.value);
      }
    }
  }

  ghost predicate AllSelfNamed(spec: Spec, jobs: seq<Job>) {
    forall j | j in jobs :: IsSelfNamed(spec, j)
  }

  /** Among jobs named by their annotations, the cluster accepts what a decision
      creates exactly when the run ids do not wrap onto one that was used. */
  lemma NamesFreeIff(spec: Spec, s: State, now: Instant, enableRecreate: bool, d: Decision)
    requires DistinctNames(s.jobs) && WellTimed(s) && Decide(spec, s, now, enableRecreate) == Ok(d)
    requires AllSelfNamed(spec, s.jobs)
    ensures NamesFree(s.jobs, d.creates) <==> forall f | f in d.creates :: !WrapsOnto(spec, s, f)
  {
    forall f | f in d.creates
      ensures (exists j | j in s.jobs :: IsSelfNamed(spec, j) && j.name == f.name) <==> WrapsOnto(spec, s, f)
    {
      CreatedNameIsFresh(spec, s, now, enableRecreate, d, f);
    }
  }

  // The suspended ControlledJob

  /** While the ControlledJob is suspended every job goes, and nothing else is done:
      no create, no unsuspend, and no requeue. */
  lemma SuspendedDeletesEverything(spec: Spec, s: State, now: Instant, enableRecreate: bool, at: Instant)
    requires DistinctNames(s.jobs) && s.isSuspended
    ensures var r := Decide(spec, s, now, enableRecreate);
      && r.Ok? && r.value.creates == [] && r.value.unsuspends == [] && r.value.requeueAt == None
      && |Apply(s.jobs, r.value, at)| == |s.jobs|
      && forall k | k in Apply(s.jobs, r.value, at) :: IsBeingDeleted(k)
  {
    var d := Decide(spec, s, now, enableRecreate).value;
    forall k | k in Apply(s.jobs, d, at) ensures IsBeingDeleted(k) {
      AppliedMembers(s.jobs, d, at, k);
      var j :| j in s.jobs && k == ApplyTo(j, d, at);
      NamedIsMember(s.jobs, d.deletes, j);
    }
  }

  // The starting deadline

  /** What a starting deadline means: it is set, to at least a second, and has passed
      since the start. */
  predicate IsTooLate(deadline: Option<int>, start: Option<Instant>, now: Instant) {
    deadline.Some? && deadline.value > 0 && start.Some? && now > start.value + deadline.value
  }

  /** The deadline means that for every start and every now, exactly when there is none
      or its nanoseconds fit into an int64. */
  lemma DeadlineExactIff(spec: Spec)
    requires var deadline := spec.startingDeadlineSeconds; deadline.Some? ==> IsInt64(deadline.value)
    ensures (forall start, now :: DeadlineExceeded(spec, start, now) <==> IsTooLate(spec.startingDeadlineSeconds, start, now))
      <==> (spec.startingDeadlineSeconds.Some? ==> spec.startingDeadlineSeconds.value * 1_000_000_000 <= MAX_INT64)
  {
    if spec.startingDeadlineSeconds.Some? && spec.startingDeadlineSeconds.value > 0 {
      var seconds := spec.startingDeadlineSeconds.value;
      if seconds * 1_000_000_000 <= MAX_INT64 {
        NoWrap(seconds * 1_000_000_000);
      } else {
        assert SecondsToDuration(seconds) <= MAX_INT64;
        assert DeadlineExceeded(spec, Some(0), seconds) && !IsTooLate(Some(seconds), Some(0), seconds);
      }
    }
  }

  /** Above that it can mean anything: a deadline of 292 years is over before the start,
      and one of 584 years a second after it. */
  lemma DeadlinesWrap(spec: Spec, start: Instant)
    ensures spec.startingDeadlineSeconds == Some(9_223_372_037) ==> DeadlineExceeded(spec, Some(start), start - 1)
    ensures spec.startingDeadlineSeconds == Some(18_446_744_074) ==>
      !DeadlineExceeded(spec, Some(start), start) && DeadlineExceeded(spec, Some(start), start + 1)
  {
    assert SecondsToDuration(9_223_372_037) == 9_223_372_037_000_000_000 - 0x1_0000_0000_0000_0000;
    assert SecondsToDuration(18_446_744_074) == 18_446_744_074_000_000_000 - 0x1_0000_0000_0000_0000;
  }

  lemma NoWrap(x: int)
    requires MIN_INT64 <= x <= MAX_INT64
    ensures (x - MIN_INT64) % 0x1_0000_0000_0000_0000 + MIN_INT64 == x
  {
  }
}
