/** What a pass leaves in the history: every call that worked, with its kind and its job. */
module RecordedCalls {
  import opened Wrappers
  import opened Calendar
  import opened Jobs
  import opened ActionHistory
  import opened Failures
  import opened Decisions
  import opened CandidateOrder
  import opened ControlledJobs
  import opened Reconciling

  /** The entry is about the call: what was done, and to which job. */
  predicate IsAbout(a: Action, call: Call) {
    && a.jobName == call.job.name
    && match call
       case DeleteCall(j) => a.kind == "JobStopped" && a.message == "Deleted job: " + j.name
       case CreateCall(j) => a.kind == "JobStarted" && a.message == "Created job: " + j.name
       case SuspendCall(j) => a.kind == "JobSuspended" && a.message == "Suspended job: " + j.name
       case UnsuspendCall(j) => a.kind == "JobUnsuspended" && a.message == "Unsuspended job: " + j.name
  }

  predicate SameKind(a: Call, b: Call) {
    a.DeleteCall? == b.DeleteCall? && a.CreateCall? == b.CreateCall? && a.SuspendCall? == b.SuspendCall?
  }

  /** Each call is of another kind or for another job than the one before it. */
  ghost predicate NoCallRepeats(calls: seq<Call>) {
    forall i | 0 < i < |calls| :: !SameKind(calls[i - 1], calls[i]) || calls[i - 1].job.name != calls[i].job.name
  }

  lemma RecordedIsAbout(recorded: seq<Action>, calls: seq<Call>, i: nat)
    requires RecordedFor(recorded, calls) && i < |calls|
    ensures IsAbout(recorded[i], calls[i])
  {
    assert recorded[i].(timestamp := None) == ActionFor(calls[i]);
  }

  lemma KindsDiffer(a: Action, b: Action, c: Call, d: Call)
    requires IsAbout(a, c) && IsAbout(b, d) && SameFields(a, b)
    ensures SameKind(c, d) && c.job.name == d.job.name
  {
    assert a.kind == b.kind;
    assert "JobStopped"[3] == 'S' && "JobStarted"[5] == 'a' && "JobStopped"[5] == 'o';
    assert |"JobStopped"| == 10 == |"JobStarted"| && |"JobSuspended"| == 12 && |"JobUnsuspended"| == 14;
  }

  lemma NoRepeatsRecorded(recorded: seq<Action>, calls: seq<Call>)
    requires RecordedFor(recorded, calls) && NoCallRepeats(calls)
    ensures NoneRepeats(recorded)
  {
    forall i | 0 < i < |recorded| ensures !SameFields(recorded[i - 1], recorded[i]) {
      RecordedIsAbout(recorded, calls, i - 1);
      RecordedIsAbout(recorded, calls, i);
      if SameFields(recorded[i - 1], recorded[i]) {
        KindsDiffer(recorded[i - 1], recorded[i], calls[i - 1], calls[i]);
      }
    }
  }

  /** The i-th newest entry is about the i-th of the calls from the end. */
  ghost predicate EntryNames(h: History, calls: seq<Call>, i: nat)
    requires i < |calls|
  {
    i < |h.entries| && IsAbout(h.entries[i], calls[|calls| - 1 - i])
  }

  lemma RecordedEntries(h: History, recorded: seq<Action>, calls: seq<Call>)
    requires IsHeaded(h) && |h.entries| <= 16 && RecordedFor(recorded, calls) && |calls| <= 16 && NoCallRepeats(calls)
    ensures forall i | 0 <= i < |calls| :: EntryNames(RecordAll(h, recorded), calls, i)
  {
    NoRepeatsRecorded(recorded, calls);
    AllAreKept(h, recorded);
    forall i | 0 <= i < |calls| ensures EntryNames(RecordAll(h, recorded), calls, i) {
      assert EntryIs(RecordAll(h, recorded), recorded, i);
      RecordedIsAbout(recorded, calls, |calls| - 1 - i);
    }
  }

  // The calls of a decision do not repeat

  lemma {:induction false} ExpiredDistinct(jobs: seq<Job>, lastStop: Option<Instant>, n: nat)
    requires n <= |jobs| && DistinctNames(jobs)
    ensures DistinctNames(ExpiredDeletes(jobs, lastStop, n))
  {
    if n > 0 {
      ExpiredDistinct(jobs, lastStop, n - 1);
      var front := ExpiredDeletes(jobs, lastStop, n - 1);
      forall i | 0 <= i < |front| ensures front[i].name != jobs[n - 1].name {
        ExpiredDeletesAre(jobs, lastStop, n - 1, front[i]);
        var k :| 0 <= k < n - 1 && jobs[k] == front[i];
      }
    }
  }

  lemma {:induction false} OthersDistinct(jobs: seq<Job>, lastStop: Option<Instant>, chosen: Option<nat>, n: nat)
    requires n <= |jobs| && DistinctNames(jobs) && (chosen.Some? ==> chosen.value < |jobs|)
    ensures DistinctNames(OtherDeletes(jobs, lastStop, chosen, n))
  {
    if n > 0 {
      OthersDistinct(jobs, lastStop, chosen, n - 1);
      var front := OtherDeletes(jobs, lastStop, chosen, n - 1);
      forall i | 0 <= i < |front| ensures front[i].name != jobs[n - 1].name {
        OtherDeletesAre(jobs, lastStop, chosen, n - 1, front[i]);
        var k :| 0 <= k < n - 1 && jobs[k] == front[i];
      }
    }
  }

  lemma DifferentLists(jobs: seq<Job>, a: seq<Job>, b: seq<Job>)
    requires DistinctNames(jobs) && DistinctNames(a) && DistinctNames(b)
    requires (forall j | j in a :: j in jobs) && (forall j | j in b :: j in jobs && j !in a)
    ensures DistinctNames(a + b)
  {
    forall i, k | 0 <= i < |a| && 0 <= k < |b| ensures a[i].name != b[k].name {
      assert a[i] in a && b[k] in b;
      var p :| 0 <= p < |jobs| && jobs[p] == a[i];
      var q :| 0 <= q < |jobs| && jobs[q] == b[k];
    }
  }

  lemma DeletesDistinct(s: State, c: Choice)
    requires DistinctNames(s.jobs) && (c.Existing? ==> c.i < |s.jobs|)
    ensures DistinctNames(Finish(s, c).deletes)
  {
    var chosen := if c.Existing? then Some(c.i) else None;
    var a, b := ExpiredDeletes(s.jobs, s.lastStop, |s.jobs|), OtherDeletes(s.jobs, s.lastStop, chosen, |s.jobs|);
    assert s.jobs[..|s.jobs|] == s.jobs;
    forall j ensures (j in a ==> j in s.jobs && IsExpired(j, s.lastStop)) && (j in b ==> j in s.jobs && !IsExpired(j, s.lastStop)) {
      ExpiredDeletesAre(s.jobs, s.lastStop, |s.jobs|, j);
      OtherDeletesAre(s.jobs, s.lastStop, chosen, |s.jobs|, j);
    }
    ExpiredDistinct(s.jobs, s.lastStop, |s.jobs|);
    OthersDistinct(s.jobs, s.lastStop, chosen, |s.jobs|);
    DifferentLists(s.jobs, a, b);
  }

  lemma FewOthers(spec: Spec, s: State, now: Instant, enableRecreate: bool, d: Decision)
    requires DistinctNames(s.jobs) && Decide(spec, s, now, enableRecreate) == Ok(d)
    ensures DistinctNames(d.deletes) && |d.creates| <= 1 && d.suspends == [] && |d.unsuspends| <= 1
  {
    if !s.isSuspended { DeletesDistinct(s, Choose(spec, s, now, enableRecreate).value); }
  }

  lemma PlanDoesNotRepeat(d: Decision)
    requires DistinctNames(d.deletes) && |d.creates| <= 1 && d.suspends == [] && |d.unsuspends| <= 1
    ensures NoCallRepeats(Plan(d))
  {
    var plan, n := Plan(d), |d.deletes|;
    assert plan == Deletes(d.deletes) + Creates(d.creates) + Unsuspends(d.unsuspends);
    forall i | 0 < i < |plan|
      ensures !SameKind(plan[i - 1], plan[i]) || plan[i - 1].job.name != plan[i].job.name
    {
      if i < n {
        assert plan[i - 1] == DeleteCall(d.deletes[i - 1]) && plan[i] == DeleteCall(d.deletes[i]);
      } else if i == n {
        assert plan[i - 1].DeleteCall? && !plan[i].DeleteCall?;
      } else {
        assert |plan| == n + 2 && plan[n].CreateCall? && plan[n + 1].UnsuspendCall?;
      }
    }
  }

  /** Of a reconcile that sends up to 16 calls, all of which work, each call is among
      the newest entries of the saved history, newest first, with its kind and job. */
  lemma PassIsRecorded(x: Round, d: Decision)
    requires Passed(x) && x.trail.plan == Plan(d) && NoCallRepeats(x.trail.plan) && |x.trail.plan| <= 16
    requires AllWork(x.reply, |x.start|, |x.start| + |x.trail.plan|)
    requires IsHeaded(x.before.history) && |x.before.history.entries| <= 16
    ensures forall i | 0 <= i < |x.trail.plan| :: EntryNames(x.saved.history, x.trail.plan, i)
  {
    SuccessesAre(x.reply, |x.start|, |x.trail.plan|, |x.trail.plan|);
    assert x.trail.plan[..|x.trail.plan|] == x.trail.plan;
    RecordedEntries(x.before.history, x.trail.recorded, x.trail.plan);
  }

  /** The i-th newest entry says that the i-th of the jobs from the end was deleted. */
  ghost predicate EntryDeletes(h: History, deleted: seq<Job>, i: nat)
    requires i < |deleted|
  {
    && i < |h.entries| && h.entries[i].kind == "JobStopped"
    && h.entries[i].jobName == deleted[|deleted| - 1 - i].name
  }

  lemma EntriesDelete(h: History, deleted: seq<Job>)
    requires forall i | 0 <= i < |deleted| :: EntryNames(h, Deletes(deleted), i)
    ensures forall i | 0 <= i < |deleted| :: EntryDeletes(h, deleted, i)
  {
    forall i | 0 <= i < |deleted| ensures EntryDeletes(h, deleted, i) { assert EntryNames(h, Deletes(deleted), i); }
  }

  lemma PlansOnlyDeletes(d: Decision)
    requires d.creates == [] && d.suspends == [] && d.unsuspends == []
    ensures Plan(d) == Deletes(d.deletes) && |Plan(d)| == |d.deletes|
  {
  }

  lemma OnlyDeletes(x: Round, d: Decision)
    requires Passed(x) && x.trail.plan == Plan(d) && NoCallRepeats(Plan(d))
    requires d.creates == [] && d.suspends == [] && d.unsuspends == [] && |d.deletes| <= 16
    requires AllWork(x.reply, |x.start|, |x.start| + |d.deletes|)
    requires IsHeaded(x.before.history) && |x.before.history.entries| <= 16
    ensures forall i | 0 <= i < |d.deletes| :: EntryDeletes(x.saved.history, d.deletes, i)
  {
    PlansOnlyDeletes(d);
    PassIsRecorded(x, d);
    EntriesDelete(x.saved.history, d.deletes);
  }

  lemma PlanIsSent(x: Round, s: State, d: Decision)
    requires Reconciled(x) && BuildState(x.q.spec, x.q.jobs, x.q.now) == Ok(s) && x.q.Decision() == Ok(d)
    ensures Passed(x) && x.trail.plan == Plan(d)
    ensures Decide(x.q.spec, s, x.q.now, x.q.enableRecreate) == Ok(d) && s.jobs == x.q.jobs
  {
  }

  /** In particular up to 16 deletes, when nothing else is sent: the newest entries name
      the deleted jobs. */
  lemma DeletesAreNamed(x: Round, s: State, d: Decision)
    requires Reconciled(x) && BuildState(x.q.spec, x.q.jobs, x.q.now) == Ok(s) && DistinctNames(x.q.jobs)
    requires x.q.Decision() == Ok(d) && d.creates == [] && d.unsuspends == [] && |d.deletes| <= 16
    requires AllWork(x.reply, |x.start|, |x.start| + |d.deletes|)
    requires IsHeaded(x.before.history) && |x.before.history.entries| <= 16
    ensures forall i | 0 <= i < |d.deletes| :: EntryDeletes(x.saved.history, d.deletes, i)
  {
    PlanIsSent(x, s, d);
    FewOthers(x.q.spec, s, x.q.now, x.q.enableRecreate, d);
    PlanDoesNotRepeat(d);
    OnlyDeletes(x, d);
  }

  // Failures

  /** A failed reconcile is recorded with the kind of its failed call, or as one of the
      schedule, or of the decision otherwise. */
  lemma FailureHasKind(before: Status, e: Failure, action: Action, after: Status, call: Call, reply: string)
    requires FailureRecorded(before, Some(e), action, after)
    ensures Blames(e, call, reply) ==>
      action.kind == match call
        case DeleteCall(_) => "FailedToDeleteJob"
        case CreateCall(_) => "FailedToCreateJob"
        case SuspendCall(_) => "FailedToSuspendJob"
        case UnsuspendCall(_) => "FailedToUnsuspendJob"
    ensures e.ScheduleFailure? ==> action.kind == "FailedToCalculateSchedule"
    ensures e.StartingDeadlineExceeded? || e.NoRunPeriodStart? || e.CannotBuildJob? ==> action.kind == "FailedToReconcile"
    ensures after.history.mostRecent.Some? && SameFields(after.history.mostRecent.value, action)
  {
  }
}
