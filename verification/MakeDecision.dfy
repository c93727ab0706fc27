/**
  makeDecision, as it runs: loops over the list of jobs, a chosen job that changes
  hands, and conditions set on the way. A reference to a job is its position in the
  list; a job that is being created comes right after the last.
 */
module MakeDecision {
  import opened Wrappers
  import opened Calendar
  import opened Jobs
  import opened Conditions
  import opened Failures
  import opened Decisions
  import opened ControlledJobs
  import opened DecisionStatus

  method NewState(spec: Spec, jobs: seq<Job>, now: Instant) returns (r: Result<State, Failure>)
    ensures r == BuildState(spec, jobs, now)
  {
    var schedule := ScheduleState.ComputeState(spec.schedule, now);
    match schedule
    case Err(e) => return Err(ScheduleFailure(e));
    case Ok(st) =>
      var allJobs := [];
      for i := 0 to |jobs|
        invariant allJobs == jobs[..i]
      {
        allJobs := allJobs + [jobs[i]];
      }
      var shouldBeRunning := None;
      if st.runPeriodStart != None {
        shouldBeRunning := Some(st.ShouldBeRunning());
      }
      assert allJobs == jobs;
      r := Ok(State(
        spec.suspend == Some(true), shouldBeRunning, st.runPeriodStart, st.lastStop, st.NextEventTime(),
        allJobs, spec.template.hash, spec.recreateOnSpecChange));
  }

  // Setting conditions

  /** SetCondition, as the next of the expected writes. */
  method SetNext(cj: ControlledJob, ctype: ConditionType, status: ConditionStatus, why: Explanation,
                 ghost before: seq<Condition>, ghost written: seq<Write>, ghost expected: seq<Write>)
    returns (ghost writes: seq<Write>)
    requires |written| < |expected| && expected[|written|] == Unclocked(ctype, status, why)
    requires Wrote(before, cj.generation, written, cj.status.conditions, expected[..|written|])
    modifies cj
    ensures |writes| == |written| + 1
    ensures Wrote(before, cj.generation, writes, cj.status.conditions, expected[..|writes|])
    ensures cj.status == old(cj.status).(conditions := cj.status.conditions)
  {
    ghost var middle := cj.status.conditions;
    ghost var w := cj.SetCondition(ctype, status, why);
    WroteAnother(before, cj.generation, written, middle, expected[..|written|], w, expected[|written|]);
    writes := written + [w];
    assert expected[..|writes|] == expected[..|written|] + [expected[|written|]];
  }

  method SetNextFlag(cj: ControlledJob, ctype: ConditionType, flag: bool, whenTrue: Explanation, whenFalse: Explanation,
                     ghost before: seq<Condition>, ghost written: seq<Write>, ghost expected: seq<Write>)
    returns (ghost writes: seq<Write>)
    requires |written| < |expected| && expected[|written|] == FlagWrite(ctype, flag, whenTrue, whenFalse)
    requires Wrote(before, cj.generation, written, cj.status.conditions, expected[..|written|])
    modifies cj
    ensures |writes| == |written| + 1
    ensures Wrote(before, cj.generation, writes, cj.status.conditions, expected[..|writes|])
    ensures cj.status == old(cj.status).(conditions := cj.status.conditions)
  {
    ghost var middle := cj.status.conditions;
    ghost var w := cj.SetConditionBasedOnFlag(ctype, flag, whenTrue, whenFalse);
    WroteAnother(before, cj.generation, written, middle, expected[..|written|], w, expected[|written|]);
    writes := written + [w];
    assert expected[..|writes|] == expected[..|written|] + [expected[|written|]];
  }

  method SetShouldBeRunningStatus(cj: ControlledJob, s: State) returns (ghost writes: seq<Write>)
    modifies cj
    ensures cj.status
      == old(cj.status).(shouldBeRunning := Some(s.Running()), conditions := cj.status.conditions)
    ensures Wrote(old(cj.status.conditions), cj.generation, writes, cj.status.conditions, [ShouldBeRunningWrite(s)])
  {
    var status, why := Unknown, NoStartEvent;
    match s.shouldBeRunning {
      case Some(flag) =>
        cj.status := cj.status.(shouldBeRunning := Some(flag));
        if flag {
          status, why := True, InsideRunPeriod;
        } else {
          status, why := False, OutsideRunPeriod;
        }
      case None =>
        cj.status := cj.status.(shouldBeRunning := Some(false));
    }
    writes := SetNext(cj, ConditionType.ShouldBeRunning, status, why, cj.status.conditions, [], [ShouldBeRunningWrite(s)]);
  }

  method SetConditionIfTrueForAnyJob(cj: ControlledJob, ctype: ConditionType, jobs: seq<Job>, test: Job -> bool,
                                     whenTrue: Explanation, whenFalse: Explanation, ghost before: seq<Condition>,
                                     ghost written: seq<Write>, ghost expected: seq<Write>)
    returns (ghost writes: seq<Write>)
    requires |written| < |expected|
    requires expected[|written|] == FlagWrite(ctype, exists j | j in jobs :: test(j), whenTrue, whenFalse)
    requires Wrote(before, cj.generation, written, cj.status.conditions, expected[..|written|])
    modifies cj
    ensures |writes| == |written| + 1
    ensures Wrote(before, cj.generation, writes, cj.status.conditions, expected[..|writes|])
    ensures cj.status == old(cj.status).(conditions := cj.status.conditions)
  {
    var conditionIsTrue := false;
    for i := 0 to |jobs|
      invariant !conditionIsTrue && forall k | 0 <= k < i :: !test(jobs[k])
    {
      if test(jobs[i]) {
        conditionIsTrue := true;
        break;
      }
    }
    writes := SetNextFlag(cj, ctype, conditionIsTrue, whenTrue, whenFalse, before, written, expected);
  }

  method SetConditionsForAllJobs(cj: ControlledJob, jobs: seq<Job>) returns (ghost writes: seq<Write>)
    modifies cj
    ensures cj.status == old(cj.status).(conditions := cj.status.conditions)
    ensures Wrote(old(cj.status.conditions), cj.generation, writes, cj.status.conditions, AllJobsWrites(jobs))
  {
    ghost var before, expected := cj.status.conditions, AllJobsWrites(jobs);
    if |jobs| == 0 {
      writes := SetNext(cj, JobManuallyScheduled, Unknown, NoCurrentJob, before, [], expected);
      writes := SetNext(cj, JobBeingDeleted, Unknown, NoCurrentJob, before, writes, expected);
    } else {
      writes := SetConditionIfTrueForAnyJob(cj, JobManuallyScheduled, jobs, IsManuallyScheduled,
                                            CreatedByUser, NoManuallyScheduledJobs, before, [], expected);
      writes := SetConditionIfTrueForAnyJob(cj, JobBeingDeleted, jobs, IsBeingDeleted,
                                            Explanation.BeingDeleted, NotBeingDeleted, before, writes, expected);
    }
    assert expected[..2] == expected;
  }

  method SetNoJobConditions(cj: ControlledJob) returns (ghost writes: seq<Write>)
    modifies cj
    ensures cj.status == old(cj.status).(conditions := cj.status.conditions)
    ensures Wrote(old(cj.status.conditions), cj.generation, writes, cj.status.conditions, JobWrites(None))
  {
    ghost var before, expected := cj.status.conditions, JobWrites(None);
    writes := SetNext(cj, JobExists, False, NoCurrentJob, before, [], expected);
    writes := SetNext(cj, JobRunning, Unknown, NoCurrentJob, before, writes, expected);
    writes := SetNext(cj, JobComplete, Unknown, NoCurrentJob, before, writes, expected);
    writes := SetNext(cj, JobFailed, Unknown, NoCurrentJob, before, writes, expected);
    writes := SetNext(cj, JobSuspended, Unknown, NoCurrentJob, before, writes, expected);
    writes := SetNext(cj, JobStoppedByUser, Unknown, NoCurrentJob, before, writes, expected);
    assert expected[..6] == expected;
  }

  method RelayCondition(cj: ControlledJob, ctype: ConditionType, seen: bool, relayed: Explanation, unknown: Explanation,
                        ghost before: seq<Condition>, ghost written: seq<Write>, ghost expected: seq<Write>)
    returns (ghost writes: seq<Write>)
    requires |written| < |expected| && expected[|written|] == RelayWrite(ctype, seen, relayed, unknown)
    requires Wrote(before, cj.generation, written, cj.status.conditions, expected[..|written|])
    modifies cj
    ensures |writes| == |written| + 1
    ensures Wrote(before, cj.generation, writes, cj.status.conditions, expected[..|writes|])
    ensures cj.status == old(cj.status).(conditions := cj.status.conditions)
  {
    if seen {
      writes := SetNext(cj, ctype, True, relayed, before, written, expected);
    } else {
      writes := SetNext(cj, ctype, Unknown, unknown, before, written, expected);
    }
  }

  method SetExistence(cj: ControlledJob, j: Job, ghost before: seq<Condition>, ghost expected: seq<Write>)
    returns (ghost writes: seq<Write>)
    requires expected == JobWrites(Some(j)) && before == cj.status.conditions
    modifies cj
    ensures |writes| == 2 && Wrote(before, cj.generation, writes, cj.status.conditions, expected[..2])
    ensures cj.status == old(cj.status).(conditions := cj.status.conditions)
  {
    WroteNothing(before, cj.generation);
    writes := SetNext(cj, JobExists, True, AJobExists, before, [], expected);
    if j.ready.Some? {
      writes := SetNextFlag(cj, JobRunning, IsRunning(j), ReadyCountSufficient, ReadyCountNotSufficient, before, writes, expected);
    } else {
      writes := SetNext(cj, JobRunning, Unknown, NoReadyStatus, before, writes, expected);
    }
  }

  method SetSomeJobConditions(cj: ControlledJob, j: Job) returns (ghost writes: seq<Write>)
    modifies cj
    ensures cj.status == old(cj.status).(conditions := cj.status.conditions)
    ensures Wrote(old(cj.status.conditions), cj.generation, writes, cj.status.conditions, JobWrites(Some(j)))
  {
    ghost var before, expected := cj.status.conditions, JobWrites(Some(j));
    writes := SetExistence(cj, j, before, expected);
    var complete, failed := HasCondition(j, Complete), HasCondition(j, JobConditionType.Failed);
    writes := RelayCondition(cj, JobComplete, complete, CompleteRelayed, CompleteUnknown, before, writes, expected);
    writes := RelayCondition(cj, JobFailed, failed, FailedRelayed, FailedUnknown, before, writes, expected);
    writes := SetNextFlag(cj, JobSuspended, IsSuspended(j), CurrentJobSuspended, CurrentJobNotSuspended, before, writes, expected);
    writes := SetNextFlag(cj, JobStoppedByUser, WasStoppedByTheUser(j), StoppedByUser, NotStoppedByUser, before, writes, expected);
    assert expected[..6] == expected;
  }

  method SetJobConditions(cj: ControlledJob, job: Option<Job>) returns (ghost writes: seq<Write>)
    modifies cj
    ensures cj.status == old(cj.status).(conditions := cj.status.conditions)
    ensures Wrote(old(cj.status.conditions), cj.generation, writes, cj.status.conditions, JobWrites(job))
  {
    match job
    case None => writes := SetNoJobConditions(cj);
    case Some(j) => writes := SetSomeJobConditions(cj, j);
  }

  // Reading the jobs

  method ReadRuns(s: State) returns (maxJobRunId: int, metrics: Option<Job>)
    ensures maxJobRunId == MaxRunId(s.jobs, |s.jobs|) && metrics == MetricsJob(s)
  {
    maxJobRunId, metrics := -1, None;
    for i := 0 to |s.jobs|
      invariant maxJobRunId == MaxRunId(s.jobs, i)
      invariant var best := MetricsIndex(s.jobs, s.desiredHash, i);
        metrics == if best == None then None else Some(s.jobs[best.value])
    {
      var job := s.jobs[i];
      match job.annotations.runId {
        case Reads(runId) =>
          if runId > maxJobRunId { maxJobRunId := runId; }
          if metrics == None || IsBetter(job, metrics.value, s.desiredHash) { metrics := Some(job); }
        case _ =>
      }
    }
  }

  /** The positions of the expired ones, or the others, among the first n jobs. */
  function Positions(jobs: seq<Job>, lastStop: Option<Instant>, expired: bool, n: nat): (r: seq<nat>)
    requires n <= |jobs|
    ensures forall k | 0 <= k < |r| :: r[k] < n
  {
    if n == 0 then []
    else
      var front := Positions(jobs, lastStop, expired, n - 1);
      if IsExpired(jobs[n - 1], lastStop) == expired then front + [n - 1] else front
  }

  /** The running count and names, the two lists, and the best of the current jobs. */
  method SortJobs(s: State)
    returns (running: nat, active: seq<string>, expired: seq<nat>, current: seq<nat>, chosen: Option<nat>)
    ensures running == CountRunning(s.jobs, |s.jobs|) && active == ActiveNames(s.jobs, |s.jobs|)
    ensures expired == Positions(s.jobs, s.lastStop, true, |s.jobs|)
    ensures current == Positions(s.jobs, s.lastStop, false, |s.jobs|)
    ensures chosen == BestIndex(s.jobs, s.lastStop, s.desiredHash, |s.jobs|)
  {
    running, active, expired, current, chosen := 0, [], [], [], None;
    for i := 0 to |s.jobs|
      invariant running == CountRunning(s.jobs, i) && active == ActiveNames(s.jobs, i)
      invariant expired == Positions(s.jobs, s.lastStop, true, i) && current == Positions(s.jobs, s.lastStop, false, i)
      invariant chosen == BestIndex(s.jobs, s.lastStop, s.desiredHash, i)
    {
      var job := s.jobs[i];
      if IsPotentiallyRunning(job) {
        running := running + 1;
        active := active + [job.name];
      }
      if s.lastStop != None {
        if !job.annotations.scheduledAt.Reads? {
          expired := expired + [i];
          continue;
        }
        if job.annotations.scheduledAt.value < s.lastStop.value {
          expired := expired + [i];
          continue;
        }
      }
      current := current + [i];
      if chosen == None || IsBetter(job, s.jobs[chosen.value], s.desiredHash) {
        chosen := Some(i);
      }
    }
  }

  // Choosing the job

  /** Which job may run, if any; holding tells whether a job is chosen at the end,
      failed or not. */
  method ChooseJob(cj: ControlledJob, s: State, now: Instant, enableRecreate: bool, best: Option<nat>, maxJobRunId: int)
    returns (r: Result<Choice, Failure>, holding: bool, ghost writes: seq<Write>)
    requires best == BestIndex(s.jobs, s.lastStop, s.desiredHash, |s.jobs|) && maxJobRunId == MaxRunId(s.jobs, |s.jobs|)
    modifies cj
    ensures r == Choose(cj.spec, s, now, enableRecreate) && holding == EndsWithJob(r)
    ensures cj.status == old(cj.status).(conditions := cj.status.conditions)
    ensures Wrote(old(cj.status.conditions), cj.generation, writes, cj.status.conditions,
                  ChoiceWrites(cj.spec, s, now, enableRecreate))
  {
    ghost var before, expected := cj.status.conditions, [OutOfDateWrite(s, enableRecreate), DeadlineWrite(cj.spec, s, now)];
    WroteNothing(before, cj.generation);
    var chosen := best;
    if !s.Running() && chosen.Some? && !IsManuallyScheduled(s.jobs[chosen.value]) {
      chosen := None;
    }
    assert chosen == Candidate(s);
    var rebuilt, outOfDate, why := RebuildIfOutOfDate(cj.spec, s, enableRecreate, chosen, maxJobRunId);
    if rebuilt.Err? {
      return Err(rebuilt.error), true, [];
    }
    writes := SetNextFlag(cj, OutOfDate, outOfDate, why, why, before, [], expected);
    if s.Running() && chosen == None {
      var exceeded := Decisions.DeadlineExceeded(cj.spec, s.start, now);
      writes := SetNextFlag(cj, ConditionType.StartingDeadlineExceeded, exceeded,
                            Explanation.DeadlineExceeded, DeadlineNotExceeded, before, writes, expected);
      assert expected[..2] == expected;
      if exceeded { return Err(Failure.StartingDeadlineExceeded), false, writes; }
      if s.start == None { return Err(NoRunPeriodStart), false, writes; }
      var job := NewJob(cj.spec.name, cj.spec.template, s.start.value, 0, false, true);
      return Ok(Fresh(job)), true, writes;
    }
    writes := SetNext(cj, ConditionType.StartingDeadlineExceeded, Unknown, NoNewJobRequired, before, writes, expected);
    assert expected[..2] == expected;
    match (rebuilt.value, chosen)
    case (Some(job), _) => r, holding := Ok(Fresh(job)), true;
    case (None, Some(i)) => r, holding := Ok(Existing(i)), true;
    case (None, None) => r, holding := Ok(Nobody), false;
  }

  /** The replacement of a chosen job that must be recreated, and what to say of it. */
  method RebuildIfOutOfDate(spec: Spec, s: State, enableRecreate: bool, chosen: Option<nat>, maxJobRunId: int)
    returns (rebuilt: Result<Option<Job>, Failure>, outOfDate: bool, why: Explanation)
    requires chosen == Candidate(s)
    ensures
      if chosen.Some? && MustRecreate(s.jobs[chosen.value], s, enableRecreate) then
        var job := RecreateJob(s.jobs[chosen.value], spec.name, spec.template, NextInt64(maxJobRunId), true);
        rebuilt == if job == None then Err(CannotBuildJob) else Ok(job)
      else rebuilt == Ok(None)
    ensures rebuilt.Ok? ==> FlagWrite(OutOfDate, outOfDate, why, why) == OutOfDateWrite(s, enableRecreate)
  {
    rebuilt, outOfDate := Ok(None), chosen.Some? && IsOutOfDate(s.jobs[chosen.value], s.desiredHash);
    why := if chosen == None then NoRunningJob else NotOutOfDate;
    if outOfDate {
      var job := s.jobs[chosen.value];
      if !IsPotentiallyRunning(job) || WasStoppedByTheUser(job) {
        why := JobIsNotRunning;
      } else if IsBeingDeleted(job) {
        why := JobIsBeingDeleted;
      } else if !(enableRecreate && s.autoRestart) {
        why := ShouldNotAutoRestart;
      } else {
        var newJob := RecreateJob(job, spec.name, spec.template, NextInt64(maxJobRunId), true);
        rebuilt, outOfDate := if newJob == None then Err(CannotBuildJob) else Ok(newJob), false;
      }
    }
  }

  // Listing what to do

  predicate Goes(job: Job, isChosen: bool, current: bool) {
    !IsBeingDeleted(job) && (current ==> !isChosen && !IsCompleted(job))
  }

  /** The jobs at the given positions that go: the expired ones, or of the current
      ones those that are neither chosen nor completed. */
  function Pick(pool: seq<Job>, positions: seq<nat>, chosen: Option<nat>, current: bool): seq<Job>
    requires forall k | 0 <= k < |positions| :: positions[k] < |pool|
  {
    if positions == [] then []
    else
      var last := positions[|positions| - 1];
      var front := Pick(pool, positions[..|positions| - 1], chosen, current);
      if Goes(pool[last], chosen == Some(last), current) then front + [pool[last]] else front
  }

  method PickDeletes(pool: seq<Job>, positions: seq<nat>, chosen: Option<nat>, current: bool) returns (deletes: seq<Job>)
    requires forall k | 0 <= k < |positions| :: positions[k] < |pool|
    ensures deletes == Pick(pool, positions, chosen, current)
  {
    deletes := [];
    for k := 0 to |positions|
      invariant deletes == Pick(pool, positions[..k], chosen, current)
    {
      assert positions[..k + 1][..k] == positions[..k];
      var job := pool[positions[k]];
      if IsBeingDeleted(job) { continue; }
      if current && (chosen == Some(positions[k]) || IsCompleted(job)) { continue; }
      deletes := deletes + [job];
    }
    assert positions[..|positions|] == positions;
  }

  lemma PickOneMore(pool: seq<Job>, positions: seq<nat>, last: nat, chosen: Option<nat>, current: bool)
    requires last < |pool| && forall k | 0 <= k < |positions| :: positions[k] < |pool|
    ensures var front := Pick(pool, positions, chosen, current);
      Pick(pool, positions + [last], chosen, current)
      == if Goes(pool[last], chosen == Some(last), current) then front + [pool[last]] else front
  {
    assert (positions + [last])[..|positions|] == positions;
  }

  lemma {:induction false} PickedAreExpired(pool: seq<Job>, jobs: seq<Job>, lastStop: Option<Instant>, chosen: Option<nat>, n: nat)
    requires n <= |jobs| && jobs <= pool
    ensures Pick(pool, Positions(jobs, lastStop, true, n), chosen, false) == ExpiredDeletes(jobs, lastStop, n)
  {
    if n > 0 {
      PickedAreExpired(pool, jobs, lastStop, chosen, n - 1);
      if IsExpired(jobs[n - 1], lastStop) {
        PickOneMore(pool, Positions(jobs, lastStop, true, n - 1), n - 1, chosen, false);
      }
    }
  }

  lemma {:induction false} PickedAreOthers(pool: seq<Job>, jobs: seq<Job>, lastStop: Option<Instant>, chosen: Option<nat>, n: nat)
    requires n <= |jobs| && jobs <= pool
    ensures Pick(pool, Positions(jobs, lastStop, false, n), chosen, true) == OtherDeletes(jobs, lastStop, chosen, n)
  {
    if n > 0 {
      PickedAreOthers(pool, jobs, lastStop, chosen, n - 1);
      if IsExpired(jobs[n - 1], lastStop) {
        OneMoreExpired(jobs, lastStop, chosen, n);
      } else {
        OneMoreCurrent(jobs, lastStop, chosen, n);
        PickOneMore(pool, Positions(jobs, lastStop, false, n - 1), n - 1, chosen, true);
      }
    }
  }

  lemma OneMoreExpired(jobs: seq<Job>, lastStop: Option<Instant>, chosen: Option<nat>, n: nat)
    requires 0 < n <= |jobs| && IsExpired(jobs[n - 1], lastStop)
    ensures Positions(jobs, lastStop, false, n) == Positions(jobs, lastStop, false, n - 1)
    ensures OtherDeletes(jobs, lastStop, chosen, n) == OtherDeletes(jobs, lastStop, chosen, n - 1)
  {
  }

  lemma OneMoreCurrent(jobs: seq<Job>, lastStop: Option<Instant>, chosen: Option<nat>, n: nat)
    requires 0 < n <= |jobs| && !IsExpired(jobs[n - 1], lastStop)
    ensures Positions(jobs, lastStop, false, n) == Positions(jobs, lastStop, false, n - 1) + [n - 1]
    ensures var front := OtherDeletes(jobs, lastStop, chosen, n - 1);
      OtherDeletes(jobs, lastStop, chosen, n)
      == if Goes(jobs[n - 1], chosen == Some(n - 1), true) then front + [jobs[n - 1]] else front
  {
  }

  lemma {:induction false} NoneIsKept(jobs: seq<Job>, lastStop: Option<Instant>, n: nat)
    requires n <= |jobs|
    ensures OtherDeletes(jobs, lastStop, Some(|jobs|), n) == OtherDeletes(jobs, lastStop, None, n)
  {
    if n > 0 { NoneIsKept(jobs, lastStop, n - 1); }
  }

  method ListDeletes(s: State, c: Choice, expired: seq<nat>, current: seq<nat>) returns (deletes: seq<Job>)
    requires c.Existing? ==> c.i < |s.jobs|
    requires expired == Positions(s.jobs, s.lastStop, true, |s.jobs|)
    requires current == Positions(s.jobs, s.lastStop, false, |s.jobs|)
    ensures deletes == Finish(s, c).deletes
  {
    var pool, currentJobs, chosen := s.jobs, current, None;
    if c.Existing? { chosen := Some(c.i); }
    PickedAreExpired(s.jobs, s.jobs, s.lastStop, chosen, |s.jobs|);
    PickedAreOthers(s.jobs, s.jobs, s.lastStop, chosen, |s.jobs|);
    if c.Fresh? {
      pool, currentJobs, chosen := s.jobs + [c.job], current + [|s.jobs|], Some(|s.jobs|);
      PickedAreExpired(pool, s.jobs, s.lastStop, chosen, |s.jobs|);
      PickedAreOthers(pool, s.jobs, s.lastStop, chosen, |s.jobs|);
      PickOneMore(pool, current, |s.jobs|, chosen, true);
      NoneIsKept(s.jobs, s.lastStop, |s.jobs|);
    }
    var first := PickDeletes(pool, expired, chosen, false);
    var second := PickDeletes(pool, currentJobs, chosen, true);
    deletes := first + second;
  }

  method Conclude(s: State, c: Choice, running: nat, expired: seq<nat>, current: seq<nat>) returns (d: Decision)
    requires c.Existing? ==> c.i < |s.jobs|
    requires running == CountRunning(s.jobs, |s.jobs|)
    requires expired == Positions(s.jobs, s.lastStop, true, |s.jobs|)
    requires current == Positions(s.jobs, s.lastStop, false, |s.jobs|)
    ensures d == Finish(s, c)
  {
    var deletes := ListDeletes(s, c, expired, current);
    var creates, unsuspends := [], [];
    var potentiallyRunning := running;
    if c.Fresh? {
      creates := [c.job];
      potentiallyRunning := potentiallyRunning + 1;
    }
    var chosenJob := ChosenJob(s, c);
    if potentiallyRunning == 1 && chosenJob.Some? {
      var job := chosenJob.value;
      if IsSuspended(job) && !IsBeingDeleted(job) && !WasStoppedByTheUser(job) {
        if c.Fresh? {
          creates := [job.(suspend := None)];
        } else {
          unsuspends := [job];
        }
      }
    }
    d := Decision(creates, deletes, [], unsuspends, s.nextEvent);
  }

  // The decision

  method DecideWhenActive(cj: ControlledJob, s: State, now: Instant, enableRecreate: bool)
    returns (r: Result<Decision, Failure>, ghost writes: seq<Write>)
    requires !s.isSuspended
    modifies cj
    ensures r == Decide(cj.spec, s, now, enableRecreate)
    ensures cj.status == old(cj.status).(
      conditions := cj.status.conditions, active := ActiveNames(s.jobs, |s.jobs|),
      isRunning := Some(EndsWithJob(Choose(cj.spec, s, now, enableRecreate))))
    ensures Wrote(old(cj.status.conditions), cj.generation, writes, cj.status.conditions,
                  AllJobsWrites(s.jobs) + JobWrites(MetricsJob(s)) + ChoiceWrites(cj.spec, s, now, enableRecreate))
  {
    ghost var c0 := cj.status.conditions;
    var maxJobRunId, metrics := ReadRuns(s);
    ghost var all := SetConditionsForAllJobs(cj, s.jobs);
    ghost var c1 := cj.status.conditions;
    ghost var one := SetJobConditions(cj, metrics);
    ghost var c2 := cj.status.conditions;
    WroteBoth(c0, c1, c2, cj.generation, all, one, AllJobsWrites(s.jobs), JobWrites(metrics));
    var running, active, expired, current, best := SortJobs(s);
    cj.status := cj.status.(active := active);
    var c, holding;
    ghost var choice;
    c, holding, choice := ChooseJob(cj, s, now, enableRecreate, best, maxJobRunId);
    WroteBoth(c0, c2, cj.status.conditions, cj.generation, all + one, choice,
              AllJobsWrites(s.jobs) + JobWrites(metrics), ChoiceWrites(cj.spec, s, now, enableRecreate));
    writes := all + one + choice;
    cj.status := cj.status.(isRunning := Some(holding));
    match c
    case Err(e) => r := Err(e);
    case Ok(chosen) =>
      var d := Conclude(s, chosen, running, expired, current);
      r := Ok(d);
  }

  lemma OneAfterAnother(a: seq<Write>, b: seq<Write>, c: seq<Write>, d: seq<Write>)
    ensures a + (b + c + d) == a + b + c + d
  {
  }

  method DecideFor(cj: ControlledJob, s: State, now: Instant, enableRecreate: bool)
    returns (r: Result<Decision, Failure>, ghost writes: seq<Write>)
    modifies cj
    ensures r == Decide(cj.spec, s, now, enableRecreate)
    ensures cj.status == StatusAfterDecision(old(cj.status), cj.status.conditions, cj.spec, s, now, enableRecreate)
    ensures Wrote(old(cj.status.conditions), cj.generation, writes, cj.status.conditions,
                  DecisionWrites(cj.spec, s, now, enableRecreate))
  {
    ghost var c0 := cj.status.conditions;
    cj.status := cj.status.(isSuspended := Some(s.isSuspended));
    cj.status := cj.status.(lastScheduledStartTime := s.start);
    ghost var first := SetShouldBeRunningStatus(cj, s);
    ghost var expected := [ShouldBeRunningWrite(s), FlagWrite(Suspended, s.isSuspended, SuspendFlagSet, SuspendFlagNotSet)];
    assert expected[..1] == [ShouldBeRunningWrite(s)] && expected[..2] == expected;
    if s.isSuspended {
      writes := SetNext(cj, Suspended, True, SuspendFlagSet, c0, first, expected);
      return Ok(Decision([], s.jobs, [], [], None)), writes;
    }
    first := SetNext(cj, Suspended, False, SuspendFlagNotSet, c0, first, expected);
    ghost var c1 := cj.status.conditions;
    ghost var rest;
    r, rest := DecideWhenActive(cj, s, now, enableRecreate);
    ghost var tail := AllJobsWrites(s.jobs) + JobWrites(MetricsJob(s)) + ChoiceWrites(cj.spec, s, now, enableRecreate);
    WroteBoth(c0, c1, cj.status.conditions, cj.generation, first, rest, expected, tail);
    OneAfterAnother(expected, AllJobsWrites(s.jobs), JobWrites(MetricsJob(s)), ChoiceWrites(cj.spec, s, now, enableRecreate));
    writes := first + rest;
  }

  /** The whole of makeDecision: a schedule that cannot be read leaves the status
      alone; otherwise the decision is Decide's, and every field of the status is
      the one StatusAfterDecision says, with the conditions DecisionWrites lists. */
  method Make(cj: ControlledJob, jobs: seq<Job>, now: Instant, enableRecreate: bool)
    returns (r: Result<Decision, Failure>, ghost writes: seq<Write>)
    modifies cj
    ensures match BuildState(cj.spec, jobs, now)
      case Err(e) => r == Err(e) && writes == [] && cj.status == old(cj.status)
      case Ok(s) =>
        && r == Decide(cj.spec, s, now, enableRecreate)
        && cj.status == StatusAfterDecision(old(cj.status), cj.status.conditions, cj.spec, s, now, enableRecreate)
        && Wrote(old(cj.status.conditions), cj.generation, writes, cj.status.conditions,
                 DecisionWrites(cj.spec, s, now, enableRecreate))
  {
    writes := [];
    var built := NewState(cj.spec, jobs, now);
    match built
    case Err(e) => r := Err(e);
    case Ok(s) => r, writes := DecideFor(cj, s, now, enableRecreate);
  }
}
