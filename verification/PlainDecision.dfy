/**
  The decision in plain terms of the fields of the jobs: when a job is deleted, replaced
  or unsuspended, which job is preferred, and what of a job does not matter.
 */
module PlainDecision {
  import opened Wrappers
  import opened Calendar
  import opened JobNaming
  import opened Jobs
  import opened Decisions
  import opened CandidateOrder

  // What is read of a job

  /** The job reports that it is complete or has failed. */
  ghost predicate Finished(j: Job) {
    exists c | c in j.conditions :: c.status == True && (c.ctype == Complete || c.ctype == JobConditionType.Failed)
  }

  /** The schedule's last stop came after the job's start, or that cannot be read. */
  predicate Outlived(j: Job, lastStop: Option<Instant>) {
    match lastStop
    case None => false
    case Some(stop) => match j.annotations.scheduledAt
      case Reads(start) => start < stop
      case _ => true
  }

  /** The job waits to be started, and not because the user stopped it. */
  predicate Waits(j: Job) { j.suspend == Some(true) && j.annotations.suspendReason != "user-stop" }

  lemma FinishedIsCompleted(j: Job)
    ensures Finished(j) <==> IsCompleted(j)
  {
    if Finished(j) {
      var c :| c in j.conditions && c.status == True && (c.ctype == Complete || c.ctype == JobConditionType.Failed);
      assert c == JobCondition(c.ctype, True);
    }
    if JobCondition(Complete, True) in j.conditions { assert Finished(j); }
    if JobCondition(JobConditionType.Failed, True) in j.conditions { assert Finished(j); }
  }

  // Which job is preferred

  /** A job that is not being deleted is preferred to one that is; among those alike, one
      of the current spec to one that is not; and among those alike, the greater name. */
  lemma PreferenceOrder(a: Job, b: Job, hash: string)
    ensures a.deletionTimestamp == None && b.deletionTimestamp != None ==> IsBetter(a, b, hash)
    ensures (a.deletionTimestamp == None) == (b.deletionTimestamp == None) ==>
      (a.annotations.templateHash == hash && b.annotations.templateHash != hash ==> IsBetter(a, b, hash))
    ensures (a.deletionTimestamp == None) == (b.deletionTimestamp == None) ==>
      (a.annotations.templateHash == hash) == (b.annotations.templateHash == hash) ==>
      (IsBetter(a, b, hash) <==> IsGreater(a.name, b.name))
    ensures IsBetter(a, b, hash) ==> !IsBetter(b, a, hash)
  {
    BetterIsAsymmetric(a, b, hash);
  }

  /** j is current and preferred to every other current job. */
  ghost predicate Preferred(s: State, j: Job) {
    && j in s.jobs && !Outlived(j, s.lastStop)
    && forall k | k in s.jobs && !Outlived(k, s.lastStop) && k != j :: IsBetter(j, k, s.desiredHash)
  }

  lemma PreferredIsBest(s: State, j: Job)
    ensures Preferred(s, j) <==> IsBest(s.jobs, s.lastStop, s.desiredHash, j)
  {
  }

  /** The preferred job, which the schedule or the user wants. */
  ghost predicate Wanted(s: State, j: Job) {
    Preferred(s, j) && (s.shouldBeRunning == Some(true) || j.annotations.manual == Reads(true))
  }

  lemma CandidateIsWanted(s: State, j: Job)
    requires DistinctNames(s.jobs)
    ensures Wanted(s, j) <==> Candidate(s).Some? && s.jobs[Candidate(s).value] == j
  {
    BestIsGreatest(s.jobs, s.lastStop, s.desiredHash);
    PreferredIsBest(s, j);
    if Preferred(s, j) { GreatestIsBest(s.jobs, s.lastStop, s.desiredHash, j); }
  }

  /** The wanted job has another spec than the current one, says so, has not finished,
      was not stopped by the user and is not going already; and jobs are recreated. */
  ghost predicate MakesWay(s: State, enableRecreate: bool, j: Job) {
    && Wanted(s, j) && enableRecreate && s.autoRestart
    && j.annotations.templateHash != "" && j.annotations.templateHash != s.desiredHash
    && !Finished(j) && j.deletionTimestamp == None
    && !(j.suspend == Some(true) && j.annotations.suspendReason == "user-stop")
  }

  lemma MakesWayIff(s: State, enableRecreate: bool, j: Job)
    ensures MakesWay(s, enableRecreate, j) <==> Wanted(s, j) && MustRecreate(j, s, enableRecreate)
  {
    FinishedIsCompleted(j);
  }

  /** The wanted job, unless it makes way for a new one. */
  ghost predicate Stays(s: State, enableRecreate: bool, j: Job) {
    Wanted(s, j) && !MakesWay(s, enableRecreate, j)
  }

  lemma StaysIsKept(spec: Spec, s: State, now: Instant, enableRecreate: bool, c: Choice, j: Job)
    requires DistinctNames(s.jobs) && Choose(spec, s, now, enableRecreate) == Ok(c)
    ensures Stays(s, enableRecreate, j) <==> c.Existing? && s.jobs[c.i] == j
  {
    CandidateIsWanted(s, j);
    MakesWayIff(s, enableRecreate, j);
  }

  // The decision

  /** Deleted is what is not going already and was outlived by its run period, or has
      not finished and does not stay. */
  lemma DeletedIff(spec: Spec, s: State, now: Instant, enableRecreate: bool, d: Decision, j: Job)
    requires DistinctNames(s.jobs) && !s.isSuspended && Decide(spec, s, now, enableRecreate) == Ok(d)
    ensures j in d.deletes <==>
      && j in s.jobs && j.deletionTimestamp == None
      && (Outlived(j, s.lastStop) || (!Finished(j) && !Stays(s, enableRecreate, j)))
  {
    var c := Choose(spec, s, now, enableRecreate).value;
    DeletesAre(s, c, j);
    StaysIsKept(spec, s, now, enableRecreate, c, j);
    FinishedIsCompleted(j);
  }

  /** Exactly one of the jobs has not finished. */
  ghost predicate OneUnfinished(jobs: seq<Job>) {
    exists j :: j in jobs && !Finished(j) && forall k | k in jobs && k != j :: Finished(k)
  }

  lemma OneUnfinishedIff(jobs: seq<Job>)
    ensures OneUnfinished(jobs) <==> exists j :: OnlyOne(jobs, j)
  {
    forall j ensures Finished(j) <==> IsCompleted(j) { FinishedIsCompleted(j); }
    if OneUnfinished(jobs) {
      var j :| j in jobs && !Finished(j) && forall k | k in jobs && k != j :: Finished(k);
      assert OnlyOne(jobs, j);
    }
    if j :| OnlyOne(jobs, j) { assert j in jobs && !Finished(j); }
  }

  /** Unsuspended is the job that stays, if it waits, is not going, and exactly one job
      has not finished. */
  lemma UnsuspendedIff(spec: Spec, s: State, now: Instant, enableRecreate: bool, d: Decision, j: Job)
    requires DistinctNames(s.jobs) && !s.isSuspended && Decide(spec, s, now, enableRecreate) == Ok(d)
    ensures j in d.unsuspends <==>
      Stays(s, enableRecreate, j) && Waits(j) && j.deletionTimestamp == None && OneUnfinished(s.jobs)
    ensures |d.unsuspends| <= 1
  {
    var c := Choose(spec, s, now, enableRecreate).value;
    StaysIsKept(spec, s, now, enableRecreate, c, j);
    MayUnsuspendIff(s, c);
    OneUnfinishedIff(s.jobs);
  }

  /** The one job of a run period, of the current spec and suspended as it was created,
      is started unless it has finished, whatever else it reports. */
  lemma LoneJobStarts(spec: Spec, s: State, now: Instant, enableRecreate: bool, j: Job)
    requires s.jobs == [j] && !s.isSuspended && s.shouldBeRunning == Some(true) && !Outlived(j, s.lastStop)
    requires j.annotations.templateHash == s.desiredHash && Waits(j) && j.deletionTimestamp == None
    ensures Decide(spec, s, now, enableRecreate)
      == Ok(Decision([], [], [], if Finished(j) then [] else [j], s.nextEvent))
  {
    assert s.jobs[0] == j && j in s.jobs;
    CandidateIsWanted(s, j);
    FinishedIsCompleted(j);
    OneJob(s.jobs, s.lastStop);
    assert |s.jobs| == 1 && !IsExpired(s.jobs[0], s.lastStop);
    assert Choose(spec, s, now, enableRecreate) == Ok(Existing(0));
    assert MayUnsuspend(s, Existing(0)) <==> !IsCompleted(j);
    assert Finish(s, Existing(0)).deletes == [];
  }

  lemma OneJob(jobs: seq<Job>, lastStop: Option<Instant>)
    requires |jobs| == 1
    ensures CountRunning(jobs, 1) == if IsCompleted(jobs[0]) then 0 else 1
    ensures !IsExpired(jobs[0], lastStop) ==> ExpiredDeletes(jobs, lastStop, 1) == [] == OtherDeletes(jobs, lastStop, Some(0), 1)
  {
    assert CountRunning(jobs, 0) == 0 && ExpiredDeletes(jobs, lastStop, 0) == [] == OtherDeletes(jobs, lastStop, Some(0), 0);
  }

  /** f has the start of j, a run id that no job has reached, and waits. */
  ghost predicate TakesPlace(s: State, f: Job, j: Job) {
    && f.annotations.scheduledAt == j.annotations.scheduledAt && f.suspend == Some(true)
    && f.annotations.runId.Reads? && IsNextRunId(s.jobs, f.annotations.runId.value)
  }

  /** One more than the greatest readable run id, or 0 if none can be read; after the
      greatest int64 comes the least. */
  ghost predicate IsNextRunId(jobs: seq<Job>, id: int) {
    if Reaches(jobs, MAX_INT64) then id == MIN_INT64
    else id >= 0 && (id > 0 ==> Reaches(jobs, id - 1)) && !Reaches(jobs, id)
  }

  /** Some job has that run id or a greater one. */
  ghost predicate Reaches(jobs: seq<Job>, id: int) {
    exists j | j in jobs :: j.annotations.runId.Reads? && j.annotations.runId.value >= id
  }

  /** As Go reads them. */
  ghost predicate RunIdsFit(jobs: seq<Job>) {
    forall j | j in jobs && j.annotations.runId.Reads? :: IsInt64(j.annotations.runId.value)
  }

  lemma NextRunId(jobs: seq<Job>)
    requires RunIdsFit(jobs)
    ensures IsNextRunId(jobs, NextInt64(MaxRunId(jobs, |jobs|)))
  {
    var m := MaxRunId(jobs, |jobs|);
    MaxRunIdIsGreatest(jobs, |jobs|);
    forall j | j in jobs && j.annotations.runId.Reads? ensures j.annotations.runId.value <= m {
      var i :| 0 <= i < |jobs| && jobs[i] == j;
    }
    if m > -1 {
      var i :| 0 <= i < |jobs| && jobs[i].annotations.runId == Reads(m);
      assert jobs[i] in jobs && Reaches(jobs, m);
    }
  }

  /** For a job that makes way a new one is created, with its start and the run id after
      the greatest. */
  lemma WayIsMade(spec: Spec, s: State, now: Instant, enableRecreate: bool, d: Decision, j: Job)
    requires DistinctNames(s.jobs) && RunIdsFit(s.jobs) && !s.isSuspended && Decide(spec, s, now, enableRecreate) == Ok(d)
    requires MakesWay(s, enableRecreate, j)
    ensures |d.creates| == 1 && TakesPlace(s, d.creates[0], j) && j in d.deletes
  {
    var c := Choose(spec, s, now, enableRecreate).value;
    CandidateIsWanted(s, j);
    MakesWayIff(s, enableRecreate, j);
    NextRunId(s.jobs);
    MayUnsuspendIff(s, c);
    DeletesAre(s, c, j);
  }

  lemma NoneIsWanted(s: State)
    requires DistinctNames(s.jobs) && s.shouldBeRunning == Some(true)
    ensures Candidate(s).None? <==> forall j | j in s.jobs :: Outlived(j, s.lastStop)
  {
    BestIsGreatest(s.jobs, s.lastStop, s.desiredHash);
    assert forall j | j in s.jobs :: Outlived(j, s.lastStop) == IsExpired(j, s.lastStop);
  }

  /** A job is created exactly for one that makes way, or inside the run period when no
      job is current. */
  lemma CreatedIff(spec: Spec, s: State, now: Instant, enableRecreate: bool, d: Decision)
    requires DistinctNames(s.jobs) && !s.isSuspended && Decide(spec, s, now, enableRecreate) == Ok(d)
    ensures d.creates != [] <==>
      || (exists j :: MakesWay(s, enableRecreate, j))
      || (s.shouldBeRunning == Some(true) && forall j | j in s.jobs :: Outlived(j, s.lastStop))
  {
    if s.shouldBeRunning == Some(true) { NoneIsWanted(s); }
    forall j ensures MakesWay(s, enableRecreate, j) <==>
      Candidate(s).Some? && s.jobs[Candidate(s).value] == j && MustRecreate(j, s, enableRecreate)
    {
      CandidateIsWanted(s, j);
      MakesWayIff(s, enableRecreate, j);
    }
    match Candidate(s)
    case None =>
    case Some(i) => assert MakesWay(s, enableRecreate, s.jobs[i]) <==> MustRecreate(s.jobs[i], s, enableRecreate);
  }

  lemma AllFinishedIff(jobs: seq<Job>)
    ensures AllCompleted(jobs) <==> forall j | j in jobs :: Finished(j)
  {
    forall j ensures Finished(j) <==> IsCompleted(j) { FinishedIsCompleted(j); }
  }

  /** The first job of a run period: for its start, with run id 0, and suspended unless
      every job has finished and the template does not say that the user stopped it. */
  ghost predicate IsFirstJob(spec: Spec, s: State, f: Job) {
    && s.start.Some? && f.annotations.scheduledAt == Reads(s.start.value) && f.annotations.runId == Reads(0)
    && f.annotations.manual == spec.template.annotations.manual
    && f.suspend == (if (forall j | j in s.jobs :: Finished(j)) && spec.template.annotations.suspendReason != "user-stop"
                     then None else Some(true))
  }

  /** A decision fails exactly when one should run, none is current and it is too late or
      there is no start, or when a job makes way whose start cannot be read. */
  lemma FailsIff(spec: Spec, s: State, now: Instant, enableRecreate: bool)
    requires DistinctNames(s.jobs) && !s.isSuspended
    ensures Decide(spec, s, now, enableRecreate).Err? <==>
      || (s.shouldBeRunning == Some(true) && (forall j | j in s.jobs :: Outlived(j, s.lastStop))
          && (DeadlineExceeded(spec, s.start, now) || s.start == None))
      || (exists j :: MakesWay(s, enableRecreate, j) && !j.annotations.scheduledAt.Reads?)
  {
    if s.shouldBeRunning == Some(true) { NoneIsWanted(s); }
    forall j ensures MakesWay(s, enableRecreate, j) <==>
      Candidate(s).Some? && s.jobs[Candidate(s).value] == j && MustRecreate(j, s, enableRecreate)
    {
      CandidateIsWanted(s, j);
      MakesWayIff(s, enableRecreate, j);
    }
    match Candidate(s)
    case None =>
    case Some(i) => assert MakesWay(s, enableRecreate, s.jobs[i]) <==> MustRecreate(s.jobs[i], s, enableRecreate);
  }

  /** Inside a run period without a current job a decision in time creates the first. */
  lemma FirstJobIsCreated(spec: Spec, s: State, now: Instant, enableRecreate: bool, d: Decision)
    requires DistinctNames(s.jobs) && !s.isSuspended && Decide(spec, s, now, enableRecreate) == Ok(d)
    requires s.shouldBeRunning == Some(true) && forall j | j in s.jobs :: Outlived(j, s.lastStop)
    ensures |d.creates| == 1 && IsFirstJob(spec, s, d.creates[0])
  {
    NoneIsWanted(s);
    AllFinishedIff(s.jobs);
    MayUnsuspendIff(s, Choose(spec, s, now, enableRecreate).value);
  }

  /** A job runs when it has ready pods, or active ones if it does not tell, and has not
      finished. */
  lemma RunningIff(j: Job)
    ensures IsRunning(j) <==> !Finished(j) && match j.ready
      case Some(n) => n > 0
      case None => j.active > 0
  {
    FinishedIsCompleted(j);
  }
}
