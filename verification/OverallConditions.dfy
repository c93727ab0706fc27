/** The second-order conditions: is the job running, and is that expected? */
module OverallConditions {
  import opened Wrappers
  import opened Jobs
  import opened Conditions
  import opened Failures
  import opened ControlledJobs
  import opened DecisionStatus
  import opened MakeDecision

  /** The one condition of the four that holds, and why. */
  datatype Verdict = Verdict(ctype: ConditionType, why: Explanation)

  function VerdictOf(exists_: bool, failed: bool, shouldBeRunning: bool, manual: bool): Verdict {
    if exists_ && !failed then
      if shouldBeRunning then Verdict(RunningExpectedly, RunningBasedOnSchedule)
      else if manual then Verdict(RunningExpectedly, RunningManually)
      else Verdict(RunningUnexpectedly, IsRunningUnexpectedly)
    else
      if shouldBeRunning then Verdict(NotRunningUnexpectedly, if failed then JobFailedInSchedule else NoJobInSchedule)
      else if manual then Verdict(NotRunningUnexpectedly, if failed then ManualJobFailed else NoManualJob)
      else Verdict(NotRunningExpectedly, IsNotRunningExpectedly)
  }

  function VerdictWrite(ctype: ConditionType, v: Verdict): Write {
    if ctype == v.ctype then Unclocked(ctype, True, v.why) else Unclocked(ctype, Unknown, CannotDetermine)
  }

  function ErrorWrite(failure: Option<Failure>): Write {
    match failure
    case Some(e) => Unclocked(Error, True, Explanation.Failed(e))
    case None => Unclocked(Error, False, NoError)
  }

  /** What is written, from the conditions there are before. */
  function OverallWrites(conditions: seq<Condition>, failure: Option<Failure>): seq<Write> {
    var v := VerdictOf(
      IsTrue(conditions, JobExists), IsTrue(conditions, JobFailed),
      IsTrue(conditions, ConditionType.ShouldBeRunning), IsTrue(conditions, JobManuallyScheduled));
    [ErrorWrite(failure), VerdictWrite(RunningExpectedly, v), VerdictWrite(RunningUnexpectedly, v),
     VerdictWrite(NotRunningExpectedly, v), VerdictWrite(NotRunningUnexpectedly, v)]
  }

  lemma OverallRanked(conditions: seq<Condition>, failure: Option<Failure>)
    ensures RankedWithin(OverallWrites(conditions, failure), 12, 17)
  {
    var writes := OverallWrites(conditions, failure);
    assert |writes| == 5 && writes[0].ctype == Error && writes[1].ctype == RunningExpectedly;
    assert writes[2].ctype == RunningUnexpectedly && writes[3].ctype == NotRunningExpectedly;
    assert writes[4].ctype == NotRunningUnexpectedly;
    assert forall i | 0 <= i < 5 :: Rank(writes[i].ctype) == 12 + i;
  }

  lemma SameTruth(conditions: seq<Condition>, generation: int, w: Write, other: ConditionType)
    requires other != w.ctype
    ensures IsTrue(Put(conditions, generation, w), other) == IsTrue(conditions, other)
  {
    PutFrame(conditions, generation, w, other);
  }

  method CoerceCondition(cj: ControlledJob, ctype: ConditionType) returns (r: bool)
    ensures r == IsTrue(cj.status.conditions, ctype)
  {
    var i := cj.FindCondition(ctype);
    r := i >= 0 && cj.status.conditions[i].status == True;
  }

  /** The four flags the verdict depends on, read after the error condition is set. */
  method ReadFlags(cj: ControlledJob, ghost before: seq<Condition>, ghost w: Write)
    returns (jobExists: bool, jobFailed: bool, shouldBeRunning: bool, manual: bool)
    requires w.ctype == Error && cj.status.conditions == Put(before, cj.generation, w)
    ensures jobExists == IsTrue(before, JobExists) && jobFailed == IsTrue(before, JobFailed)
    ensures shouldBeRunning == IsTrue(before, ConditionType.ShouldBeRunning)
    ensures manual == IsTrue(before, JobManuallyScheduled)
  {
    jobExists := CoerceCondition(cj, JobExists);
    jobFailed := CoerceCondition(cj, JobFailed);
    shouldBeRunning := CoerceCondition(cj, ConditionType.ShouldBeRunning);
    manual := CoerceCondition(cj, JobManuallyScheduled);
    SameTruth(before, cj.generation, w, JobExists);
    SameTruth(before, cj.generation, w, JobFailed);
    SameTruth(before, cj.generation, w, ConditionType.ShouldBeRunning);
    SameTruth(before, cj.generation, w, JobManuallyScheduled);
  }

  method SetVerdict(cj: ControlledJob, ctype: ConditionType, v: Verdict, ghost before: seq<Condition>,
                    ghost written: seq<Write>, ghost expected: seq<Write>)
    returns (ghost writes: seq<Write>)
    requires |written| < |expected| && expected[|written|] == VerdictWrite(ctype, v)
    requires Wrote(before, cj.generation, written, cj.status.conditions, expected[..|written|])
    modifies cj
    ensures |writes| == |written| + 1
    ensures Wrote(before, cj.generation, writes, cj.status.conditions, expected[..|writes|])
    ensures cj.status == old(cj.status).(conditions := cj.status.conditions)
  {
    if v.ctype == ctype {
      writes := SetNext(cj, ctype, True, v.why, before, written, expected);
    } else {
      writes := SetNext(cj, ctype, Unknown, CannotDetermine, before, written, expected);
    }
  }

  method Judge(cj: ControlledJob, ghost before: seq<Condition>, ghost w: Write) returns (v: Verdict)
    requires w.ctype == Error && cj.status.conditions == Put(before, cj.generation, w)
    ensures v == VerdictOf(
      IsTrue(before, JobExists), IsTrue(before, JobFailed),
      IsTrue(before, ConditionType.ShouldBeRunning), IsTrue(before, JobManuallyScheduled))
  {
    var jobExists, jobFailed, shouldBeRunning, manual := ReadFlags(cj, before, w);
    if jobExists && !jobFailed {
      if shouldBeRunning {
        v := Verdict(RunningExpectedly, RunningBasedOnSchedule);
      } else if manual {
        v := Verdict(RunningExpectedly, RunningManually);
      } else {
        v := Verdict(RunningUnexpectedly, IsRunningUnexpectedly);
      }
    } else if shouldBeRunning {
      v := Verdict(NotRunningUnexpectedly, if jobFailed then JobFailedInSchedule else NoJobInSchedule);
    } else if manual {
      v := Verdict(NotRunningUnexpectedly, if jobFailed then ManualJobFailed else NoManualJob);
    } else {
      v := Verdict(NotRunningExpectedly, IsNotRunningExpectedly);
    }
  }

  method SetError(cj: ControlledJob, failure: Option<Failure>) returns (ghost w: Write)
    modifies cj
    ensures w.(at := 0) == ErrorWrite(failure)
    ensures cj.status == old(cj.status).(conditions := Put(old(cj.status.conditions), cj.generation, w))
  {
    match failure
    case Some(e) => w := cj.SetCondition(Error, True, Explanation.Failed(e));
    case None => w := cj.SetCondition(Error, False, NoError);
  }

  method CalculateOverallConditions(cj: ControlledJob, failure: Option<Failure>) returns (ghost writes: seq<Write>)
    modifies cj
    ensures cj.status == old(cj.status).(conditions := cj.status.conditions)
    ensures Wrote(old(cj.status.conditions), cj.generation, writes, cj.status.conditions,
                  OverallWrites(old(cj.status.conditions), failure))
  {
    ghost var before := cj.status.conditions;
    ghost var expected := OverallWrites(before, failure);
    ghost var w := SetError(cj, failure);
    WroteNothing(before, cj.generation);
    WroteAnother(before, cj.generation, [], before, [], w, ErrorWrite(failure));
    writes := [] + [w];
    assert expected[..1] == [] + [ErrorWrite(failure)];
    var v := Judge(cj, before, w);
    writes := SetVerdict(cj, RunningExpectedly, v, before, writes, expected);
    writes := SetVerdict(cj, RunningUnexpectedly, v, before, writes, expected);
    writes := SetVerdict(cj, NotRunningExpectedly, v, before, writes, expected);
    writes := SetVerdict(cj, NotRunningUnexpectedly, v, before, writes, expected);
    assert expected[..5] == expected;
  }

  // What the summary means

  predicate Has(conditions: seq<Condition>, ctype: ConditionType, status: ConditionStatus) {
    var i := Find(conditions, ctype);
    i >= 0 && conditions[i].status == status
  }

  /** The condition of that type is the same, in the same place, or missing in both. */
  predicate SameFor(before: seq<Condition>, after: seq<Condition>, ctype: ConditionType) {
    var i := Find(before, ctype);
    Find(after, ctype) == i && (i >= 0 ==> after[i] == before[i])
  }

  predicate IsSummary(ctype: ConditionType) {
    ctype in {Error, RunningExpectedly, RunningUnexpectedly, NotRunningExpectedly, NotRunningUnexpectedly}
  }

  function TrueIf(b: bool): ConditionStatus { if b then True else Unknown }

  lemma RankedIsOnce(writes: seq<Write>, from: nat, end: nat)
    requires RankedWithin(writes, from, end)
    ensures EachTypeOnce(writes)
  {
  }

  lemma WroteSettles(before: seq<Condition>, generation: int, writes: seq<Write>, after: seq<Condition>,
                     expected: seq<Write>, k: nat)
    requires Wrote(before, generation, writes, after, expected) && EachTypeOnce(expected) && k < |expected|
    ensures Has(after, expected[k].ctype, expected[k].status)
  {
    assert forall i | 0 <= i < |writes| :: writes[i].(at := 0).ctype == writes[i].ctype == expected[i].ctype;
    LastWriteWins(before, generation, writes, k);
    assert writes[k].(at := 0) == expected[k].(at := 0);
  }

  /** Exactly one of the four conditions is true and the other three are unknown,
      picked by whether a job exists that has not failed and whether one is expected;
      the error condition tells the failure, and nothing else is touched. */
  lemma SummarySelectsOne(before: seq<Condition>, generation: int, writes: seq<Write>, after: seq<Condition>,
                          failure: Option<Failure>)
    requires Wrote(before, generation, writes, after, OverallWrites(before, failure))
    ensures var running := IsTrue(before, JobExists) && !IsTrue(before, JobFailed);
      var expected := IsTrue(before, ConditionType.ShouldBeRunning) || IsTrue(before, JobManuallyScheduled);
      && Has(after, RunningExpectedly, TrueIf(running && expected))
      && Has(after, RunningUnexpectedly, TrueIf(running && !expected))
      && Has(after, NotRunningExpectedly, TrueIf(!running && !expected))
      && Has(after, NotRunningUnexpectedly, TrueIf(!running && expected))
    ensures Has(after, Error, if failure.Some? then True else False)
    ensures forall other | !IsSummary(other) :: SameFor(before, after, other)
  {
    var expected := OverallWrites(before, failure);
    OverallRanked(before, failure);
    RankedIsOnce(expected, 12, 17);
    WroteSettles(before, generation, writes, after, expected, 0);
    WroteSettles(before, generation, writes, after, expected, 1);
    WroteSettles(before, generation, writes, after, expected, 2);
    WroteSettles(before, generation, writes, after, expected, 3);
    WroteSettles(before, generation, writes, after, expected, 4);
    OthersUntouched(before, generation, writes, after, failure);
  }

  lemma OthersUntouched(before: seq<Condition>, generation: int, writes: seq<Write>, after: seq<Condition>,
                        failure: Option<Failure>)
    requires Wrote(before, generation, writes, after, OverallWrites(before, failure))
    ensures forall other | !IsSummary(other) :: SameFor(before, after, other)
  {
    var expected := OverallWrites(before, failure);
    assert forall i | 0 <= i < |expected| :: IsSummary(expected[i].ctype);
    forall other | !IsSummary(other) ensures SameFor(before, after, other) {
      forall i | 0 <= i < |writes| ensures writes[i].ctype != other {
        assert writes[i].(at := 0) == expected[i].(at := 0);
      }
      PutAllUntouched(before, generation, writes, other);
    }
  }
}
