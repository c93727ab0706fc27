/** The list of status conditions, used as a map from type to condition. */
module Conditions {
  import opened Wrappers
  import opened Calendar
  import opened Jobs
  import opened Failures

  datatype ConditionType =
    | ShouldBeRunning | Suspended | OutOfDate | JobManuallyScheduled | JobExists | JobRunning
    | JobComplete | JobFailed | JobBeingDeleted | JobSuspended | JobStoppedByUser
    | FailedToCreateJob | FailedToSuspendJob | FailedToUnsuspendJob | FailedToDeleteJob
    | StartingDeadlineExceeded | RunningExpectedly | RunningUnexpectedly
    | NotRunningExpectedly | NotRunningUnexpectedly | Error
    | OtherType(name: string)

  /** One constructor for each fixed pair of reason and message. */
  datatype Explanation =
    | InsideRunPeriod | OutsideRunPeriod | NoStartEvent
    | SuspendFlagSet | SuspendFlagNotSet
    | NoCurrentJob | CreatedByUser | NoManuallyScheduledJobs | BeingDeleted | NotBeingDeleted
    | AJobExists | ReadyCountSufficient | ReadyCountNotSufficient | NoReadyStatus
    | CompleteRelayed | CompleteUnknown | FailedRelayed | FailedUnknown
    | CurrentJobSuspended | CurrentJobNotSuspended | StoppedByUser | NotStoppedByUser
    | NoRunningJob | NotOutOfDate | JobIsNotRunning | JobIsBeingDeleted | ShouldNotAutoRestart
    | DeadlineExceeded | DeadlineNotExceeded | NoNewJobRequired
    | DeletedJob | CreatedJob | SuspendedJob | UnsuspendedJob
    | RunningBasedOnSchedule | RunningManually | IsRunningUnexpectedly | CannotDetermine
    | JobFailedInSchedule | NoJobInSchedule | ManualJobFailed | NoManualJob | IsNotRunningExpectedly
    | NoError | Failed(failure: Failure)

  /** A transition time of None is Go's zero time. */
  datatype Condition = Condition(
    ctype: ConditionType, status: ConditionStatus, transition: Option<Instant>, generation: int, why: Explanation)

  /** The position of the first condition of a type, or -1. */
  function Find(conditions: seq<Condition>, ctype: ConditionType): (i: int)
    ensures -1 <= i < |conditions|
    ensures i >= 0 ==> conditions[i].ctype == ctype
    ensures forall j | 0 <= j < (if i < 0 then |conditions| else i) :: conditions[j].ctype != ctype
  {
    if conditions == [] then -1
    else if conditions[0].ctype == ctype then 0
    else
      var i := Find(conditions[1..], ctype);
      if i < 0 then -1 else i + 1
  }

  /** CoerceConditionToBoolen of the condition found. */
  predicate IsTrue(conditions: seq<Condition>, ctype: ConditionType) {
    var i := Find(conditions, ctype);
    i >= 0 && conditions[i].status == True
  }

  /** One call of SetCondition, with the clock reading it takes. */
  datatype Write = Write(ctype: ConditionType, status: ConditionStatus, why: Explanation, at: Instant)

  function Put(conditions: seq<Condition>, generation: int, w: Write): (r: seq<Condition>)
  {
    var i := Find(conditions, w.ctype);
    if i < 0 then conditions + [Condition(w.ctype, w.status, Some(w.at), generation, w.why)]
    else
      var c := conditions[i];
      var moved :=
        if c.status != w.status || c.transition == None
        then c.(transition := Some(w.at), generation := generation)
        else c;
      conditions[i := moved.(status := w.status, why := w.why)]
  }

  function PutAll(conditions: seq<Condition>, generation: int, writes: seq<Write>): seq<Condition> {
    if writes == [] then conditions
    else Put(PutAll(conditions, generation, writes[..|writes| - 1]), generation, writes[|writes| - 1])
  }

  lemma PutAllOne(conditions: seq<Condition>, generation: int, writes: seq<Write>, w: Write)
    ensures PutAll(conditions, generation, writes + [w]) == Put(PutAll(conditions, generation, writes), generation, w)
  {
    assert (writes + [w])[..|writes|] == writes;
  }

  lemma {:induction false} PutAllConcat(conditions: seq<Condition>, generation: int, a: seq<Write>, b: seq<Write>)
    ensures PutAll(conditions, generation, a + b) == PutAll(PutAll(conditions, generation, a), generation, b)
    decreases |b|
  {
    if b == [] {
      assert a + b == a;
    } else {
      var front := b[..|b| - 1];
      assert a + b == (a + front) + [b[|b| - 1]];
      PutAllOne(conditions, generation, a + front, b[|b| - 1]);
      PutAllConcat(conditions, generation, a, front);
    }
  }

  // A type stays unique in the list

  ghost predicate UniqueTypes(conditions: seq<Condition>) {
    forall i, j | 0 <= i < j < |conditions| :: conditions[i].ctype != conditions[j].ctype
  }

  lemma {:induction false} PutAllKeepsUnique(conditions: seq<Condition>, generation: int, writes: seq<Write>)
    requires UniqueTypes(conditions)
    ensures UniqueTypes(PutAll(conditions, generation, writes))
  {
    if writes != [] { PutAllKeepsUnique(conditions, generation, writes[..|writes| - 1]); }
  }

  // What a pass of writes settles

  /** The condition written is there as written, with a transition time. */
  ghost predicate Settled(conditions: seq<Condition>, w: Write) {
    var i := Find(conditions, w.ctype);
    i >= 0 && conditions[i].status == w.status && conditions[i].why == w.why && conditions[i].transition != None
  }

  ghost predicate EachTypeOnce(writes: seq<Write>) {
    forall i, j | 0 <= i < j < |writes| :: writes[i].ctype != writes[j].ctype
  }

  ghost predicate SameButClock(a: seq<Write>, b: seq<Write>) {
    |a| == |b| && forall i | 0 <= i < |a| :: a[i].(at := 0) == b[i].(at := 0)
  }

  lemma FindIsFirst(conditions: seq<Condition>, ctype: ConditionType, i: int)
    requires 0 <= i < |conditions| && conditions[i].ctype == ctype
    requires forall j | 0 <= j < i :: conditions[j].ctype != ctype
    ensures Find(conditions, ctype) == i
  {
  }

  /** A write touches its own type only. */
  lemma PutFrame(conditions: seq<Condition>, generation: int, w: Write, other: ConditionType)
    requires other != w.ctype
    ensures var r, i := Put(conditions, generation, w), Find(conditions, other);
      Find(r, other) == i && (i >= 0 ==> r[i] == conditions[i])
  {
    var r, i := Put(conditions, generation, w), Find(conditions, other);
    var k := Find(r, other);
    if i >= 0 { FindIsFirst(r, other, i); }
  }

  lemma PutSettles(conditions: seq<Condition>, generation: int, w: Write)
    ensures Settled(Put(conditions, generation, w), w)
  {
    var i := Find(conditions, w.ctype);
    FindIsFirst(Put(conditions, generation, w), w.ctype, if i < 0 then |conditions| else i);
  }

  /** The last write to a type is the one that stays. */
  lemma {:induction false} LastWriteWins(conditions: seq<Condition>, generation: int, writes: seq<Write>, k: nat)
    requires k < |writes| && forall i | k < i < |writes| :: writes[i].ctype != writes[k].ctype
    ensures Settled(PutAll(conditions, generation, writes), writes[k])
  {
    var front, last := writes[..|writes| - 1], writes[|writes| - 1];
    if k < |front| {
      LastWriteWins(conditions, generation, front, k);
      assert front[k] == writes[k];
      PutFrame(PutAll(conditions, generation, front), generation, last, writes[k].ctype);
    } else {
      PutSettles(PutAll(conditions, generation, front), generation, last);
    }
  }

  lemma {:induction false} PutAllUntouched(conditions: seq<Condition>, generation: int, writes: seq<Write>, other: ConditionType)
    requires forall i | 0 <= i < |writes| :: writes[i].ctype != other
    ensures var r, i := PutAll(conditions, generation, writes), Find(conditions, other);
      Find(r, other) == i && (i >= 0 ==> r[i] == conditions[i])
  {
    if writes != [] {
      var front := writes[..|writes| - 1];
      PutAllUntouched(conditions, generation, front, other);
      PutFrame(PutAll(conditions, generation, front), generation, writes[|writes| - 1], other);
    }
  }

  lemma {:induction false} SettledIsFixpoint(conditions: seq<Condition>, generation: int, writes: seq<Write>)
    requires forall k | 0 <= k < |writes| :: Settled(conditions, writes[k])
    ensures PutAll(conditions, generation, writes) == conditions
  {
    if writes != [] { SettledIsFixpoint(conditions, generation, writes[..|writes| - 1]); }
  }

  /** A second pass that writes the same, whatever its clock, changes nothing, as
      long as each type is written once. */
  lemma SecondPassChangesNothing(conditions: seq<Condition>, generation: int, first: seq<Write>, second: seq<Write>)
    requires EachTypeOnce(first) && SameButClock(first, second)
    ensures PutAll(PutAll(conditions, generation, first), generation, second) == PutAll(conditions, generation, first)
  {
    forall k | 0 <= k < |second| ensures Settled(PutAll(conditions, generation, first), second[k]) {
      LastWriteWins(conditions, generation, first, k);
      assert first[k].(at := 0) == second[k].(at := 0);
    }
    SettledIsFixpoint(PutAll(conditions, generation, first), generation, second);
  }

  /** Why once: a pass that wrote one type with two statuses would move its
      transition time on every pass for which the clock has moved. */
  lemma FlippingNeverSettles(conditions: seq<Condition>, generation: int, ctype: ConditionType, why: Explanation,
                             a: ConditionStatus, b: ConditionStatus, t0: Instant, t1: Instant, t2: Instant, t3: Instant)
    requires a != b
    ensures var pass := PutAll(conditions, generation, [Write(ctype, a, why, t0), Write(ctype, b, why, t1)]);
      PutAll(pass, generation, [Write(ctype, a, why, t2), Write(ctype, b, why, t3)]) == pass <==> t1 == t3
  {
    var w0, w1, w2, w3 := Write(ctype, a, why, t0), Write(ctype, b, why, t1), Write(ctype, a, why, t2), Write(ctype, b, why, t3);
    var pass := TwoWrites(conditions, generation, w0, w1);
    var again := TwoWrites(pass, generation, w2, w3);
    if t1 == t3 { FlipsBack(pass, generation, w2, w3); }
  }

  /** Two writes to a condition of that second status change its transition only. */
  lemma FlipsBack(pass: seq<Condition>, generation: int, v: Write, w: Write)
    requires v.ctype == w.ctype && v.status != w.status
    requires var i := Find(pass, w.ctype); i >= 0 && pass[i] == Condition(w.ctype, w.status, Some(w.at), generation, w.why)
    ensures PutAll(pass, generation, [v, w]) == pass
  {
    var i := Find(pass, w.ctype);
    var one := Put(pass, generation, v);
    PutAllOne(pass, generation, [], v);
    PutAllOne(pass, generation, [v], w);
    assert [] + [v] == [v] && [v] + [w] == [v, w];
    FindIsFirst(one, w.ctype, i);
  }

  lemma TwoWrites(conditions: seq<Condition>, generation: int, v: Write, w: Write) returns (r: seq<Condition>)
    requires v.ctype == w.ctype && v.status != w.status
    ensures r == PutAll(conditions, generation, [v, w])
    ensures var i := Find(r, w.ctype);
      i >= 0 && r[i] == Condition(w.ctype, w.status, Some(w.at), generation, w.why)
  {
    r := PutAll(conditions, generation, [v, w]);
    assert [v, w][..1] == [v] && [v][..0] == [];
    PutAllOne(conditions, generation, [], v);
    assert [] + [v] == [v] && [v] + [w] == [v, w];
    PutAllOne(conditions, generation, [v], w);
    var one := Put(conditions, generation, v);
    PutSettles(conditions, generation, v);
    FindIsFirst(Put(one, generation, w), w.ctype, Find(one, w.ctype));
  }
}
