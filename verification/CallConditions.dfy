/**
  What the calls leave behind: the conditions that tell whether the last try of each
  kind failed, and the history of actions.
 */
module CallConditions {
  import opened Wrappers
  import opened Conditions
  import opened ActionHistory
  import opened Failures
  import opened Jobs
  import opened ControlledJobs
  import opened DecisionStatus
  import opened OverallConditions
  import opened Reconciling
  import opened StatusFixpoint

  // The writes of the calls that were sent

  lemma CallWritesAre(calls: seq<Call>, reply: nat -> Option<string>, from: nat, i: nat)
    requires i < SentCount(calls, reply, from)
    ensures |CallWrites(calls, reply, from)| == SentCount(calls, reply, from)
    ensures CallWrites(calls, reply, from)[i]
      == match reply(from + i)
         case None => SuccessWrite(calls[i])
         case Some(e) => FailureWrite(calls[i], e)
  {
    var k := Successes(reply, from, |calls|);
    assert i < k ==> reply(from + i) == None;
  }

  /** The status of the failure condition after a call: true if it failed, and also
      if it is a suspend or an unsuspend. */
  function StatusAfter(call: Call, reply: Option<string>): ConditionStatus {
    if reply.Some? || call.SuspendCall? || call.UnsuspendCall? then True else False
  }

  predicate IsCallType(ctype: ConditionType) {
    ctype == FailedToDeleteJob || ctype == FailedToCreateJob || ctype == FailedToSuspendJob || ctype == FailedToUnsuspendJob
  }

  lemma LastCallWrites(before: seq<Condition>, generation: int, writes: seq<Write>, after: seq<Condition>,
                       calls: seq<Call>, reply: nat -> Option<string>, from: nat, k: nat)
    requires Wrote(before, generation, writes, after, CallWrites(calls, reply, from))
    requires k < SentCount(calls, reply, from)
    requires forall i | k < i < SentCount(calls, reply, from) :: FailureType(calls[i]) != FailureType(calls[k])
    ensures Has(after, FailureType(calls[k]), StatusAfter(calls[k], reply(from + k)))
  {
    var expected := CallWrites(calls, reply, from);
    CallWritesAre(calls, reply, from, k);
    forall i | k <= i < |writes| ensures writes[i].ctype == FailureType(calls[i]) {
      CallWritesAre(calls, reply, from, i);
      assert writes[i].(at := 0) == expected[i].(at := 0);
    }
    LastWriteWins(before, generation, writes, k);
    assert writes[k].(at := 0) == expected[k].(at := 0);
  }

  /** Calls of other kinds leave a condition as it is. */
  lemma OtherCallsKeep(before: seq<Condition>, generation: int, writes: seq<Write>, after: seq<Condition>,
                       calls: seq<Call>, reply: nat -> Option<string>, from: nat, ctype: ConditionType)
    requires Wrote(before, generation, writes, after, CallWrites(calls, reply, from))
    requires forall i | 0 <= i < SentCount(calls, reply, from) :: FailureType(calls[i]) != ctype
    ensures SameFor(before, after, ctype)
  {
    var expected := CallWrites(calls, reply, from);
    forall i | 0 <= i < |writes| ensures writes[i].ctype != ctype {
      if SentCount(calls, reply, from) > 0 { CallWritesAre(calls, reply, from, 0); }
      CallWritesAre(calls, reply, from, i);
      assert writes[i].(at := 0) == expected[i].(at := 0);
    }
    PutAllUntouched(before, generation, writes, ctype);
  }

  /** Conditions that are not about calls go through the calls unchanged. */
  lemma ActsKeepOthers(x: Round, ctype: ConditionType)
    requires Passed(x) && !IsCallType(ctype)
    ensures SameFor(x.trail.decided.conditions, x.trail.acted.conditions, ctype)
  {
    OtherCallsKeep(x.trail.decided.conditions, x.q.generation, x.trail.callWrites, x.trail.acted.conditions,
                   x.trail.plan, x.reply, |x.start|, ctype);
  }

  lemma SummaryKeeps(x: Round, ctype: ConditionType)
    requires Passed(x) && !IsSummary(ctype)
    ensures SameFor(x.trail.acted.conditions, x.saved.conditions, ctype)
  {
    OthersUntouched(x.trail.acted.conditions, x.q.generation, x.trail.overallWrites, x.saved.conditions, x.trail.failure);
    assert !IsSummary(ctype);
  }

  /** What the decision wrote, other than about calls, is what is saved but for the
      summary. */
  lemma DecidedStays(x: Round, ctype: ConditionType)
    requires Passed(x) && !IsCallType(ctype) && !IsSummary(ctype)
    ensures SameFor(x.trail.decided.conditions, x.saved.conditions, ctype)
  {
    ActsKeepOthers(x, ctype);
    SummaryKeeps(x, ctype);
  }

  // The last try of a kind, over all passes

  /** calls[k] is the last of its kind. */
  ghost predicate IsLastOfKind(calls: seq<Call>, k: int, ctype: ConditionType) {
    && 0 <= k < |calls| && FailureType(calls[k]) == ctype
    && forall i | k < i < |calls| :: FailureType(calls[i]) != ctype
  }

  /** Of everything ever sent, the last try of the kind is what the condition tells. */
  ghost predicate TellsLastTry(conditions: seq<Condition>, calls: seq<Call>, reply: nat -> Option<string>, ctype: ConditionType) {
    forall k | IsLastOfKind(calls, k, ctype) :: Has(conditions, ctype, StatusAfter(calls[k], reply(k)))
  }

  lemma WritesOfOtherRank(before: seq<Condition>, generation: int, writes: seq<Write>, after: seq<Condition>,
                          expected: seq<Write>, end: nat, ctype: ConditionType)
    requires Wrote(before, generation, writes, after, expected) && RankedWithin(expected, 0, end) && Rank(ctype) >= end
    ensures SameFor(before, after, ctype)
  {
    forall i | 0 <= i < |writes| ensures writes[i].ctype != ctype {
      assert writes[i].(at := 0) == expected[i].(at := 0);
    }
    PutAllUntouched(before, generation, writes, ctype);
  }

  /** One more stretch of calls, of which k is the last of its kind: the condition
      tells it, whether it was sent in this stretch or before. */
  lemma LastTryOf(before: seq<Condition>, generation: int, writes: seq<Write>, after: seq<Condition>, plan: seq<Call>,
                  reply: nat -> Option<string>, start: seq<Call>, calls: seq<Call>, ctype: ConditionType, k: nat)
    requires Wrote(before, generation, writes, after, CallWrites(plan, reply, |start|))
    requires calls == start + plan[..SentCount(plan, reply, |start|)]
    requires TellsLastTry(before, start, reply, ctype) && IsLastOfKind(calls, k, ctype)
    ensures Has(after, ctype, StatusAfter(calls[k], reply(k)))
  {
    var from, sent := |start|, SentCount(plan, reply, |start|);
    assert forall i | 0 <= i < sent :: plan[i] == calls[from + i];
    if k >= from {
      LastCallWrites(before, generation, writes, after, plan, reply, from, k - from);
    } else {
      assert forall i | 0 <= i < from :: start[i] == calls[i];
      assert IsLastOfKind(start, k, ctype);
      OtherCallsKeep(before, generation, writes, after, plan, reply, from, ctype);
    }
  }

  /** The calls of a pass and the condition of a kind: the last of them tells, and
      without any it stays. */
  lemma ActsTellLastTry(before: seq<Condition>, generation: int, writes: seq<Write>, after: seq<Condition>, plan: seq<Call>,
                        reply: nat -> Option<string>, start: seq<Call>, calls: seq<Call>, ctype: ConditionType)
    requires Wrote(before, generation, writes, after, CallWrites(plan, reply, |start|))
    requires calls == start + plan[..SentCount(plan, reply, |start|)] && TellsLastTry(before, start, reply, ctype)
    ensures TellsLastTry(after, calls, reply, ctype)
  {
    forall k | IsLastOfKind(calls, k, ctype) ensures Has(after, ctype, StatusAfter(calls[k], reply(k))) {
      LastTryOf(before, generation, writes, after, plan, reply, start, calls, ctype, k);
    }
  }

  lemma SameTells(before: seq<Condition>, after: seq<Condition>, calls: seq<Call>, reply: nat -> Option<string>, ctype: ConditionType)
    requires TellsLastTry(before, calls, reply, ctype) && SameFor(before, after, ctype)
    ensures TellsLastTry(after, calls, reply, ctype)
  {
  }

  lemma DecisionKeepsCallTypes(x: Round, ctype: ConditionType)
    requires Passed(x) && RankedWithin(x.trail.expected, 0, 12) && IsCallType(ctype)
    ensures SameFor(x.before.conditions, x.trail.decided.conditions, ctype)
  {
    WritesOfOtherRank(x.before.conditions, x.q.generation, x.trail.decisionWrites, x.trail.decided.conditions,
                      x.trail.expected, 12, ctype);
  }

  lemma DecisionTellsLastTry(x: Round, ctype: ConditionType)
    requires Passed(x) && RankedWithin(x.trail.expected, 0, 12) && IsCallType(ctype)
    requires TellsLastTry(x.before.conditions, x.start, x.reply, ctype)
    ensures TellsLastTry(x.trail.decided.conditions, x.start, x.reply, ctype)
  {
    DecisionKeepsCallTypes(x, ctype);
    SameTells(x.before.conditions, x.trail.decided.conditions, x.start, x.reply, ctype);
  }

  lemma CallsTellLastTry(x: Round, ctype: ConditionType)
    requires Passed(x) && TellsLastTry(x.trail.decided.conditions, x.start, x.reply, ctype)
    ensures TellsLastTry(x.trail.acted.conditions, x.calls, x.reply, ctype)
  {
    ActsTellLastTry(x.trail.decided.conditions, x.q.generation, x.trail.callWrites, x.trail.acted.conditions, x.trail.plan,
                    x.reply, x.start, x.calls, ctype);
  }

  lemma SummaryTellsLastTry(x: Round, ctype: ConditionType)
    requires Passed(x) && IsCallType(ctype) && TellsLastTry(x.trail.acted.conditions, x.calls, x.reply, ctype)
    ensures TellsLastTry(x.saved.conditions, x.calls, x.reply, ctype)
  {
    SummaryKeeps(x, ctype);
    SameTells(x.trail.acted.conditions, x.saved.conditions, x.calls, x.reply, ctype);
  }

  /** One reconcile keeps it so that the condition tells the last try of its kind. */
  lemma RoundTellsLastTry(x: Round, ctype: ConditionType)
    requires Passed(x) && RankedWithin(x.trail.expected, 0, 12) && IsCallType(ctype)
    requires TellsLastTry(x.before.conditions, x.start, x.reply, ctype)
    ensures TellsLastTry(x.saved.conditions, x.calls, x.reply, ctype)
  {
    DecisionTellsLastTry(x, ctype);
    CallsTellLastTry(x, ctype);
    SummaryTellsLastTry(x, ctype);
  }

  // The history

  /** The names of warning events begin with this. */
  predicate IsWarning(kind: string) { "Failed" <= kind }

  ghost predicate NoWarnings(h: History) {
    (forall a | a in h.entries :: !IsWarning(a.kind)) && (h.mostRecent.Some? ==> !IsWarning(h.mostRecent.value.kind))
  }

  lemma {:induction false} RecordingKeepsOut(h: History, actions: seq<Action>)
    requires NoWarnings(h) && forall i | 0 <= i < |actions| :: !IsWarning(actions[i].kind)
    ensures NoWarnings(RecordAll(h, actions))
  {
    if actions != [] { RecordingKeepsOut(h, actions[..|actions| - 1]); }
  }

  lemma CallsAreNoWarnings(recorded: seq<Action>, calls: seq<Call>)
    requires RecordedFor(recorded, calls)
    ensures forall i | 0 <= i < |recorded| :: !IsWarning(recorded[i].kind)
  {
    forall i | 0 <= i < |recorded| ensures !IsWarning(recorded[i].kind) {
      var action := recorded[i].(timestamp := None);
      assert action == ActionFor(calls[i]) && action.kind[0] == 'J';
    }
  }

  lemma CarriedOutKeepsOut(x: Pass, writes: seq<Write>, recorded: seq<Action>, calls: seq<Call>, status: Status,
                           failure: Option<Failure>)
    requires CarriedOut(x, writes, recorded, calls, status, failure) && NoWarnings(x.before.history)
    ensures NoWarnings(status.history)
  {
    CallsAreNoWarnings(recorded, x.planned[..Successes(x.reply, |x.start|, |x.planned|)]);
    RecordingKeepsOut(x.before.history, recorded);
  }

  lemma RoundSavesNoWarning(x: Round)
    requires Passed(x) && NoWarnings(x.before.history)
    ensures NoWarnings(x.saved.history)
  {
    CarriedOutKeepsOut(Pass(x.trail.decided, x.q.generation, x.reply, x.start, x.trail.plan), x.trail.callWrites,
                       x.trail.recorded, x.calls, x.trail.acted, CallFailure(x.trail.plan, x.reply, |x.start|));
  }

  /** Recording a failure would show: the status in memory has a warning. */
  lemma RecordedFailureWarns(saved: Status, failure: Failure, failed: Action, after: Status)
    requires FailureRecorded(saved, Some(failure), failed, after) && NoWarnings(saved.history)
    ensures !NoWarnings(after.history)
  {
    assert failed.kind == EventOf(failure) && IsWarning(failed.kind);
    if !IsSameAction(saved.history.mostRecent, failed) { assert after.history.entries[0] == failed; }
  }

  // Any number of reconciles

  const EMPTY_STATUS := Status([], [], None, None, None, None, History(None, []))

  /** A reconcile finds the status that the one before it saved, and the first one an
      empty status. All calls ever sent are in one list, and the replies go by their
      place in it. */
  ghost predicate ComesAfter(rounds: seq<Round>, i: nat)
    requires i < |rounds|
  {
    var x := rounds[i];
    if i == 0 then x.start == [] && x.before == EMPTY_STATUS
    else x.start == rounds[i - 1].calls && x.before == rounds[i - 1].saved && x.reply == rounds[i - 1].reply
  }

  ghost predicate IsRoundAt(rounds: seq<Round>, i: nat)
    requires i < |rounds|
  {
    ComesAfter(rounds, i) && Reconciled(rounds[i])
  }

  /** Reconciles one after the other, of whatever spec, jobs and time. */
  ghost predicate AreRounds(rounds: seq<Round>) {
    forall i: nat | i < |rounds| :: IsRoundAt(rounds, i)
  }

  /** The same, as far as the status is concerned. */
  ghost predicate IsLinkedAt(rounds: seq<Round>, i: nat)
    requires i < |rounds|
  {
    ComesAfter(rounds, i) && Passed(rounds[i]) && RankedWithin(rounds[i].trail.expected, 0, 12)
  }

  ghost predicate AreLinked(rounds: seq<Round>) {
    forall i: nat | i < |rounds| :: IsLinkedAt(rounds, i)
  }

  lemma RoundsAreLinked(rounds: seq<Round>)
    requires AreRounds(rounds)
    ensures AreLinked(rounds)
  {
    forall i: nat | i < |rounds| ensures IsLinkedAt(rounds, i) {
      assert IsRoundAt(rounds, i);
      ExpectedRanked(rounds[i].q);
    }
  }

  lemma LinkedComesAfter(rounds: seq<Round>, i: nat)
    requires AreLinked(rounds) && i < |rounds|
    ensures ComesAfter(rounds, i)
  {
    assert IsLinkedAt(rounds, i);
  }

  lemma LinkedPassed(rounds: seq<Round>, i: nat)
    requires AreLinked(rounds) && i < |rounds|
    ensures Passed(rounds[i]) && RankedWithin(rounds[i].trail.expected, 0, 12)
  {
    assert IsLinkedAt(rounds, i);
  }

  lemma {:induction false} LinkedTellLastTry(rounds: seq<Round>, i: nat, ctype: ConditionType)
    requires AreLinked(rounds) && i < |rounds| && IsCallType(ctype)
    ensures TellsLastTry(rounds[i].saved.conditions, rounds[i].calls, rounds[i].reply, ctype)
  {
    assert TellsLastTry(rounds[i].before.conditions, rounds[i].start, rounds[i].reply, ctype) by {
      LinkedComesAfter(rounds, i);
      if i > 0 { LinkedTellLastTry(rounds, i - 1, ctype); }
    }
    LinkedPassed(rounds, i);
    RoundTellsLastTry(rounds[i], ctype);
  }

  lemma {:induction false} LinkedSaveNoWarning(rounds: seq<Round>, i: nat)
    requires AreLinked(rounds) && i < |rounds|
    ensures NoWarnings(rounds[i].saved.history)
  {
    assert NoWarnings(rounds[i].before.history) by {
      LinkedComesAfter(rounds, i);
      if i > 0 { LinkedSaveNoWarning(rounds, i - 1); }
    }
    LinkedPassed(rounds, i);
    RoundSavesNoWarning(rounds[i]);
  }

  lemma {:induction false} LinkedKeepUnique(rounds: seq<Round>, i: nat)
    requires AreLinked(rounds) && i < |rounds|
    ensures UniqueTypes(rounds[i].saved.conditions)
  {
    assert UniqueTypes(rounds[i].before.conditions) by {
      LinkedComesAfter(rounds, i);
      if i > 0 { LinkedKeepUnique(rounds, i - 1); }
    }
    LinkedPassed(rounds, i);
    ReconcileKeepsUnique(rounds[i]);
  }

  /** After every reconcile, the condition of each kind of call is true exactly when the
      last call of that kind ever sent failed, or is a suspend or unsuspend call. */
  lemma AlwaysTellsLastTry(rounds: seq<Round>, i: nat, ctype: ConditionType)
    requires AreRounds(rounds) && i < |rounds| && IsCallType(ctype)
    ensures TellsLastTry(rounds[i].saved.conditions, rounds[i].calls, rounds[i].reply, ctype)
  {
    RoundsAreLinked(rounds);
    LinkedTellLastTry(rounds, i, ctype);
  }

  /** A failed reconcile is recorded only after the status was saved, so no status that
      is ever saved has a failure in its history. */
  lemma FailuresAreNeverSaved(rounds: seq<Round>, i: nat)
    requires AreRounds(rounds) && i < |rounds|
    ensures NoWarnings(rounds[i].saved.history)
  {
    RoundsAreLinked(rounds);
    LinkedSaveNoWarning(rounds, i);
  }

  /** In every status that is ever saved each condition type is unique. */
  lemma TypesStayUnique(rounds: seq<Round>, i: nat)
    requires AreRounds(rounds) && i < |rounds|
    ensures UniqueTypes(rounds[i].saved.conditions)
  {
    RoundsAreLinked(rounds);
    LinkedKeepUnique(rounds, i);
  }

  // The promise of the types

  /** The condition of the last call of its kind says whether that call failed. */
  ghost predicate TellsFailure(conditions: seq<Condition>, calls: seq<Call>, reply: nat -> Option<string>, k: nat)
    requires k < |calls|
  {
    IsTrue(conditions, FailureType(calls[k])) <==> reply(k).Some?
  }

  /** What the types promise of the kind of a call: whatever calls of it were sent, and
      whatever the replies, its condition says whether the last one failed. */
  ghost predicate KeepsPromise(ctype: ConditionType) {
    forall conditions, calls, reply, k: nat | IsLastOfKind(calls, k, ctype) && TellsLastTry(conditions, calls, reply, ctype) ::
      TellsFailure(conditions, calls, reply, k)
  }

  lemma LastTryTold(conditions: seq<Condition>, calls: seq<Call>, reply: nat -> Option<string>, ctype: ConditionType, k: nat)
    requires IsLastOfKind(calls, k, ctype) && TellsLastTry(conditions, calls, reply, ctype)
    ensures Has(conditions, ctype, StatusAfter(calls[k], reply(k))) && FailureType(calls[k]) == ctype
  {
  }

  /** The promise is kept for deletes and creates, and only for them. */
  lemma PromiseIff(call: Call)
    ensures KeepsPromise(FailureType(call)) <==> call.DeleteCall? || call.CreateCall?
  {
    var ctype := FailureType(call);
    if call.DeleteCall? || call.CreateCall? {
      forall conditions, calls, reply, k: nat | IsLastOfKind(calls, k, ctype) && TellsLastTry(conditions, calls, reply, ctype)
        ensures TellsFailure(conditions, calls, reply, k)
      {
        LastTryTold(conditions, calls, reply, ctype, k);
      }
    } else {
      var conditions, calls, reply := [Condition(ctype, True, None, 0, NoError)], [call], (k: nat) => None;
      assert IsLastOfKind(calls, 0, ctype) && TellsLastTry(conditions, calls, reply, ctype);
      assert !TellsFailure(conditions, calls, reply, 0);
    }
  }
}
