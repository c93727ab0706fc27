/** The transition times in the saved status: they move exactly when the status of their
    condition does. */
module SavedTransitions {
  import opened Wrappers
  import opened Jobs
  import opened Conditions
  import opened ControlledJobs
  import opened DecisionStatus
  import opened OverallConditions
  import opened Reconciling
  import opened StatusFixpoint
  import opened CallConditions
  import opened TransitionTimes

  /** The status of a type, if it is there. */
  function StatusFound(conditions: seq<Condition>, ctype: ConditionType): Option<ConditionStatus> {
    LastStatus(conditions, [], ctype)
  }

  /** With the same status the transition time and the generation are the same; with
      another they are new. */
  ghost predicate MovesWithStatus(before: seq<Condition>, generation: int, after: seq<Condition>, ctype: ConditionType) {
    var i := Find(before, ctype);
    if StatusFound(after, ctype) == StatusFound(before, ctype)
    then i >= 0 ==> IsAt(after, ctype, before[i].transition, before[i].generation)
    else exists at :: IsAt(after, ctype, at, generation)
  }

  lemma OnceMoves(before: seq<Condition>, generation: int, writes: seq<Write>, ctype: ConditionType)
    requires IsTimed(before, ctype) && EachTypeOnce(writes)
    ensures MovesWithStatus(before, generation, PutAll(before, generation, writes), ctype)
  {
    var after := PutAll(before, generation, writes);
    var k := StretchOrRepeats(before, writes, ctype);
    StatusIsLast(before, generation, writes, ctype);
    if BeginsStretch(before, writes, k, ctype) {
      FirstOfStretchCounts(before, generation, writes, k, ctype);
      StretchGoesOn(before, writes, k, ctype);
      OnceIsFirst(before, writes, k, ctype);
    } else {
      RepeatedStatus(before, writes, ctype);
      if Find(before, ctype) >= 0 { RepeatsDoNotMove(before, generation, writes, ctype); }
    }
  }

  lemma OnceIsFirst(before: seq<Condition>, writes: seq<Write>, k: nat, ctype: ConditionType)
    requires EachTypeOnce(writes) && BeginsStretch(before, writes, k, ctype)
    ensures StatusFound(before, ctype) != Some(writes[k].status)
  {
    NotWritten(before, writes[..k], ctype);
  }

  lemma {:induction false} NotWritten(before: seq<Condition>, writes: seq<Write>, ctype: ConditionType)
    requires forall i | 0 <= i < |writes| :: writes[i].ctype != ctype
    ensures LastStatus(before, writes, ctype) == StatusFound(before, ctype)
  {
    if writes != [] { NotWritten(before, writes[..|writes| - 1], ctype); }
  }

  lemma SameMoves(before: seq<Condition>, generation: int, middle: seq<Condition>, after: seq<Condition>, ctype: ConditionType)
    requires (SameFor(before, middle, ctype) && MovesWithStatus(middle, generation, after, ctype))
      || (MovesWithStatus(before, generation, middle, ctype) && SameFor(middle, after, ctype))
    ensures MovesWithStatus(before, generation, after, ctype)
  {
    if MovesWithStatus(before, generation, middle, ctype) && SameFor(middle, after, ctype) {
      if at :| IsAt(middle, ctype, at, generation) { assert IsAt(after, ctype, at, generation); }
    }
  }

  lemma WritesOnce(before: seq<Condition>, generation: int, writes: seq<Write>, after: seq<Condition>, expected: seq<Write>,
                   from: nat, end: nat, ctype: ConditionType)
    requires Wrote(before, generation, writes, after, expected) && RankedWithin(expected, from, end) && IsTimed(before, ctype)
    ensures MovesWithStatus(before, generation, after, ctype)
  {
    forall i, j | 0 <= i < j < |writes| ensures writes[i].ctype != writes[j].ctype {
      assert writes[i].(at := 0) == expected[i].(at := 0) && writes[j].(at := 0) == expected[j].(at := 0);
    }
    OnceMoves(before, generation, writes, ctype);
  }

  lemma SummaryIsLater(before: seq<Condition>, generation: int, writes: seq<Write>, after: seq<Condition>,
                       expected: seq<Write>, ctype: ConditionType)
    requires Wrote(before, generation, writes, after, expected) && RankedWithin(expected, 0, 12) && IsSummary(ctype)
    ensures SameFor(before, after, ctype)
  {
    WritesOfOtherRank(before, generation, writes, after, expected, 12, ctype);
  }

  lemma DecisionMoves(x: Round, ctype: ConditionType)
    requires Passed(x) && RankedWithin(x.trail.expected, 0, 12) && IsTimed(x.before.conditions, ctype) && !IsSummary(ctype)
    ensures MovesWithStatus(x.before.conditions, x.q.generation, x.trail.decided.conditions, ctype)
  {
    WritesOnce(x.before.conditions, x.q.generation, x.trail.decisionWrites, x.trail.decided.conditions, x.trail.expected,
               0, 12, ctype);
  }

  lemma SummaryMoves(x: Round, ctype: ConditionType)
    requires Passed(x) && IsTimed(x.trail.acted.conditions, ctype)
    ensures MovesWithStatus(x.trail.acted.conditions, x.q.generation, x.saved.conditions, ctype)
  {
    var expected := OverallWrites(x.trail.acted.conditions, x.trail.failure);
    OverallRanked(x.trail.acted.conditions, x.trail.failure);
    WritesOnce(x.trail.acted.conditions, x.q.generation, x.trail.overallWrites, x.saved.conditions, expected, 12, 17, ctype);
  }

  lemma SameTwice(a: seq<Condition>, b: seq<Condition>, c: seq<Condition>, ctype: ConditionType)
    requires SameFor(a, b, ctype) && SameFor(b, c, ctype)
    ensures SameFor(a, c, ctype)
  {
  }

  /** In every reconcile, for every condition that is not about a call: the transition
      time in the saved status is the one found exactly as long as the status is. */
  lemma SavedMovesWithStatus(x: Round, ctype: ConditionType)
    requires Passed(x) && RankedWithin(x.trail.expected, 0, 12) && !IsCallType(ctype) && IsTimed(x.before.conditions, ctype)
    ensures MovesWithStatus(x.before.conditions, x.q.generation, x.saved.conditions, ctype)
  {
    ActsKeepOthers(x, ctype);
    if IsSummary(ctype) {
      SummaryIsLater(x.before.conditions, x.q.generation, x.trail.decisionWrites, x.trail.decided.conditions,
                     x.trail.expected, ctype);
      SameTwice(x.before.conditions, x.trail.decided.conditions, x.trail.acted.conditions, ctype);
      SummaryMoves(x, ctype);
      SameMoves(x.before.conditions, x.q.generation, x.trail.acted.conditions, x.saved.conditions, ctype);
    } else {
      DecisionMoves(x, ctype);
      SummaryKeeps(x, ctype);
      SameTwice(x.trail.decided.conditions, x.trail.acted.conditions, x.saved.conditions, ctype);
      SameMoves(x.before.conditions, x.q.generation, x.trail.decided.conditions, x.saved.conditions, ctype);
    }
  }

  /** The same of any reconcile. */
  lemma ReconcileMovesWithStatus(x: Round, ctype: ConditionType)
    requires Reconciled(x) && !IsCallType(ctype) && IsTimed(x.before.conditions, ctype)
    ensures MovesWithStatus(x.before.conditions, x.q.generation, x.saved.conditions, ctype)
  {
    ExpectedRanked(x.q);
    SavedMovesWithStatus(x, ctype);
  }
}
