/**
  The saved status reaches a fixpoint: a second reconcile that finds the same and does
  nothing changes nothing in it, whatever its clock, so saving it wakes nobody up.
 */
module StatusFixpoint {
  import opened Wrappers
  import opened Calendar
  import opened Conditions
  import opened ActionHistory
  import opened Failures
  import opened Decisions
  import opened ControlledJobs
  import opened DecisionStatus
  import opened OverallConditions
  import opened Reconciling

  /** Same resource, same jobs and same state of the schedule, no earlier. */
  ghost predicate SeesTheSame(q: Request, q': Request) {
    && q' == q.(now := q'.now) && q.now <= q'.now
    && BuildState(q.spec, q.jobs, q.now) == BuildState(q.spec, q.jobs, q'.now)
  }

  // The same decision

  /** A choice that creates nothing does not depend on the time: a deadline that was
      exceeded stays so. */
  lemma SameChoiceLater(spec: Spec, s: State, now: Instant, later: Instant, enableRecreate: bool)
    requires now <= later
    requires var c := Choose(spec, s, now, enableRecreate); c.Ok? ==> !c.value.Fresh?
    ensures Choose(spec, s, later, enableRecreate) == Choose(spec, s, now, enableRecreate)
    ensures ChoiceWrites(spec, s, later, enableRecreate) == ChoiceWrites(spec, s, now, enableRecreate)
  {
  }

  lemma NoPlanIsNoCreate(spec: Spec, s: State, now: Instant, enableRecreate: bool)
    requires !s.isSuspended && Planned(Decide(spec, s, now, enableRecreate)) == []
    ensures var c := Choose(spec, s, now, enableRecreate); c.Ok? ==> !c.value.Fresh?
  {
    var r := Decide(spec, s, now, enableRecreate);
    assert r.Ok? ==> |Plan(r.value)| >= |r.value.creates|;
  }

  lemma SameDecisionLater(q: Request, q': Request)
    requires SeesTheSame(q, q') && Planned(q.Decision()) == []
    ensures q'.Decision() == q.Decision() && ExpectedWrites(q') == ExpectedWrites(q)
  {
    match BuildState(q.spec, q.jobs, q.now)
    case Err(_) =>
    case Ok(s) =>
      if !s.isSuspended {
        NoPlanIsNoCreate(q.spec, s, q.now, q.enableRecreate);
        SameChoiceLater(q.spec, s, q.now, q'.now, q.enableRecreate);
      }
  }

  lemma SameStatusLater(q: Request, q': Request, before: Status, conditions: seq<Condition>)
    requires SeesTheSame(q, q') && Planned(q.Decision()) == []
    ensures var status := StatusDecided(q, before, conditions);
      StatusDecided(q', status, conditions) == status
  {
    match BuildState(q.spec, q.jobs, q.now)
    case Err(_) =>
    case Ok(s) =>
      if !s.isSuspended {
        NoPlanIsNoCreate(q.spec, s, q.now, q.enableRecreate);
        SameChoiceLater(q.spec, s, q.now, q'.now, q.enableRecreate);
      }
  }

  lemma ExpectedRanked(q: Request)
    ensures RankedWithin(ExpectedWrites(q), 0, 12)
  {
    match BuildState(q.spec, q.jobs, q.now)
    case Err(_) =>
    case Ok(s) => DecisionWritesRanked(q.spec, s, q.now, q.enableRecreate);
  }

  // The same writes

  lemma PartAgain(conditions: seq<Condition>, generation: int, a: seq<Write>, b: seq<Write>, again: seq<Write>)
    requires EachTypeOnce(a + b) && SameButClock(a, again)
    ensures var c := PutAll(PutAll(conditions, generation, a), generation, b);
      PutAll(c, generation, again) == c
  {
    var c := PutAll(PutAll(conditions, generation, a), generation, b);
    PutAllConcat(conditions, generation, a, b);
    forall k | 0 <= k < |again| ensures Settled(c, again[k]) {
      LastWriteWins(conditions, generation, a + b, k);
      assert (a + b)[k] == a[k] && a[k].(at := 0) == again[k].(at := 0);
    }
    SettledIsFixpoint(c, generation, again);
  }

  lemma SameRanks(writes: seq<Write>, expected: seq<Write>, from: nat, end: nat)
    requires SameButClock(writes, expected) && RankedWithin(expected, from, end)
    ensures RankedWithin(writes, from, end)
  {
    assert forall i | 0 <= i < |writes| :: writes[i].(at := 0).ctype == writes[i].ctype == expected[i].ctype;
  }

  lemma SameSummary(before: seq<Condition>, generation: int, writes: seq<Write>, after: seq<Condition>,
                    failure: Option<Failure>)
    requires Wrote(before, generation, writes, after, OverallWrites(before, failure))
    ensures OverallWrites(after, failure) == OverallWrites(before, failure)
  {
    SummarySelectsOne(before, generation, writes, after, failure);
    assert !IsSummary(JobExists) && !IsSummary(JobFailed);
    assert !IsSummary(ConditionType.ShouldBeRunning) && !IsSummary(JobManuallyScheduled);
  }

  /** Two passes over the conditions that write the same: the second does nothing. */
  lemma ConditionsAreFixpoint(c0: seq<Condition>, generation: int, w: seq<Write>, o: seq<Write>, c1: seq<Condition>,
                              w': seq<Write>, o': seq<Write>, c2: seq<Condition>,
                              expected: seq<Write>, failure: Option<Failure>)
    requires SameButClock(w, expected) && SameButClock(w', expected) && RankedWithin(expected, 0, 12)
    requires var middle := PutAll(c0, generation, w); Wrote(middle, generation, o, c1, OverallWrites(middle, failure))
    requires var middle := PutAll(c1, generation, w'); Wrote(middle, generation, o', c2, OverallWrites(middle, failure))
    ensures PutAll(c1, generation, w') == c1 && c2 == c1
  {
    var middle := PutAll(c0, generation, w);
    var summary := OverallWrites(middle, failure);
    SameRanks(w, expected, 0, 12);
    OverallRanked(middle, failure);
    SameRanks(o, summary, 12, 17);
    RankedConcat(w, o, 0, 12, 17);
    RankedIsOnce(w + o, 0, 17);
    PartAgain(c0, generation, w, o, w');
    SameSummary(middle, generation, o, c1, failure);
    RankedIsOnce(o, 12, 17);
    assert SameButClock(o, o');
    SecondPassChangesNothing(middle, generation, o, o');
  }

  // The whole status

  lemma NothingCarriedOut(x: Pass, writes: seq<Write>, recorded: seq<Action>, calls: seq<Call>, status: Status,
                          failure: Option<Failure>)
    requires CarriedOut(x, writes, recorded, calls, status, failure) && x.planned == []
    ensures status == x.before && calls == x.start
  {
    assert Successes(x.reply, |x.start|, 0) == 0 && recorded == [] && writes == [];
  }

  /** A reconcile without calls: the summary comes right after the decision. */
  lemma NoCallsNoActs(x: Round)
    requires Passed(x) && x.trail.plan == []
    ensures x.trail.acted == x.trail.decided && x.calls == x.start
  {
    NothingCarriedOut(Pass(x.trail.decided, x.q.generation, x.reply, x.start, x.trail.plan), x.trail.callWrites,
                      x.trail.recorded, x.calls, x.trail.acted, CallFailure(x.trail.plan, x.reply, |x.start|));
  }

  /** Two such reconciles that write the same: the second changes no condition. */
  lemma QuietTwice(x: Round, y: Round)
    requires Passed(x) && Passed(y) && y.before == x.saved && y.q.generation == x.q.generation
    requires x.trail.plan == [] == y.trail.plan && RankedWithin(x.trail.expected, 0, 12)
    requires x.trail.expected == y.trail.expected && x.trail.failure == y.trail.failure
    ensures y.trail.decided.conditions == y.saved.conditions == x.saved.conditions && y.calls == y.start
    ensures x.saved == x.trail.decided.(conditions := x.saved.conditions)
    ensures y.saved == y.trail.decided
  {
    NoCallsNoActs(x);
    NoCallsNoActs(y);
    ConditionsAreFixpoint(x.before.conditions, x.q.generation, x.trail.decisionWrites, x.trail.overallWrites, x.saved.conditions,
                          y.trail.decisionWrites, y.trail.overallWrites, y.saved.conditions, x.trail.expected, x.trail.failure);
  }

  lemma DecidedAgain(q: Request, before: Status, decided: Status, conditions: seq<Condition>)
    requires decided == StatusDecided(q, before, decided.conditions)
    ensures decided.(conditions := conditions) == StatusDecided(q, before, conditions)
  {
  }

  /** The first reconcile does nothing, or fails to decide; a later one that sees the
      same leaves the saved status exactly as it is: every condition with its status,
      explanation, transition time and generation, and every other field. */
  lemma StatusIsFixpoint(x: Round, y: Round)
    requires Reconciled(x) && Planned(x.q.Decision()) == []
    requires SeesTheSame(x.q, y.q) && Reconciled(y) && y.before == x.saved
    ensures y.saved == x.saved && y.calls == y.start
  {
    SameDecisionLater(x.q, y.q);
    ExpectedRanked(x.q);
    SameFailure(x, y);
    QuietTwice(x, y);
    DecidedAgain(x.q, x.before, x.trail.decided, x.saved.conditions);
    SameStatusLater(x.q, y.q, x.before, x.saved.conditions);
  }

  lemma SameFailure(x: Round, y: Round)
    requires Follows(x) && Follows(y) && x.q.Decision() == y.q.Decision() && Planned(x.q.Decision()) == []
    ensures x.trail.failure == y.trail.failure
  {
  }

  /** Whatever a reconcile does, each condition type stays unique in the list. */
  lemma ReconcileKeepsUnique(x: Round)
    requires Passed(x) && UniqueTypes(x.before.conditions)
    ensures UniqueTypes(x.saved.conditions)
  {
    PutAllKeepsUnique(x.before.conditions, x.q.generation, x.trail.decisionWrites);
    PutAllKeepsUnique(x.trail.decided.conditions, x.q.generation, x.trail.callWrites);
    PutAllKeepsUnique(x.trail.acted.conditions, x.q.generation, x.trail.overallWrites);
  }
}
