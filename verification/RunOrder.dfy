/**
  Which of two jobs is preferred. Names are compared as text, so the start decides
  before the run id does, and a number is greater only when its numeral is: index 10
  loses to index 9.
 */
module RunOrder {
  import opened Calendar
  import opened JobNaming
  import opened Jobs
  import opened Decisions
  import opened CandidateOrder
  import opened DecisionEffects

  // Comparing texts

  lemma {:induction false} GreaterAfterPrefix(prefix: string, a: string, b: string)
    ensures IsGreater(prefix + a, prefix + b) <==> IsGreater(a, b)
  {
    if prefix == "" {
      assert prefix + a == a && prefix + b == b;
    } else {
      assert (prefix + a)[1..] == prefix[1..] + a && (prefix + b)[1..] == prefix[1..] + b;
      GreaterAfterPrefix(prefix[1..], a, b);
    }
  }

  /** A longer text is compared by its beginning; if that is the other text, it is
      the greater. */
  lemma {:induction false} GreaterByBeginning(a: string, b: string)
    requires |a| >= |b|
    ensures IsGreater(a, b) <==> if a[..|b|] == b then |a| > |b| else IsGreater(a[..|b|], b)
  {
    if b != "" && a[0] == b[0] {
      assert a[..|b|] == [a[0]] + a[1..][..|b| - 1] && b == [b[0]] + b[1..];
      assert a[..|b|][1..] == a[1..][..|b| - 1];
      GreaterByBeginning(a[1..], b[1..]);
    }
  }

  lemma {:induction false} GreaterByEnd(a: string, b: string, c: char, d: char)
    requires |a| == |b|
    ensures IsGreater(a + [c], b + [d]) <==> if a == b then c > d else IsGreater(a, b)
  {
    if a != "" {
      assert (a + [c])[1..] == a[1..] + [c] && (b + [d])[1..] == b[1..] + [d];
      assert a == [a[0]] + a[1..] && b == [b[0]] + b[1..];
      GreaterByEnd(a[1..], b[1..], c, d);
    }
  }

  // Comparing numerals

  lemma {:induction false} SameLengthOrder(a: nat, b: nat)
    requires |FormatNat(a)| == |FormatNat(b)|
    ensures IsGreater(FormatNat(a), FormatNat(b)) <==> a > b
  {
    if a >= 10 {
      SameLengthOrder(a / 10, b / 10);
      GreaterByEnd(FormatNat(a / 10), FormatNat(b / 10), DigitOf(a % 10), DigitOf(b % 10));
      ValueOfFormat(a / 10);
      ValueOfFormat(b / 10);
    }
  }

  lemma {:induction false} GreaterIsNotShorter(a: nat, b: nat)
    requires a >= b
    ensures |FormatNat(a)| >= |FormatNat(b)|
  {
    if b >= 10 { GreaterIsNotShorter(a / 10, b / 10); }
  }

  /** The number without as many last digits as it takes to leave at most n. */
  function Leading(i: nat, n: nat): nat {
    if i < 10 || |FormatNat(i)| <= n then i else Leading(i / 10, n)
  }

  lemma {:induction false} LeadingDigits(i: nat, n: nat)
    requires 1 <= n <= |FormatNat(i)|
    ensures FormatNat(Leading(i, n)) == FormatNat(i)[..n]
  {
    if i >= 10 && |FormatNat(i)| > n { LeadingDigits(i / 10, n); }
  }

  /** The numeral of the greater number is the greater text exactly when its leading
      digits, as many as the other has, are no less than the other. */
  lemma NumeralOrder(i: nat, j: nat)
    requires i > j
    ensures IsGreater(FormatNat(i), FormatNat(j)) <==> Leading(i, |FormatNat(j)|) >= j
  {
    var n := |FormatNat(j)|;
    var l := Leading(i, n);
    GreaterIsNotShorter(i, j);
    LeadingDigits(i, n);
    GreaterByBeginning(FormatNat(i), FormatNat(j));
    SameLengthOrder(l, j);
    ValueOfFormat(l);
    ValueOfFormat(j);
    if |FormatNat(i)| == n { assert FormatNat(i)[..n] == FormatNat(i); }
  }

  /** Of two numbers, the higher has the greater numeral; a minus sign is less than any
      digit. */
  predicate HigherWins(i: int, j: int)
    requires i > j
  {
    if j >= 0 then Leading(i, |FormatNat(j)|) >= j
    else if i >= 0 then true
    else !(Leading(-j, |FormatNat(-i)|) >= -i)
  }

  lemma NegativeOrder(a: nat, b: nat, sign: string)
    requires a < b
    ensures IsGreater(sign + FormatNat(a), sign + FormatNat(b)) <==> !(Leading(b, |FormatNat(a)|) >= a)
  {
    GreaterAfterPrefix(sign, FormatNat(a), FormatNat(b));
    NumeralOrder(b, a);
    ValueOfFormat(a);
    ValueOfFormat(b);
    GreaterIsTotal(FormatNat(a), FormatNat(b));
  }

  lemma DigitAfterSign(a: string, b: string)
    requires a != "" && b != "" && IsDigit(a[0]) && b[0] == '-'
    ensures IsGreater(a, b)
  {
  }

  lemma RunIdOrder(i: int, j: int)
    requires i > j
    ensures IsGreater(FormatInt(i), FormatInt(j)) <==> HigherWins(i, j)
  {
    if j >= 0 {
      NumeralOrder(i, j);
    } else if i >= 0 {
      DigitAfterSign(FormatInt(i), FormatInt(j));
    } else {
      NegativeOrder(-i, -j, "-");
    }
  }

  /** Which of two different numbers has the greater numeral. */
  predicate GreaterText(a: int, b: int) {
    if a > b then HigherWins(a, b) else a < b && !HigherWins(b, a)
  }

  lemma NumberOrder(a: int, b: int)
    ensures IsGreater(FormatInt(a), FormatInt(b)) <==> GreaterText(a, b)
  {
    if a > b {
      RunIdOrder(a, b);
    } else if a < b {
      RunIdOrder(b, a);
      if FormatInt(a) == FormatInt(b) { FormatIntInjective(a, b); }
      GreaterIsTotal(FormatInt(a), FormatInt(b));
    } else {
      GreaterIsTotal(FormatInt(a), FormatInt(b));
    }
  }

  /** Numerals of one length are in the order of their numbers. */
  lemma SameLengthText(a: nat, b: nat)
    requires |FormatNat(a)| == |FormatNat(b)|
    ensures GreaterText(a, b) <==> a > b
  {
    SameLengthOrder(a, b);
    NumberOrder(a, b);
  }

  // Comparing names

  predicate AllDigits(s: string) { forall i | 0 <= i < |s| :: IsDigit(s[i]) }

  /** A hyphen is less than any digit, so different numerals followed by one compare
      as they are. */
  lemma {:induction false} GreaterBeforeHyphen(a: string, b: string, hyphen: string, x: string, y: string)
    requires AllDigits(a) && AllDigits(b) && a != b && hyphen == "-"
    ensures IsGreater(a + hyphen + x, b + hyphen + y) <==> IsGreater(a, b)
  {
    if a != "" && b != "" && a[0] == b[0] {
      assert (a + hyphen + x)[1..] == a[1..] + hyphen + x && (b + hyphen + y)[1..] == b[1..] + hyphen + y;
      assert a == [a[0]] + a[1..] && b == [b[0]] + b[1..];
      GreaterBeforeHyphen(a[1..], b[1..], hyphen, x, y);
    }
  }

  lemma NegativesBeforeHyphen(a: string, b: string, hyphen: string, x: string, y: string)
    requires AllDigits(a) && AllDigits(b) && a != b && hyphen == "-"
    ensures IsGreater(hyphen + a + hyphen + x, hyphen + b + hyphen + y) <==> IsGreater(hyphen + a, hyphen + b)
  {
    GreaterBeforeHyphen(a, b, hyphen, x, y);
    GreaterAfterPrefix(hyphen, a + hyphen + x, b + hyphen + y);
    GreaterAfterPrefix(hyphen, a, b);
    assert hyphen + a + hyphen + x == hyphen + (a + hyphen + x) && hyphen + b + hyphen + y == hyphen + (b + hyphen + y);
  }

  lemma SignBeforeHyphen(a: string, b: string, hyphen: string, x: string, y: string)
    requires a != "" && b != "" && ((IsDigit(a[0]) && b[0] == '-') || (a[0] == '-' && IsDigit(b[0])))
    ensures IsGreater(a + hyphen + x, b + hyphen + y) <==> IsGreater(a, b)
  {
  }

  lemma NumbersBeforeHyphen(t: int, u: int, hyphen: string, x: string, y: string)
    requires t != u && hyphen == "-"
    ensures IsGreater(FormatInt(t) + hyphen + x, FormatInt(u) + hyphen + y) <==> GreaterText(t, u)
  {
    NumberOrder(t, u);
    if FormatInt(t) == FormatInt(u) { FormatIntInjective(t, u); }
    if t >= 0 && u >= 0 {
      GreaterBeforeHyphen(FormatNat(t), FormatNat(u), hyphen, x, y);
    } else if t < 0 && u < 0 {
      NegativesBeforeHyphen(FormatNat(-t), FormatNat(-u), hyphen, x, y);
    } else {
      SignBeforeHyphen(FormatInt(t), FormatInt(u), hyphen, x, y);
    }
  }

  /** One job of a ControlledJob has the greater name than another: by its start, or
      by its run id when they start together. */
  predicate Outranks(t: int, i: int, u: int, j: int) {
    if t != u then GreaterText(t, u) else GreaterText(i, j)
  }

  lemma NumbersOrder(t: int, i: int, u: int, j: int)
    ensures IsGreater(Numbers(t, i), Numbers(u, j)) <==> Outranks(t, i, u, j)
  {
    if t != u {
      NumbersBeforeHyphen(t, u, "-", FormatInt(i), FormatInt(j));
    } else {
      GreaterAfterPrefix(FormatInt(t) + "-", FormatInt(i), FormatInt(j));
      NumberOrder(i, j);
    }
  }

  lemma NameParts(name: string, t: int, i: int)
    ensures JobName(name, t, i) == (name + "-") + Numbers(t, i)
  {
  }

  lemma NameOrder(name: string, t: int, i: int, u: int, j: int)
    ensures IsGreater(JobName(name, t, i), JobName(name, u, j)) <==> Outranks(t, i, u, j)
  {
    NameParts(name, t, i);
    NameParts(name, u, j);
    GreaterAfterPrefix(name + "-", Numbers(t, i), Numbers(u, j));
    NumbersOrder(t, i, u, j);
  }

  // Adopting a job

  predicate OutranksJob(a: Job, b: Job)
    requires a.annotations.scheduledAt.Reads? && a.annotations.runId.Reads?
    requires b.annotations.scheduledAt.Reads? && b.annotations.runId.Reads?
  {
    Outranks(a.annotations.scheduledAt.value, a.annotations.runId.value,
             b.annotations.scheduledAt.value, b.annotations.runId.value)
  }

  /** Of two jobs that are alike in hash and deletion, the better candidate is the one
      whose start, or run id if they start together, is the greater text. */
  lemma BetterIff(spec: Spec, a: Job, b: Job, hash: string)
    requires IsSelfNamed(spec, a) && IsSelfNamed(spec, b) && IsBeingDeleted(a) == IsBeingDeleted(b)
    requires (a.annotations.templateHash == hash) == (b.annotations.templateHash == hash)
    ensures IsBetter(a, b, hash) <==> OutranksJob(a, b)
  {
    NameOrder(spec.name, a.annotations.scheduledAt.value, a.annotations.runId.value,
              b.annotations.scheduledAt.value, b.annotations.runId.value);
  }

  /** The new job takes the place of the old one: it has the current spec and the old
      one has not, or its name is greater. */
  predicate TakesOver(added: Job, current: Job, hash: string)
    requires current.annotations.scheduledAt.Reads? && current.annotations.runId.Reads?
    requires added.annotations.scheduledAt.Reads? && added.annotations.runId.Reads?
  {
    current.annotations.templateHash != hash || OutranksJob(added, current)
  }

  /** The schedule, or the user, wants the job to run. */
  predicate MayStay(s: State, j: Job) { s.Running() || IsManuallyScheduled(j) }

  /** A job of the current spec is created beside the one that runs, at any scheduled
      start: it is adopted exactly when it takes over and may stay, and the old job is
      kept exactly when the new one does not take over and the old one may stay. */
  lemma AdoptedIff(spec: Spec, s: State, now: Instant, enableRecreate: bool, current: Job, added: Job)
    requires DistinctNames(s.jobs) && !s.isSuspended
    requires current in s.jobs && added in s.jobs && current != added && IsLive(current) && IsLive(added)
    requires !IsExpired(current, s.lastStop) && !IsExpired(added, s.lastStop)
    requires IsSelfNamed(spec, current) && IsSelfNamed(spec, added) && added.annotations.templateHash == s.desiredHash
    requires forall k | k in s.jobs && !IsExpired(k, s.lastStop) && k != current && k != added :: IsBetter(current, k, s.desiredHash)
    ensures var r := Decide(spec, s, now, enableRecreate);
      var takesOver := TakesOver(added, current, s.desiredHash);
      && r.Ok?
      && (added !in r.value.deletes <==> takesOver && MayStay(s, added))
      && (current !in r.value.deletes <==> !takesOver && MayStay(s, current))
  {
    if TakesOver(added, current, s.desiredHash) {
      if current.annotations.templateHash == s.desiredHash { BetterIff(spec, added, current, s.desiredHash); }
      KeepsTheBest(spec, s, now, enableRecreate, added, current, current);
    } else {
      BetterIff(spec, added, current, s.desiredHash);
      BetterIsAsymmetric(added, current, s.desiredHash);
      DistinctJobsDifferInName(s.jobs, added, current);
      KeepsTheBest(spec, s, now, enableRecreate, current, added, current);
    }
  }

  lemma DistinctJobsDifferInName(jobs: seq<Job>, a: Job, b: Job)
    requires DistinctNames(jobs) && a in jobs && b in jobs && a != b
    ensures a.name != b.name
  {
    var i :| 0 <= i < |jobs| && jobs[i] == a;
    var k :| 0 <= k < |jobs| && jobs[k] == b;
  }

  lemma KeepsTheBest(spec: Spec, s: State, now: Instant, enableRecreate: bool, best: Job, other: Job, second: Job)
    requires DistinctNames(s.jobs) && !s.isSuspended
    requires best in s.jobs && other in s.jobs && IsLive(best) && IsLive(other) && IsBetter(best, other, s.desiredHash)
    requires second in {best, other} && !IsExpired(best, s.lastStop) && best.annotations.templateHash == s.desiredHash
    requires forall k | k in s.jobs && !IsExpired(k, s.lastStop) && k != best && k != other :: IsBetter(second, k, s.desiredHash)
    ensures var r := Decide(spec, s, now, enableRecreate);
      r.Ok? && other in r.value.deletes && (best !in r.value.deletes <==> MayStay(s, best))
  {
    forall k | k in s.jobs && !IsExpired(k, s.lastStop) && k != best ensures IsBetter(best, k, s.desiredHash) {
      if k != other && second == other { BetterIsTransitive(best, other, k, s.desiredHash); }
    }
    GreatestIsBest(s.jobs, s.lastStop, s.desiredHash, best);
    var c := Choose(spec, s, now, enableRecreate).value;
    BetterIsAsymmetric(best, other, s.desiredHash);
    DeletesAre(s, c, best);
    DeletesAre(s, c, other);
  }

  // What the index alone does not decide

  /** Index 10 does not take over from index 9 of the same start. */
  lemma TenLosesToNine(t: int)
    ensures !Outranks(t, 10, t, 9) && Outranks(t, 9, t, 10)
  {
    assert Leading(10, 1) == 1;
  }

  /** With unix seconds of one length the start decides before the index does. */
  lemma LaterStartWins(t: nat, i: int, u: nat, j: int)
    requires |FormatNat(t)| == |FormatNat(u)| && t != u
    ensures Outranks(t, i, u, j) <==> t > u
  {
    SameLengthText(t, u);
  }

  lemma {:induction false} LengthOfNumeral(n: nat, digits: nat, low: nat)
    requires digits > 0 && low == PowerOfTen(digits - 1) && low <= n < 10 * low
    ensures |FormatNat(n)| == digits
    decreases digits
  {
    if digits > 1 { LengthOfNumeral(n / 10, digits - 1, low / 10); }
  }

  function PowerOfTen(k: nat): nat { if k == 0 then 1 else 10 * PowerOfTen(k - 1) }

  /** Index 5 does not take over from index 0 of a start half an hour later. */
  lemma EarlierStartLoses()
    ensures GreaterText(5, 0) && !Outranks(1720081800, 5, 1720083600, 0)
  {
    assert PowerOfTen(9) == 1_000_000_000;
    LengthOfNumeral(1720081800, 10, 1_000_000_000);
    LengthOfNumeral(1720083600, 10, 1_000_000_000);
    LaterStartWins(1720081800, 5, 1720083600, 0);
  }

  /** A job as the user's command builds it, suspended and marked as manual. */
  function ByHand(spec: Spec, start: Instant, index: int): Job {
    BuildJob(spec.name, spec.template, start, index, true, true)
  }

  lemma StartsDiffer(name: string, t: int, i: int, u: int, j: int)
    requires t != u
    ensures JobName(name, t, i) != JobName(name, u, j)
  {
    if JobName(name, t, i) == JobName(name, u, j) { JobNameDeterminesRun(name, t, i, u, j); }
  }

  lemma BesideEachOther(spec: Spec, s: State, current: Job, added: Job)
    requires current == BuildJob(spec.name, spec.template, 1720083600, 0, false, false)
    requires added == ByHand(spec, 1720081800, 5)
    requires s.jobs == [current, added] && s.lastStop.Some? && s.lastStop.value <= 1720081800
    ensures DistinctNames(s.jobs) && current in s.jobs && added in s.jobs && current != added
    ensures !IsExpired(current, s.lastStop) && !IsExpired(added, s.lastStop)
  {
    assert s.jobs[0] == current && s.jobs[1] == added;
    StartsDiffer(spec.name, 1720083600, 0, 1720081800, 5);
  }

  /** So a job with the higher index, added beside the running one, is deleted and not
      adopted. */
  lemma HigherIndexIsDeleted(spec: Spec, s: State, now: Instant, enableRecreate: bool, current: Job, added: Job)
    requires current == BuildJob(spec.name, spec.template, 1720083600, 0, false, false)
    requires added == ByHand(spec, 1720081800, 5)
    requires s.jobs == [current, added] && s.lastStop.Some? && s.lastStop.value <= 1720081800
    requires !s.isSuspended && s.Running() && s.desiredHash == spec.template.hash
    ensures var r := Decide(spec, s, now, enableRecreate);
      r.Ok? && added in r.value.deletes && current !in r.value.deletes
  {
    BesideEachOther(spec, s, current, added);
    EarlierStartLoses();
    AdoptedIff(spec, s, now, enableRecreate, current, added);
  }
}
