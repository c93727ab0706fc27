/** The deterministic names of jobs, and the parser that takes them apart. */
module JobNaming {
  import opened Wrappers

  const MAX_INT64 := 0x7FFF_FFFF_FFFF_FFFF
  const MIN_INT64 := -0x8000_0000_0000_0000

  predicate IsInt64(x: int) { MIN_INT64 <= x <= MAX_INT64 }

  // Decimal numerals

  predicate IsDigit(c: char) { '0' <= c <= '9' }

  /** One or more digits, the regular expression \d+. */
  predicate IsNumeral(s: string) { s != "" && forall i | 0 <= i < |s| :: IsDigit(s[i]) }

  function DigitOf(d: int): (c: char)
    requires 0 <= d < 10
    ensures IsDigit(c) && c as int - '0' as int == d
  {
    ('0' as int + d) as char
  }

  function FormatNat(n: nat): (s: string)
    ensures IsNumeral(s)
  {
    if n < 10 then [DigitOf(n)] else FormatNat(n / 10) + [DigitOf(n % 10)]
  }

  /** fmt's %d */
  function FormatInt(n: int): string {
    if n < 0 then "-" + FormatNat(-n) else FormatNat(n)
  }

  function ValueOf(s: string): nat
    requires IsNumeral(s)
  {
    var last := s[|s| - 1] as int - '0' as int;
    if |s| == 1 then last else 10 * ValueOf(s[..|s| - 1]) + last
  }

  /** strconv.Atoi on digits: fails when the value does not fit in an int. */
  function Atoi(s: string): Option<int>
    requires IsNumeral(s)
  {
    if ValueOf(s) <= MAX_INT64 then Some(ValueOf(s)) else None
  }

  lemma {:induction false} ValueOfFormat(n: nat)
    ensures ValueOf(FormatNat(n)) == n
  {
    if n >= 10 {
      ValueOfFormat(n / 10);
      var s := FormatNat(n);
      assert s[..|s| - 1] == FormatNat(n / 10);
    }
  }

  /** No leading zero. */
  predicate IsCanonical(s: string) { |s| == 1 || (|s| > 1 && s[0] != '0') }

  lemma {:induction false} FormatIsCanonical(n: nat)
    ensures IsCanonical(FormatNat(n)) && (n > 0 ==> FormatNat(n)[0] != '0')
  {
    if n >= 10 {
      FormatIsCanonical(n / 10);
      assert FormatNat(n)[0] == FormatNat(n / 10)[0];
    }
  }

  lemma FormatOneMore(v: nat, d: nat)
    requires v > 0 && d < 10
    ensures FormatNat(10 * v + d) == FormatNat(v) + [DigitOf(d)]
  {
    var n := 10 * v + d;
    assert n / 10 == v && n % 10 == d;
  }

  lemma DigitOfChar(c: char)
    requires IsDigit(c)
    ensures DigitOf(c as int - '0' as int) == c
  {
  }

  lemma {:induction false} CanonicalIsPrinted(s: string)
    requires IsNumeral(s) && IsCanonical(s)
    ensures FormatNat(ValueOf(s)) == s && (s[0] != '0' ==> ValueOf(s) > 0)
  {
    var front, c := s[..|s| - 1], s[|s| - 1];
    DigitOfChar(c);
    if |s| > 1 {
      CanonicalIsPrinted(front);
      FormatOneMore(ValueOf(front), c as int - '0' as int);
      assert s == front + [c];
    }
  }

  /** A numeral is printed back exactly when it has no leading zero. */
  lemma FormatOfValue(s: string)
    requires IsNumeral(s)
    ensures FormatNat(ValueOf(s)) == s <==> IsCanonical(s)
  {
    FormatIsCanonical(ValueOf(s));
    if IsCanonical(s) { CanonicalIsPrinted(s); }
  }

  // Names

  function JobName(name: string, time: int, runId: int): string {
    name + "-" + FormatInt(time) + "-" + FormatInt(runId)
  }

  datatype Groups = Groups(name: string, time: string, runId: string)

  predicate AnyCharacters(s: string) { s != "" && '\n' !in s }

  /** A match of the regular expression ^(.+)-(\d+)-(\d+)$ with its groups. */
  predicate IsMatch(s: string, g: Groups) {
    && AnyCharacters(g.name) && IsNumeral(g.time) && IsNumeral(g.runId)
    && s == g.name + "-" + g.time + "-" + g.runId
  }

  /** The position of the last hyphen, or -1. */
  function LastHyphen(s: string): (p: int)
    ensures -1 <= p < |s| && (p >= 0 ==> s[p] == '-') && forall i | p < i < |s| :: s[i] != '-'
  {
    if s == "" then -1
    else if s[|s| - 1] == '-' then |s| - 1
    else LastHyphen(s[..|s| - 1])
  }

  /** Splits a name at its last two hyphens. */
  function FindSubmatch(s: string): Option<Groups> {
    var q := LastHyphen(s);
    if q < 0 then None
    else
      var p := LastHyphen(s[..q]);
      if p < 0 then None
      else
        var g := Groups(s[..p], s[p + 1..q], s[q + 1..]);
        if AnyCharacters(g.name) && IsNumeral(g.time) && IsNumeral(g.runId) then Some(g) else None
  }

  lemma LastHyphenIs(s: string, p: nat)
    requires p < |s| && s[p] == '-' && forall i | p < i < |s| :: s[i] != '-'
    ensures LastHyphen(s) == p
  {
  }

  lemma HyphenBetween(a: string, hyphen: string, b: string)
    requires hyphen == "-" && '-' !in b
    ensures var s := a + hyphen + b; LastHyphen(s) == |a| && s[..|a|] == a && s[|a| + 1..] == b
  {
    var s := a + hyphen + b;
    assert s[|a|] == '-';
    forall i | |a| < i < |s| ensures s[i] != '-' { assert s[i] == b[i - |a| - 1]; }
    LastHyphenIs(s, |a|);
  }

  lemma HyphenAt(a: string, b: string)
    requires '-' !in b
    ensures LastHyphen(a + "-" + b) == |a|
    ensures (a + "-" + b)[..|a|] == a && (a + "-" + b)[|a| + 1..] == b
  {
    HyphenBetween(a, "-", b);
  }

  lemma MatchIsFound(s: string, g: Groups)
    requires IsMatch(s, g)
    ensures FindSubmatch(s) == Some(g)
  {
    var front := g.name + "-" + g.time;
    HyphenAt(front, g.runId);
    HyphenAt(g.name, g.time);
    assert s == front + "-" + g.runId;
    var p, q := |g.name|, |front|;
    assert s[..q] == front && s[..p] == front[..p] && s[p + 1..q] == front[p + 1..];
  }

  lemma FoundIsMatch(s: string)
    requires FindSubmatch(s).Some?
    ensures IsMatch(s, FindSubmatch(s).value)
  {
    var q := LastHyphen(s);
    var p := LastHyphen(s[..q]);
    assert s[..q] == s[..p] + "-" + s[p + 1..q];
    assert s == s[..q] + "-" + s[q + 1..];
  }

  /** The greedy match is the only match there is, and the split finds it. */
  lemma SubmatchIff(s: string, g: Groups)
    ensures FindSubmatch(s) == Some(g) <==> IsMatch(s, g)
  {
    if IsMatch(s, g) { MatchIsFound(s, g); }
    if FindSubmatch(s) == Some(g) { FoundIsMatch(s); }
  }

  /** The results of ParseJobName: what was read before a failure is still returned. */
  datatype ParsedName = ParsedName(name: string, time: Option<int>, runId: Option<int>, failed: bool)

  function ParseJobName(s: string): ParsedName {
    match FindSubmatch(s)
    case None => ParsedName("", None, None, true)
    case Some(g) =>
      assert IsMatch(s, g) by { FoundIsMatch(s); }
      match Atoi(g.time)
      case None => ParsedName(g.name, None, None, true)
      case Some(time) =>
        match Atoi(g.runId)
        case None => ParsedName(g.name, Some(time), None, true)
        case Some(runId) => ParsedName(g.name, Some(time), Some(runId), false)
  }

  /** Of a text that matches, as much is returned as could be read before a number that
      does not fit; it fails exactly when one of the two does not. */
  lemma ParseOfMatch(s: string, g: Groups)
    requires IsMatch(s, g)
    ensures var r := ParseJobName(s);
      var timeFits, idFits := ValueOf(g.time) <= MAX_INT64, ValueOf(g.runId) <= MAX_INT64;
      && r.name == g.name && r.time == (if timeFits then Some(ValueOf(g.time)) else None)
      && r.runId == (if timeFits && idFits then Some(ValueOf(g.runId)) else None)
      && (r.failed <==> !(timeFits && idFits))
  {
    MatchIsFound(s, g);
  }

  /** Of one that does not match, nothing. */
  lemma ParseOfOther(s: string)
    requires forall g :: !IsMatch(s, g)
    ensures ParseJobName(s) == ParsedName("", None, None, true)
  {
    if FindSubmatch(s).Some? { FoundIsMatch(s); }
  }

  /** Parsing undoes naming exactly for non-empty one-line names and non-negative
      numbers. */
  lemma ParseOfName(name: string, time: int, runId: int)
    requires IsInt64(time) && IsInt64(runId)
    ensures ParseJobName(JobName(name, time, runId)) == ParsedName(name, Some(time), Some(runId), false)
      <==> name != "" && '\n' !in name && time >= 0 && runId >= 0
  {
    var s := JobName(name, time, runId);
    if AnyCharacters(name) && time >= 0 && runId >= 0 {
      MatchIsFound(s, Groups(name, FormatNat(time), FormatNat(runId)));
      ValueOfFormat(time);
      ValueOfFormat(runId);
    }
    ParsedIsPlain(s);
  }

  lemma ParsedIsPlain(s: string)
    ensures var p := ParseJobName(s);
      !p.failed ==> AnyCharacters(p.name) && p.time.Some? && p.time.value >= 0 && p.runId.Some? && p.runId.value >= 0
  {
  }

  /** Naming undoes parsing exactly when neither numeral has a leading zero. */
  lemma NameOfParse(s: string)
    requires !ParseJobName(s).failed
    ensures FindSubmatch(s).Some? && ParseJobName(s).time.Some? && ParseJobName(s).runId.Some?
    ensures var p, g := ParseJobName(s), FindSubmatch(s).value;
      JobName(p.name, p.time.value, p.runId.value) == s <==> IsCanonical(g.time) && IsCanonical(g.runId)
  {
    var p, g := ParseJobName(s), FindSubmatch(s).value;
    FoundIsMatch(s);
    FormatOfValue(g.time);
    FormatOfValue(g.runId);
    var printed := Groups(p.name, FormatNat(p.time.value), FormatNat(p.runId.value));
    if JobName(p.name, p.time.value, p.runId.value) == s { MatchIsFound(s, printed); }
  }

  /** Different names, times or run ids give different job names, when the numbers
      are not negative. */
  lemma JobNameInjective(name: string, time: nat, runId: nat, name': string, time': nat, runId': nat)
    requires JobName(name, time, runId) == JobName(name', time', runId')
    ensures name == name' && time == time' && runId == runId'
  {
    HyphenAt(name + "-" + FormatNat(time), FormatNat(runId));
    HyphenAt(name' + "-" + FormatNat(time'), FormatNat(runId'));
    HyphenAt(name, FormatNat(time));
    HyphenAt(name', FormatNat(time'));
    ValueOfFormat(time);
    ValueOfFormat(time');
    ValueOfFormat(runId);
    ValueOfFormat(runId');
  }

  /** The two numbers of a job name, as text. */
  function Numbers(time: int, runId: int): string { FormatInt(time) + "-" + FormatInt(runId) }

  lemma NumbersDetermine(time: int, runId: int, time': int, runId': int)
    requires Numbers(time, runId) == Numbers(time', runId')
    ensures time == time' && runId == runId'
  {
    SeparatorAt(time, runId);
    SeparatorAt(time', runId');
    FormatIntInjective(time, time');
    FormatIntInjective(runId, runId');
  }

  lemma NumbersOfName(name: string, time: int, runId: int)
    ensures JobName(name, time, runId)[|name| + 1..] == Numbers(time, runId)
  {
  }

  /** Within one ControlledJob the name determines time and run id, negative ones
      included. */
  lemma JobNameDeterminesRun(name: string, time: int, runId: int, time': int, runId': int)
    requires JobName(name, time, runId) == JobName(name, time', runId')
    ensures time == time' && runId == runId'
  {
    NumbersOfName(name, time, runId);
    NumbersOfName(name, time', runId');
    NumbersDetermine(time, runId, time', runId');
  }

  lemma FormatIntInjective(a: int, b: int)
    requires FormatInt(a) == FormatInt(b)
    ensures a == b
  {
    var m, n := if a < 0 then -a else a, if b < 0 then -b else b;
    assert IsDigit(FormatNat(m)[0]) && IsDigit(FormatNat(n)[0]);
    assert a < 0 ==> FormatInt(a)[0] == '-' && FormatInt(a)[1..] == FormatNat(m);
    assert b < 0 ==> FormatInt(b)[0] == '-' && FormatInt(b)[1..] == FormatNat(n);
    ValueOfFormat(m);
    ValueOfFormat(n);
  }

  /** The hyphen between the numbers is the last one, or the one before it when the
      last is a sign. */
  function Separator(s: string): int {
    var q := LastHyphen(s);
    if q > 0 && s[q - 1] == '-' then q - 1 else q
  }

  lemma SeparatorBetween(t: string, hyphen: string, digits: string)
    requires hyphen == "-" && '-' !in digits && t != "" && t[|t| - 1] != '-'
    ensures var s := t + hyphen + digits;
      Separator(s) == |t| && s[..|t|] == t && s[|t| + 1..] == digits
  {
    HyphenBetween(t, hyphen, digits);
    assert (t + hyphen + digits)[|t| - 1] == t[|t| - 1];
  }

  lemma SeparatorBeforeSign(t: string, hyphen: string, digits: string)
    requires hyphen == "-" && '-' !in digits
    ensures var s := t + hyphen + (hyphen + digits);
      Separator(s) == |t| && s[..|t|] == t && s[|t| + 1..] == hyphen + digits
  {
    var s := t + hyphen + (hyphen + digits);
    HyphenBetween(t + hyphen, hyphen, digits);
    assert s == (t + hyphen) + hyphen + digits;
  }

  lemma SeparatorAt(time: int, runId: int)
    ensures var s := Numbers(time, runId);
      && Separator(s) == |FormatInt(time)|
      && s[..|FormatInt(time)|] == FormatInt(time) && s[|FormatInt(time)| + 1..] == FormatInt(runId)
  {
    var t := FormatInt(time);
    assert IsDigit(t[|t| - 1]);
    if runId < 0 {
      SeparatorBeforeSign(t, "-", FormatNat(-runId));
    } else {
      SeparatorBetween(t, "-", FormatNat(runId));
    }
  }
}
