/** The history of recorded actions kept in the status. */
module ActionHistory {
  import opened Wrappers
  import opened Calendar

  datatype Action = Action(
    kind: string, timestamp: Option<Instant>, message: string,
    scheduledStartTime: Option<Instant>, jobIndex: Option<int>, jobName: string)

  const ENTRIES_TO_KEEP := 16

  /** Equal but for the timestamp. */
  predicate SameAction(a: Action, b: Action) {
    a.(timestamp := b.timestamp) == b
  }

  /** isSameAction, where a missing action is the same as none. */
  predicate IsSameAction(existing: Option<Action>, proposed: Action) {
    existing.Some? && SameAction(existing.value, proposed)
  }

  function Min(a: int, b: int): int { if a < b then a else b }

  function PrependAndTruncate(existing: seq<Action>, entry: Action, maxLength: int): seq<Action>
    requires maxLength > 0
  {
    [entry] + existing[..Min(|existing|, maxLength - 1)]
  }

  /** The most recent action and the history, newest first. */
  datatype History = History(mostRecent: Option<Action>, entries: seq<Action>)

  function Record(h: History, action: Action, ignoreDuplicates: bool): History {
    if ignoreDuplicates && IsSameAction(h.mostRecent, action) then h
    else History(Some(action), PrependAndTruncate(h.entries, action, ENTRIES_TO_KEEP))
  }

  function RecordAll(h: History, actions: seq<Action>): History {
    if actions == [] then h
    else Record(RecordAll(h, actions[..|actions| - 1]), actions[|actions| - 1], true)
  }

  // What a whole run of recorded actions leaves

  /** The actions that do not repeat the one right before them. */
  function WithoutRepeats(actions: seq<Action>): seq<Action> {
    if actions == [] then []
    else
      var front, last := actions[..|actions| - 1], actions[|actions| - 1];
      if front != [] && SameAction(front[|front| - 1], last) then WithoutRepeats(front)
      else WithoutRepeats(front) + [last]
  }

  function Reversed<T>(s: seq<T>): (r: seq<T>)
    ensures |r| == |s| && forall i | 0 <= i < |s| :: r[i] == s[|s| - 1 - i]
  {
    seq(|s|, i requires 0 <= i < |s| => s[|s| - 1 - i])
  }

  /** The last n elements, newest first. */
  function Newest(s: seq<Action>, n: nat): seq<Action> {
    Reversed(s[|s| - Min(|s|, n)..])
  }

  lemma NewestOfAppend(s: seq<Action>, a: Action, n: nat)
    requires n > 0
    ensures Newest(s + [a], n) == PrependAndTruncate(Newest(s, n), a, n)
  {
    var longer, shorter := Newest(s + [a], n), PrependAndTruncate(Newest(s, n), a, n);
    assert |longer| == |shorter|;
    forall i | 0 <= i < |longer| ensures longer[i] == shorter[i] {
      assert longer[i] == (s + [a])[|s| - i];
    }
  }

  /** The last action kept is the last recorded, but for the timestamp. */
  lemma {:induction false} LastKept(actions: seq<Action>)
    requires actions != []
    ensures var kept := WithoutRepeats(actions);
      kept != [] && SameAction(kept[|kept| - 1], actions[|actions| - 1])
  {
    if |actions| > 1 { LastKept(actions[..|actions| - 1]); }
  }

  /** The history keeps these, and the most recent is the last of them. */
  predicate Keeps(h: History, kept: seq<Action>) {
    && h.entries == Newest(kept, ENTRIES_TO_KEEP)
    && h.mostRecent == (if kept == [] then None else Some(kept[|kept| - 1]))
  }

  lemma RecordingKeeps(h: History, kept: seq<Action>, a: Action)
    requires Keeps(h, kept)
    ensures Keeps(Record(h, a, true), if kept != [] && SameAction(kept[|kept| - 1], a) then kept else kept + [a])
  {
    NewestOfAppend(kept, a, ENTRIES_TO_KEEP);
  }

  /** From an empty status, the history is the newest 16 of the recorded actions
      without consecutive repeats, and the most recent action is its head. */
  lemma {:induction false} HistoryOfRun(actions: seq<Action>)
    ensures Keeps(RecordAll(History(None, []), actions), WithoutRepeats(actions))
  {
    if actions != [] {
      var front, last := actions[..|actions| - 1], actions[|actions| - 1];
      HistoryOfRun(front);
      RecordingKeeps(RecordAll(History(None, []), front), WithoutRepeats(front), last);
      if front != [] { LastKept(front); }
    }
  }

  lemma HeadIsMostRecent(actions: seq<Action>)
    requires actions != []
    ensures var h := RecordAll(History(None, []), actions);
      h.entries != [] && h.mostRecent == Some(h.entries[0]) && SameAction(h.entries[0], actions[|actions| - 1])
  {
    HistoryOfRun(actions);
    LastKept(actions);
  }

  // What counts as a repeat

  /** The same in every field but the time. */
  predicate SameFields(a: Action, b: Action) {
    && a.kind == b.kind && a.message == b.message && a.scheduledStartTime == b.scheduledStartTime
    && a.jobIndex == b.jobIndex && a.jobName == b.jobName
  }

  /** Right after an action another is dropped if it is the same in every field but the
      time, and otherwise goes before the newest 15; unless repeats are wanted. */
  lemma SecondIsAdded(h: History, a: Action, b: Action)
    requires h.mostRecent == Some(a)
    ensures Record(h, b, true) == h <==> SameFields(a, b)
    ensures !SameFields(a, b) ==>
      Record(h, b, true) == History(Some(b), [b] + h.entries[..if |h.entries| < 15 then |h.entries| else 15])
    ensures Record(h, b, false) == History(Some(b), [b] + h.entries[..if |h.entries| < 15 then |h.entries| else 15])
  {
  }

  /** The most recent action is the newest entry. */
  predicate IsHeaded(h: History) {
    if h.entries == [] then h.mostRecent == None else h.mostRecent == Some(h.entries[0])
  }

  /** Recording keeps it so, and keeps at most 16 entries. */
  lemma {:induction false} RecordingIsHeaded(h: History, actions: seq<Action>)
    requires IsHeaded(h) && |h.entries| <= 16
    ensures IsHeaded(RecordAll(h, actions)) && |RecordAll(h, actions).entries| <= 16
  {
    if actions != [] { RecordingIsHeaded(h, actions[..|actions| - 1]); }
  }

  /** From an empty status, exactly 16 once so many have been recorded without repeats. */
  lemma SixteenAreKept(actions: seq<Action>)
    ensures var n := |WithoutRepeats(actions)|; |RecordAll(History(None, []), actions).entries| == if n < 16 then n else 16
  {
    HistoryOfRun(actions);
  }

  /** Each action differs in some field from the one before it. */
  ghost predicate NoneRepeats(actions: seq<Action>) {
    forall i | 0 < i < |actions| :: !SameFields(actions[i - 1], actions[i])
  }

  /** The i-th entry is the i-th action from the end, but for the time. */
  ghost predicate EntryIs(h: History, actions: seq<Action>, i: nat)
    requires i < |actions|
  {
    i < |h.entries| && SameFields(h.entries[i], actions[|actions| - 1 - i])
  }

  lemma OneMoreEntry(h: History, front: seq<Action>, a: Action)
    requires IsHeaded(h) && front != [] && |front| < 16 && !SameFields(front[|front| - 1], a)
    requires forall i | 0 <= i < |front| :: EntryIs(h, front, i)
    ensures forall i | 0 <= i < |front| + 1 :: EntryIs(Record(h, a, true), front + [a], i)
  {
    var r, actions := Record(h, a, true), front + [a];
    assert EntryIs(h, front, 0);
    SecondIsAdded(h, h.entries[0], a);
    forall i | 0 <= i < |front| + 1 ensures EntryIs(r, actions, i) {
      if i > 0 {
        assert EntryIs(h, front, i - 1);
        assert r.entries[i] == h.entries[i - 1];
      }
    }
  }

  /** Of up to 16 actions recorded in a row, none like the one before it, all are among
      the newest entries, newest first. */
  lemma {:induction false} AllAreKept(h: History, actions: seq<Action>)
    requires IsHeaded(h) && |h.entries| <= 16 && |actions| <= 16 && NoneRepeats(actions)
    ensures forall i | 0 <= i < |actions| :: EntryIs(RecordAll(h, actions), actions, i)
  {
    if |actions| > 1 {
      var front := actions[..|actions| - 1];
      assert actions == front + [actions[|front|]];
      AllAreKept(h, front);
      RecordingIsHeaded(h, front);
      OneMoreEntry(RecordAll(h, front), front, actions[|front|]);
    } else if |actions| == 1 {
      assert RecordAll(h, actions[..0]) == h;
    }
  }
}
