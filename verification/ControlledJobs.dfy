/** The ControlledJob resource and the updates of its status. */
module ControlledJobs {
  import opened Wrappers
  import opened Calendar
  import opened Jobs
  import opened Conditions
  import opened ActionHistory
  import opened Decisions

  datatype Status = Status(
    conditions: seq<Condition>,
    active: seq<string>,
    lastScheduledStartTime: Option<Instant>,
    shouldBeRunning: Option<bool>,
    isRunning: Option<bool>,
    isSuspended: Option<bool>,
    history: History)

  /** A write whose clock reading does not matter. */
  function Unclocked(ctype: ConditionType, status: ConditionStatus, why: Explanation): Write {
    Write(ctype, status, why, 0)
  }

  function FlagWrite(ctype: ConditionType, flag: bool, whenTrue: Explanation, whenFalse: Explanation): Write {
    if flag then Unclocked(ctype, True, whenTrue) else Unclocked(ctype, False, whenFalse)
  }

  lemma SameButClockConcat(a: seq<Write>, b: seq<Write>, c: seq<Write>, d: seq<Write>)
    requires SameButClock(a, b) && SameButClock(c, d)
    ensures SameButClock(a + c, b + d)
  {
  }

  /** The conditions after are what writes make of those before, and the writes are
      the expected ones at whatever times the clock was read. */
  ghost predicate Wrote(before: seq<Condition>, generation: int, writes: seq<Write>, after: seq<Condition>,
                        expected: seq<Write>)
  {
    after == PutAll(before, generation, writes) && SameButClock(writes, expected)
  }

  lemma WroteNothing(conditions: seq<Condition>, generation: int)
    ensures Wrote(conditions, generation, [], conditions, [])
  {
  }

  lemma WroteAnother(before: seq<Condition>, generation: int, writes: seq<Write>, middle: seq<Condition>,
                     expected: seq<Write>, w: Write, e: Write)
    requires Wrote(before, generation, writes, middle, expected) && w.(at := 0) == e
    ensures Wrote(before, generation, writes + [w], Put(middle, generation, w), expected + [e])
  {
    PutAllOne(before, generation, writes, w);
  }

  lemma WroteBoth(a: seq<Condition>, b: seq<Condition>, c: seq<Condition>, generation: int,
                  v: seq<Write>, w: seq<Write>, x: seq<Write>, y: seq<Write>)
    requires Wrote(a, generation, v, b, x) && Wrote(b, generation, w, c, y)
    ensures Wrote(a, generation, v + w, c, x + y)
  {
    PutAllConcat(a, generation, v, w);
    SameButClockConcat(v, x, w, y);
  }

  class ControlledJob {
    const spec: Spec
    const generation: int
    var status: Status

    constructor (spec: Spec, generation: int, status: Status)
      ensures this.spec == spec && this.generation == generation && this.status == status
    {
      this.spec, this.generation, this.status := spec, generation, status;
    }

    /** FindCondition, as a position; -1 for nil. */
    method FindCondition(ctype: ConditionType) returns (i: int)
      ensures i == Find(status.conditions, ctype)
    {
      for k := 0 to |status.conditions|
        invariant forall j | 0 <= j < k :: status.conditions[j].ctype != ctype
      {
        if status.conditions[k].ctype == ctype {
          FindIsFirst(status.conditions, ctype, k);
          return k;
        }
      }
      i := -1;
    }

    /** SetCondition reads the clock itself: the write is at an arbitrary instant. */
    method SetCondition(ctype: ConditionType, newStatus: ConditionStatus, why: Explanation) returns (ghost w: Write)
      modifies this
      ensures w.(at := 0) == Unclocked(ctype, newStatus, why)
      ensures status == old(status).(conditions := Put(old(status.conditions), generation, w))
    {
      var now: Instant := *;
      w := Write(ctype, newStatus, why, now);
      var i := FindCondition(ctype);
      if i < 0 {
        status := status.(conditions := status.conditions + [Condition(ctype, newStatus, Some(now), generation, why)]);
        return;
      }
      var existing := status.conditions[i];
      if existing.status != newStatus || existing.transition == None {
        existing := existing.(transition := Some(now));
        existing := existing.(generation := generation);
      }
      existing := existing.(status := newStatus);
      existing := existing.(why := why);
      status := status.(conditions := status.conditions[i := existing]);
    }

    method SetConditionBasedOnFlag(ctype: ConditionType, flag: bool, whenTrue: Explanation, whenFalse: Explanation)
      returns (ghost w: Write)
      modifies this
      ensures w.(at := 0) == FlagWrite(ctype, flag, whenTrue, whenFalse)
      ensures status == old(status).(conditions := Put(old(status.conditions), generation, w))
    {
      if flag {
        w := SetCondition(ctype, True, whenTrue);
      } else {
        w := SetCondition(ctype, False, whenFalse);
      }
    }

    method AddActionHistoryEntry(action: Action, ignoreDuplicates: bool)
      modifies this
      ensures status == old(status).(history := Record(old(status.history), action, ignoreDuplicates))
    {
      if ignoreDuplicates && IsSameAction(status.history.mostRecent, action) { return; }
      var entries := PrependAndTruncate(status.history.entries, action, ENTRIES_TO_KEEP);
      status := status.(history := History(Some(action), entries));
    }
  }
}
