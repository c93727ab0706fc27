/**
  When the transition time of a condition moves: with its status and with nothing else.
 */
module TransitionTimes {
  import opened Wrappers
  import opened Calendar
  import opened Jobs
  import opened Conditions

  /** The status a type has after some writes: that of its last write, or as found. */
  function LastStatus(conditions: seq<Condition>, writes: seq<Write>, ctype: ConditionType): Option<ConditionStatus> {
    if writes == [] then
      var i := Find(conditions, ctype);
      if i < 0 then None else Some(conditions[i].status)
    else
      var w := writes[|writes| - 1];
      if w.ctype == ctype then Some(w.status) else LastStatus(conditions, writes[..|writes| - 1], ctype)
  }

  lemma {:induction false} StatusIsLast(conditions: seq<Condition>, generation: int, writes: seq<Write>, ctype: ConditionType)
    ensures var r := PutAll(conditions, generation, writes);
      var i := Find(r, ctype);
      LastStatus(conditions, writes, ctype) == if i < 0 then None else Some(r[i].status)
  {
    if writes != [] {
      var front, w := writes[..|writes| - 1], writes[|writes| - 1];
      StatusIsLast(conditions, generation, front, ctype);
      if w.ctype == ctype {
        PutSettles(PutAll(conditions, generation, front), generation, w);
      } else {
        PutFrame(PutAll(conditions, generation, front), generation, w, ctype);
      }
    }
  }

  /** The type is missing, or has a transition time. */
  predicate IsTimed(conditions: seq<Condition>, ctype: ConditionType) {
    var i := Find(conditions, ctype);
    i >= 0 ==> conditions[i].transition != None
  }

  /** The condition of that type, as it is. */
  predicate IsAt(conditions: seq<Condition>, ctype: ConditionType, transition: Option<Instant>, generation: int) {
    var i := Find(conditions, ctype);
    i >= 0 && conditions[i].transition == transition && conditions[i].generation == generation
  }

  // One write

  lemma OneWrite(conditions: seq<Condition>, generation: int, w: Write)
    requires IsTimed(conditions, w.ctype)
    ensures var i := Find(conditions, w.ctype);
      if i >= 0 && conditions[i].status == w.status
      then IsAt(Put(conditions, generation, w), w.ctype, conditions[i].transition, conditions[i].generation)
      else IsAt(Put(conditions, generation, w), w.ctype, Some(w.at), generation)
  {
    var i := Find(conditions, w.ctype);
    FindIsFirst(Put(conditions, generation, w), w.ctype, if i < 0 then |conditions| else i);
  }

  /** A write of the status there is, with whatever reason and at whatever time, leaves
      the transition time and the generation. */
  lemma ReasonsDoNotMove(conditions: seq<Condition>, generation: int, w: Write)
    requires LastStatus(conditions, [], w.ctype) == Some(w.status) && IsTimed(conditions, w.ctype)
    ensures var r, i := Put(conditions, generation, w), Find(conditions, w.ctype);
      && Find(r, w.ctype) == i >= 0
      && r[i] == conditions[i].(why := w.why)
  {
    var i := Find(conditions, w.ctype);
    FindIsFirst(Put(conditions, generation, w), w.ctype, i);
  }

  lemma OtherWrite(conditions: seq<Condition>, generation: int, w: Write, ctype: ConditionType, at: Option<Instant>, g: int)
    requires w.ctype != ctype && IsAt(conditions, ctype, at, g)
    ensures IsAt(Put(conditions, generation, w), ctype, at, g)
  {
    PutFrame(conditions, generation, w, ctype);
  }

  // All writes

  /** From the k-th write on the type keeps one status, which it did not have before. */
  ghost predicate BeginsStretch(conditions: seq<Condition>, writes: seq<Write>, k: nat, ctype: ConditionType) {
    && k < |writes| && writes[k].ctype == ctype
    && LastStatus(conditions, writes[..k], ctype) != Some(writes[k].status)
    && forall i | k < i < |writes| && writes[i].ctype == ctype :: writes[i].status == writes[k].status
  }

  /** Every write of the type repeats the status that was found. */
  ghost predicate OnlyRepeats(conditions: seq<Condition>, writes: seq<Write>, ctype: ConditionType) {
    forall i | 0 <= i < |writes| && writes[i].ctype == ctype :: Some(writes[i].status) == LastStatus(conditions, [], ctype)
  }

  lemma {:induction false} TimedStays(conditions: seq<Condition>, generation: int, writes: seq<Write>, ctype: ConditionType)
    requires IsTimed(conditions, ctype)
    ensures IsTimed(PutAll(conditions, generation, writes), ctype)
  {
    if writes != [] {
      var front, w := writes[..|writes| - 1], writes[|writes| - 1];
      TimedStays(conditions, generation, front, ctype);
      if w.ctype == ctype {
        PutSettles(PutAll(conditions, generation, front), generation, w);
      } else {
        PutFrame(PutAll(conditions, generation, front), generation, w, ctype);
      }
    }
  }

  /** The transition time and the generation are those of the first write of the last
      stretch of equal statuses, whatever the reasons. */
  lemma {:induction false} FirstOfStretchCounts(conditions: seq<Condition>, generation: int, writes: seq<Write>, k: nat,
                                                ctype: ConditionType)
    requires IsTimed(conditions, ctype) && BeginsStretch(conditions, writes, k, ctype)
    ensures IsAt(PutAll(conditions, generation, writes), ctype, Some(writes[k].at), generation)
  {
    var front, w := writes[..|writes| - 1], writes[|writes| - 1];
    var before := PutAll(conditions, generation, front);
    TimedStays(conditions, generation, front, ctype);
    StatusIsLast(conditions, generation, front, ctype);
    if k == |front| {
      assert writes[..k] == front;
      OneWrite(before, generation, w);
    } else {
      assert front[..k] == writes[..k] && front[k] == writes[k];
      FirstOfStretchCounts(conditions, generation, front, k, ctype);
      if w.ctype == ctype {
        StretchGoesOn(conditions, front, k, ctype);
        OneWrite(before, generation, w);
      } else {
        OtherWrite(before, generation, w, ctype, Some(writes[k].at), generation);
      }
    }
  }

  lemma {:induction false} StretchGoesOn(conditions: seq<Condition>, writes: seq<Write>, k: nat, ctype: ConditionType)
    requires BeginsStretch(conditions, writes, k, ctype)
    ensures LastStatus(conditions, writes, ctype) == Some(writes[k].status)
  {
    var front, w := writes[..|writes| - 1], writes[|writes| - 1];
    if w.ctype != ctype {
      assert front[..k] == writes[..k] && front[k] == writes[k];
      StretchGoesOn(conditions, front, k, ctype);
    }
  }

  /** Without such a write they stay as they were. */
  lemma {:induction false} RepeatsDoNotMove(conditions: seq<Condition>, generation: int, writes: seq<Write>, ctype: ConditionType)
    requires IsTimed(conditions, ctype) && OnlyRepeats(conditions, writes, ctype) && Find(conditions, ctype) >= 0
    ensures var i := Find(conditions, ctype);
      IsAt(PutAll(conditions, generation, writes), ctype, conditions[i].transition, conditions[i].generation)
    ensures LastStatus(conditions, writes, ctype) == LastStatus(conditions, [], ctype)
  {
    if writes != [] {
      var front, w := writes[..|writes| - 1], writes[|writes| - 1];
      RepeatsDoNotMove(conditions, generation, front, ctype);
      var before, i := PutAll(conditions, generation, front), Find(conditions, ctype);
      TimedStays(conditions, generation, front, ctype);
      StatusIsLast(conditions, generation, front, ctype);
      if w.ctype == ctype {
        OneWrite(before, generation, w);
      } else {
        OtherWrite(before, generation, w, ctype, conditions[i].transition, conditions[i].generation);
      }
    }
  }

  lemma StretchGrows(conditions: seq<Condition>, writes: seq<Write>, w: Write, k: nat, ctype: ConditionType)
    requires BeginsStretch(conditions, writes, k, ctype) && (w.ctype == ctype ==> w.status == writes[k].status)
    ensures BeginsStretch(conditions, writes + [w], k, ctype)
  {
    assert (writes + [w])[..k] == writes[..k];
  }

  lemma NewStretch(conditions: seq<Condition>, writes: seq<Write>, w: Write, ctype: ConditionType)
    requires w.ctype == ctype && LastStatus(conditions, writes, ctype) != Some(w.status)
    ensures BeginsStretch(conditions, writes + [w], |writes|, ctype)
  {
    assert (writes + [w])[..|writes|] == writes;
  }

  /** One of the two is the case. */
  lemma {:induction false} StretchOrRepeats(conditions: seq<Condition>, writes: seq<Write>, ctype: ConditionType)
    returns (k: nat)
    ensures BeginsStretch(conditions, writes, k, ctype) || OnlyRepeats(conditions, writes, ctype)
  {
    if writes == [] { return 0; }
    var front, w := writes[..|writes| - 1], writes[|writes| - 1];
    assert writes == front + [w];
    k := StretchOrRepeats(conditions, front, ctype);
    if w.ctype == ctype && LastStatus(conditions, front, ctype) != Some(w.status) {
      NewStretch(conditions, front, w, ctype);
      return |front|;
    }
    if BeginsStretch(conditions, front, k, ctype) {
      StretchGoesOn(conditions, front, k, ctype);
      StretchGrows(conditions, front, w, k, ctype);
    } else {
      RepeatedStatus(conditions, front, ctype);
    }
  }

  lemma {:induction false} RepeatedStatus(conditions: seq<Condition>, writes: seq<Write>, ctype: ConditionType)
    requires OnlyRepeats(conditions, writes, ctype)
    ensures LastStatus(conditions, writes, ctype) == LastStatus(conditions, [], ctype)
  {
    if writes != [] {
      var front := writes[..|writes| - 1];
      assert OnlyRepeats(conditions, front, ctype);
      RepeatedStatus(conditions, front, ctype);
    }
  }
}
