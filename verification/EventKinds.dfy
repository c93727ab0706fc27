/**
  Which events count as what: only a stop ends a run period, only a start begins one,
  and an event of another kind, such as a restart, does neither; and what the decision reads of it.
 */
module EventKinds {
  import opened Wrappers
  import opened Calendar
  import opened NearestEvent
  import opened ScheduleState
  import D = Decisions
  import J = Jobs

  /** The events of one kind, in their order. */
  function OfKind(events: seq<EventSpec>, kind: EventType): seq<EventSpec> {
    if events == [] then []
    else if events[0].action == kind then [events[0]] + OfKind(events[1..], kind)
    else OfKind(events[1..], kind)
  }

  lemma {:induction false} KeptByFilters(events: seq<EventSpec>)
    ensures Considered(events, IsStop) == OfKind(events, Stop)
    ensures Considered(events, IsStart) == OfKind(events, Start)
    ensures Considered(events, AnyEvent) == events
  {
    if events != [] { KeptByFilters(events[1..]); }
  }

  lemma {:induction false} OfKindMembers(events: seq<EventSpec>, kind: EventType)
    ensures forall e :: e in OfKind(events, kind) <==> e in events && e.action == kind
  {
    if events != [] { OfKindMembers(events[1..], kind); }
  }

  /** The last stop is the previous event of the stops alone: events of other kinds do
      not matter, not even when they cannot be parsed. */
  lemma StopsGiveLastStop(events: seq<EventSpec>, loc: Location, now: Instant)
    ensures MostRecentStopTime(events, loc, now) == TimeOf(Nearest(OfKind(events, Stop), loc, now, Previous, AnyEvent))
  {
    KeptByFilters(events);
    KeptByFilters(OfKind(events, Stop));
  }

  /** The run period begins with the next event of the starts alone, after the last of
      the stops alone; without a stop it is an error exactly when there are starts. */
  lemma StartsGiveRunPeriod(events: seq<EventSpec>, loc: Location, now: Instant)
    ensures StartOfCurrentRunPeriod(events, loc, now)
      == match TimeOf(Nearest(OfKind(events, Stop), loc, now, Previous, AnyEvent))
         case Err(e) => Err(e)
         case Ok(Some(stop)) => TimeOf(Nearest(OfKind(events, Start), loc, stop, Next, AnyEvent))
         case Ok(None) => if OfKind(events, Start) != [] then Err(NO_STOP_EVENTS) else Ok(None)
  {
    KeptByFilters(events);
    KeptByFilters(OfKind(events, Stop));
    KeptByFilters(OfKind(events, Start));
    OfKindMembers(events, Start);
    if OfKind(events, Start) != [] {
      var e := OfKind(events, Start)[0];
      assert e in OfKind(events, Start);
    }
  }

  /** The events of the other kinds only show as the previous and the next event: the
      job should be running exactly when the last to fire was a start, and neither a
      stop nor anything else. */
  lemma OnlyStartsRun(s: Schedule, now: Instant)
    requires StateFor(s, now).Ok?
    ensures StateFor(s, now).value.ShouldBeRunning() <==>
      exists t :: StateFor(s, now).value.previous == Some(ScheduledEvent(Start, t))
  {
    var st := StateFor(s, now).value;
    if st.previous.Some? {
      assert st.previous == Some(ScheduledEvent(st.previous.value.action, st.previous.value.time));
    }
  }

  /** The state of a schedule with other kinds of events in it has the last stop and the
      run period of the starts and stops alone. */
  lemma OtherEventsDoNotCount(s: Schedule, plain: Schedule, now: Instant)
    requires plain == s.(events := plain.events)
    requires OfKind(plain.events, Start) == OfKind(s.events, Start) && OfKind(plain.events, Stop) == OfKind(s.events, Stop)
    requires StateFor(s, now).Ok? && StateFor(plain, now).Ok?
    ensures StateFor(s, now).value.lastStop == StateFor(plain, now).value.lastStop
    ensures StateFor(s, now).value.runPeriodStart == StateFor(plain, now).value.runPeriodStart
  {
    var loc := Location(s.zone.value, s.offset);
    StopsGiveLastStop(s.events, loc, now);
    StopsGiveLastStop(plain.events, loc, now);
    StartsGiveRunPeriod(s.events, loc, now);
    StartsGiveRunPeriod(plain.events, loc, now);
  }

  lemma ReadableKinds(events: seq<EventSpec>, loc: Location, now: Instant)
    requires AllParsed(events)
    ensures Nearest(events, loc, now, Previous, AnyEvent).Ok? && Nearest(events, loc, now, Next, AnyEvent).Ok?
    ensures forall at, direction :: Nearest(events, loc, at, direction, IsStop).Ok? && Nearest(events, loc, at, direction, IsStart).Ok?
  {
    KeptByFilters(events);
    OfKindMembers(events, Stop);
    OfKindMembers(events, Start);
  }

  /** A state cannot be had for an unknown zone, then for an event that cannot be parsed,
      of whatever kind and the first of them, and then for starts without a stop. */
  lemma StateFailsIff(s: Schedule, now: Instant)
    ensures s.zone.Err? ==> StateFor(s, now) == Err(s.zone.error)
    ensures s.zone.Ok? && !AllParsed(s.events) ==> exists i | 0 <= i < |s.events| ::
      s.events[i].schedule.Err? && AllParsed(s.events[..i]) && StateFor(s, now) == Err(s.events[i].schedule.error)
    ensures s.zone.Ok? && AllParsed(s.events) ==>
      var stop := MostRecentStopTime(s.events, Location(s.zone.value, s.offset), now);
      && stop.Ok? && (StateFor(s, now).Err? <==> stop.value == None && exists e | e in s.events :: e.action == Start)
      && (StateFor(s, now).Err? ==> StateFor(s, now) == Err("No previous stop events found, only start events"))
  {
    if s.zone.Ok? {
      var loc := Location(s.zone.value, s.offset);
      if AllParsed(s.events) {
        ReadableKinds(s.events, loc, now);
      } else {
        KeptByFilters(s.events);
        NearestIsNearestEvent(s.events, loc, now, Previous, AnyEvent);
      }
    }
  }

  /** What the decision reads of the schedule and the spec: there is a run period exactly
      when a start follows the last stop, and then the job should be running exactly when
      the last event to fire was a start. */
  lemma DecisionReads(spec: D.Spec, jobs: seq<J.Job>, now: Instant, s: D.State)
    requires D.BuildState(spec, jobs, now) == Ok(s)
    ensures StateFor(spec.schedule, now).Ok?
    ensures var st := StateFor(spec.schedule, now).value;
      && s.lastStop == st.lastStop && s.start == st.runPeriodStart
      && (s.shouldBeRunning == None <==> st.runPeriodStart == None)
      && (s.shouldBeRunning == Some(true) <==>
            st.runPeriodStart != None && exists t :: st.previous == Some(ScheduledEvent(Start, t)))
      && (s.nextEvent == None <==> st.next == None)
      && (st.next.Some? ==> s.nextEvent == Some(st.next.value.time))
    ensures s.isSuspended <==> spec.suspend == Some(true)
    ensures s.jobs == jobs && s.desiredHash == spec.template.hash && s.autoRestart == spec.recreateOnSpecChange
  {
    OnlyStartsRun(spec.schedule, now);
  }
}
