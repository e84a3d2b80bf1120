/**
 What each step of module Scheduler does to the events, told by the events and their places and not by
 the slots of the queues: when the clock moves, who is called or parked, when a kept or rescheduled event
 is due again.
 */
module EventEffects {
  import opened Common
  import opened Scheduler
  import opened Accounts
  import H = PriorityQueue

  /** The events other than `id` are the same. */
  ghost predicate OthersSame(s: State, t: State, id: int) {
    forall x :: x != id ==> (x in t.events <==> x in s.events) && (x in s.events ==> t.events[x] == s.events[x])
  }

  /** The step touches neither the clocks nor the debugger's settings nor the log. */
  ghost predicate SameRest(s: State, t: State) {
    && t.clock == s.clock && t.active == s.active && t.wall == s.wall && t.breakOnNext == s.breakOnNext
    && t.stepsToBreak == s.stepsToBreak && t.phase == s.phase && t.log == s.log
  }

  // ---------------------------------------------------------------- the loop

  /** ET_virt_block.  With nothing parked and no reply awaited, a clock that is not paused moves to the
      earliest awake time of the main queue, and that event is then due; otherwise it stands still. */
  lemma BlockReachesFirst(s: State, waiting: bool)
    requires Accounted(s)
    ensures var t := BlockClock(s, waiting);
            && t == s.(clock := t.clock, phase := t.phase)
            && t.phase == (if s.slot.Empty? && !waiting then Drain else Rest)
            && if s.slot.Empty? && !waiting && s.active && H.Ids(s.main) != {} then
                 && (exists id :: id in H.Ids(s.main) && s.events[id].awake == t.clock)
                 && (forall id :: id in H.Ids(s.main) ==> t.clock <= s.events[id].awake)
                 && Due(t)
               else t.clock == s.clock
  {
    if |s.main| > 1 {
      HeadIsFirst(s.main, s.events);
    }
  }

  /** Something is due if and only if the time of some event of the queue has come. */
  lemma DueMeans(s: State)
    requires Accounted(s)
    ensures Due(s) <==> exists id :: id in H.Ids(s.main) && s.events[id].awake <= s.clock
    ensures DueDebug(s) <==> exists id :: id in H.Ids(s.debug) && s.events[id].awake <= s.wall
  {
    if |s.main| > 1 {
      HeadIsFirst(s.main, s.events);
    }
    if |s.debug| > 1 {
      HeadIsFirst(s.debug, s.events);
    }
  }

  /** An earliest event of the main queue, when it is due, is taken out and called, which the log records,
      unless a breakpoint parks it: its own or that of the next event, and the count of steps is used up. */
  lemma FirstFires(s: State)
    requires Accounted(s) && Due(s)
    ensures var t, id := FireEvent(s), s.main[1].id;
            var e := s.events[id];
            var breaks := s.breakOnNext || e.breakpoint;
            && (forall x :: x in H.Ids(s.main) ==> e.awake <= s.events[x].awake) && e.awake <= s.clock
            && t.stepsToBreak == s.stepsToBreak - (if breaks then 1 else 0)
            && if breaks && s.stepsToBreak <= 1 then
                 && t.slot == Parked(id) && !t.breakOnNext && t.running == s.running && t.log == s.log
                 && t.events == s.events && t.phase.Rest?
               else
                 && t.running == Some(id) && t.log == s.log + [Firing(id, e.awake, s.clock)] && t.slot == s.slot
                 && t.breakOnNext == s.breakOnNext && t.phase == s.phase
                 && OthersSame(s, t, id) && id in t.events && t.events[id] == e.(inCallback := 1)
  {
    HeadIsFirst(s.main, s.events);
    assert s.events[s.main[1].id].queue == Main;
  }

  /** The debug queue goes by the wall clock; its calls are not in the log of virtual time. */
  lemma DebugFires(s: State)
    requires Accounted(s) && DueDebug(s)
    ensures var t, id := FireDebugEvent(s), s.debug[1].id;
            && (forall x :: x in H.Ids(s.debug) ==> s.events[id].awake <= s.events[x].awake)
            && s.events[id].awake <= s.wall && t.running == Some(id) && SameRest(s, t) && t.slot == s.slot
            && OthersSame(s, t, id) && id in t.events && t.events[id] == s.events[id].(inCallback := 1)
  {
    HeadIsFirst(s.debug, s.events);
    assert s.events[s.debug[1].id].queue == Debug;
  }

  lemma KeptPlace(s: State, id: int)
    requires Accounted(s) && s.running == Some(id)
    ensures id in s.events
    ensures var t := Leave(s, id, true); id in (if s.events[id].queue.Main? then H.Ids(t.main) else H.Ids(t.debug))
  {
    KeepAccounted(s, id);
    assert id in ViewOf(Leave(s, id, true)).main || id in ViewOf(Leave(s, id, true)).debug;
  }

  /** After the callback: the event lives on if and only if it is kept.  Then it is due a step after its
      last time or, if it was rescheduled in the callback, at its new time and no step later. */
  lemma ReturnMeans(s: State, id: int, keep: bool)
    requires Accounted(s) && s.running == Some(id)
    ensures var t, e := Next(s, Return(keep)), s.events[id];
            && t.running.None? && OthersSame(s, t, id) && (id in t.events <==> keep)
            && t.slot == (if s.slot == Parked(id) then Empty else s.slot) && SameRest(s, t)
            && (keep ==>
                  && t.events[id].awake == (if e.inCallback == 1 then e.awake + e.step else e.awake)
                  && t.events[id].scheduled ==
                     (if e.inCallback != 1 then e.scheduled else if e.queue.Main? then s.clock else s.wall)
                  && t.events[id] ==
                     e.(awake := t.events[id].awake, scheduled := t.events[id].scheduled, inCallback := 0)
                  && id in (if e.queue.Main? then H.Ids(t.main) else H.Ids(t.debug)))
  {
    hide H.Inserted;
    hide Accounted;
    KeptPlace(s, id);
  }

  // ---------------------------------------------------------------- the interface

  /** EVT_sched_add: one new event, critical, due after the delay. */
  lemma AddMeans(s: State, delay: int, step: int)
    requires Accounted(s)
    ensures var t, id := AddEvent(s, delay, step), s.next;
            && t.next == id + 1 && id !in s.events && OthersSame(s, t, id) && SameRest(s, t)
            && id in t.events && id in H.Ids(t.main) && t.events[id].awake == s.clock + delay
            && t.events[id].scheduled == s.clock && t.events[id].step == step && t.events[id].critical
            && !t.events[id].breakpoint && t.events[id].queue.Main? && t.events[id].inCallback == 0
  {
    hide H.Inserted;
    AddAccounted(s, delay, step);
    assert s.next in ViewOf(AddEvent(s, delay, step)).main;
  }

  /** Both reschedules: the event changes and stays in its place. */
  lemma RescheduleMeans(s: State, id: int, e: Event)
    requires Accounted(s) && id in s.events && (s.events[id].inCallback != 0 || Queued(s, id))
    requires e == s.events[id].(scheduled := e.scheduled, awake := e.awake, step := e.step)
    ensures var t := Rescheduled(s, id, e);
            && t.events == s.events[id := if s.events[id].inCallback != 0 then e.(inCallback := 2) else e]
            && SameRest(s, t) && SamePlace(s, t)
  {
    hide H.Bubbled;
    hide Accounted;
    RescheduleAccountedIff(s, id, e);
    SamePlaceView(s, Rescheduled(s, id, e));
  }

  /** EVT_sched_update: due after the delay from now on, and with that step; an event in its callback is
      marked so that its return does not add the step. */
  lemma UpdateMeans(s: State, id: int, delay: int)
    requires Accounted(s) && Enabled(s, Update(id, delay))
    ensures var t, e := Next(s, Update(id, delay)), s.events[id];
            var now := if e.queue.Main? then s.clock else s.wall;
            && OthersSame(s, t, id) && SameRest(s, t) && id in t.events && SamePlace(s, t)
            && t.events[id].awake == now + delay && t.events[id].scheduled == now && t.events[id].step == delay
            && t.events[id].inCallback == (if e.inCallback == 0 then 0 else 2)
            && t.events[id] == e.(awake := t.events[id].awake, scheduled := t.events[id].scheduled, step := delay,
                                  inCallback := t.events[id].inCallback)
  {
    hide Accounted;
    hide Rescheduled;
    RescheduleMeans(s, id, UpdatedEvent(s, id, delay));
  }

  /** EVT_sched_update_partial_credit: due at the later of now and the delay after it was scheduled. */
  lemma CreditMeans(s: State, id: int, delay: int)
    requires Accounted(s) && Enabled(s, Credit(id, delay))
    ensures var t, e := Next(s, Credit(id, delay)), s.events[id];
            var now := if e.queue.Main? then s.clock else s.wall;
            && OthersSame(s, t, id) && SameRest(s, t) && id in t.events && SamePlace(s, t)
            && t.events[id].awake >= now && t.events[id].awake >= e.scheduled + delay
            && (t.events[id].awake == now || t.events[id].awake == e.scheduled + delay) && t.events[id].step == delay
            && t.events[id].inCallback == (if e.inCallback == 0 then 0 else 2)
            && t.events[id] == e.(awake := t.events[id].awake, step := delay, inCallback := t.events[id].inCallback)
  {
    hide Accounted;
    hide Rescheduled;
    RescheduleMeans(s, id, CreditedEvent(s, id, delay));
  }

  /** Every event is where it was. */
  ghost predicate SamePlace(s: State, t: State) {
    && H.Ids(t.main) == H.Ids(s.main) && H.Ids(t.debug) == H.Ids(s.debug) && t.slot == s.slot
    && t.running == s.running && t.next == s.next
  }

  lemma SamePlaceView(s: State, t: State)
    requires ViewOf(t) == ViewOf(s).(events := t.events)
    ensures SamePlace(s, t)
  {
    assert ViewOf(t).main == ViewOf(s).main && ViewOf(t).debug == ViewOf(s).debug && ViewOf(t).slot == ViewOf(s).slot;
    assert ViewOf(t).running == ViewOf(s).running && ViewOf(t).next == ViewOf(s).next;
  }

  /** A callback that reschedules its own event and asks to be kept is called again after that delay. */
  lemma RescheduledInCallback(s: State, id: int, delay: int)
    requires Accounted(s) && s.running == Some(id)
    ensures Enabled(s, Update(id, delay))
    ensures var t := Next(s, Update(id, delay));
            && t.running == Some(id) && id in t.events
            && var u := Next(t, Return(true));
               id in u.events && u.events[id].awake == (if s.events[id].queue.Main? then s.clock else s.wall) + delay
  {
    UpdateMeans(s, id, delay);
    StepAccounted(s, Update(id, delay));
    ReturnMeans(Next(s, Update(id, delay)), id, true);
  }

  lemma RunningIff(s: State, id: int)
    requires Accounted(s) && id in s.events
    ensures s.events[id].inCallback != 0 <==> s.running == Some(id)
  {}

  /** EVT_sched_remove: the event is freed, unless its callback is running. */
  lemma RemoveMeans(s: State, id: int)
    requires Accounted(s) && id in s.events
    ensures var t := RemoveEvent(s, id);
            if s.running == Some(id) then t == s
            else
              && id !in t.events && OthersSame(s, t, id) && SameRest(s, t) && t.running == s.running && t.next == s.next
              && t.slot == (if s.slot == Parked(id) then Null else s.slot)
              && t.criticalCount == s.criticalCount - (if s.events[id].critical then 1 else 0)
  {
    hide H.Removed;
    hide Accounted;
    RunningIff(s, id);
  }

  /** EVT_sched_move_to_mono, of an event that is not tied: from the main queue to the debug queue, due a
      step from now by the wall clock, and not critical any more. */
  lemma MonoMeans(s: State, id: int)
    requires Accounted(s) && Queued(s, id) && !Tied(s, id)
    ensures var t, e := MoveToMono(s, id), s.events[id];
            && OthersSame(s, t, id) && SameRest(s, t) && id in t.events
            && t.events[id].awake == s.wall + e.step && t.events[id].scheduled == s.wall
            && !t.events[id].critical && t.events[id].queue.Debug? && t.events[id].step == e.step
            && t.criticalCount == s.criticalCount - (if e.critical then 1 else 0)
    ensures H.Ids(MoveToMono(s, id).main) == H.Ids(s.main) - {id}
    ensures H.Ids(MoveToMono(s, id).debug) == H.Ids(s.debug) + {id}
  {
    hide H.Removed;
    hide H.Inserted;
    hide Accounted;
    MonoMoved(s, id);
  }

  lemma MonoMoved(s: State, id: int)
    requires Accounted(s) && Queued(s, id) && !Tied(s, id)
    ensures H.Ids(MoveToMono(s, id).main) == H.Ids(s.main) - {id}
    ensures H.Ids(MoveToMono(s, id).debug) == H.Ids(s.debug) + {id}
  {
    hide H.Removed;
    hide H.Inserted;
    hide Accounted;
    var u := Dequeue(s, id, s.events[id].queue);
    DequeueMeans(s, id);
    H.InsertedMeans(u.debug, H.Item(s.wall + s.events[id].step, id));
  }

  /** EVT_sched_set_critical. */
  lemma CriticalMeans(s: State, id: int, critical: bool)
    requires Accounted(s) && id in s.events
    ensures var t := SetEventCritical(s, id, critical);
            && OthersSame(s, t, id) && SameRest(s, t) && SamePlace(s, t) && id in t.events
            && t.events[id] == s.events[id].(critical := critical)
            && t.criticalCount == |set x | x in s.events && if x == id then critical else s.events[x].critical|
  {
    var t := SetEventCritical(s, id, critical);
    MarkAccounted(s, id, s.events[id].(critical := critical), t.criticalCount);
    assert (set x | x in s.events && if x == id then critical else s.events[x].critical) == Criticals(t.events);
  }

  /** EVT_sched_make_breakpoint. */
  lemma BreakpointMeans(s: State, id: int)
    requires id in s.events
    ensures var t := Next(s, MakeBreakpoint(id));
            && OthersSame(s, t, id) && SameRest(s, t) && SamePlace(s, t) && t.criticalCount == s.criticalCount
            && id in t.events && t.events[id] == s.events[id].(breakpoint := true)
  {}
}
