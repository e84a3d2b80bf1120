/**
 The event handler and the loop of events.c over the timed events of module Scheduler: what callbacks do
 is a script of interface calls, and the loop, over two heaps of events, is proved to compute the turns of
 the script.
 */
module EventLoop {
  import opened Common
  import opened Scheduler
  import opened Accounts
  import opened VirtualClock
  import opened TimedQueues
  import H = PriorityQueue

  // ---------------------------------------------------------------- scripts

  /** What a callback does: interface calls, and whether it wants to be kept. */
  datatype Call = Call(ops: seq<Step>, keep: bool)

  /** The calls are made within the conditions of the interface, each in the state it is made in. */
  ghost predicate Supported(s: State, ops: seq<Step>)
    decreases |ops|
  {
    ops == [] ||
    (&& Interface(ops[0]) && Forward(ops[0]) && Enabled(s, ops[0]) && Clean(s, ops[0])
     && Supported(Next(s, ops[0]), ops[1..]))
  }

  /** The state after the calls. */
  ghost function Made(s: State, ops: seq<Step>): State
    requires Supported(s, ops)
    decreases |ops|
  {
    if ops == [] then s else Made(Next(s, ops[0]), ops[1..])
  }

  /** A callback that was entered in `s` has run and returned. */
  ghost function Called(s: State, c: Call): State
    requires Supported(s, c.ops)
  {
    var t := Made(s, c.ops);
    if t.running.Some? && t.running.value in t.events then Leave(t, t.running.value, c.keep) else t
  }

  /** The drain with these callbacks: until nothing is due, an event is parked, or the script has ended. */
  ghost predicate DrainSupported(s: State, calls: seq<Call>)
    decreases |calls|
  {
    if calls == [] || !Due(s) then true else
      var t := FireEvent(s);
      t.running.None? || (Supported(t, calls[0].ops) && DrainSupported(Called(t, calls[0]), calls[1..]))
  }

  ghost function Drained(s: State, calls: seq<Call>): State
    requires DrainSupported(s, calls)
    decreases |calls|
  {
    if calls == [] || !Due(s) then s.(phase := Rest) else
      var t := FireEvent(s);
      if t.running.None? then t else Drained(Called(t, calls[0]), calls[1..])
  }

  /** One turn of the loop: a single step before it, the critical descriptors there are then, a pending
      reply that pauses time, and what the callbacks do that it calls. */
  datatype Turn = Turn(step: bool, stepped: Call, criticalFds: int, waiting: bool, calls: seq<Call>)

  /** The single step of the debugger. */
  ghost predicate StepSupported(s: State, c: Call) {
    s.slot.Parked? && s.slot.id in s.events ==> Supported(Enter(s, s.slot.id), c.ops)
  }

  ghost function Stepped(s: State, c: Call): State
    requires StepSupported(s, c)
  {
    if s.slot.Parked? && s.slot.id in s.events then Called(Enter(s, s.slot.id), c) else s.(slot := Empty)
  }

  /** The bits EVT_EXIT_SCHED and EVT_EXIT_FD of the argument of the loop; none is EVT_NEVER_EXIT. */
  datatype AutoExit = AutoExit(sched: bool, fd: bool)

  /** The loop's own test for an automatic exit: a bit is asked for, and no kind of work asked for is left.
      `criticalFds` is the number of critical descriptors (module FdTable). */
  predicate Exits(s: State, criticalFds: int, auto: AutoExit) {
    (auto.sched || auto.fd) && !(auto.sched && s.criticalCount > 0) && !(auto.fd && criticalFds > 0)
  }

  ghost predicate AdvanceSupported(s: State, waiting: bool, calls: seq<Call>) {
    BlockClock(s, waiting).phase.Drain? ==> DrainSupported(BlockClock(s, waiting), calls)
  }

  /** The rest of the turn: block, drain, and back to the top. */
  ghost function Advanced(s: State, waiting: bool, calls: seq<Call>): State
    requires AdvanceSupported(s, waiting, calls)
  {
    var t := BlockClock(s, waiting);
    (if t.phase.Drain? then Drained(t, calls) else t).(phase := Top)
  }

  ghost predicate TurnSupported(s: State, t: Turn, auto: AutoExit) {
    && (t.step ==> StepSupported(s, t.stepped))
    && var s1 := if t.step then Stepped(s, t.stepped) else s;
       Exits(s1, t.criticalFds, auto) || AdvanceSupported(s1, t.waiting, t.calls)
  }

  /** The state after the turn, and whether the loop exits. */
  ghost function Turned(s: State, t: Turn, auto: AutoExit): (State, bool)
    requires TurnSupported(s, t, auto)
  {
    var s1 := if t.step then Stepped(s, t.stepped) else s;
    if Exits(s1, t.criticalFds, auto) then (s1, true) else (Advanced(s1, t.waiting, t.calls), false)
  }

  ghost predicate LoopSupported(s: State, turns: seq<Turn>, auto: AutoExit)
    decreases |turns|
  {
    turns == [] ||
    (&& TurnSupported(s, turns[0], auto)
     && var (s1, exits) := Turned(s, turns[0], auto); exits || LoopSupported(s1, turns[1..], auto))
  }

  /** The loop over a script of turns. */
  ghost function Looped(s: State, turns: seq<Turn>, auto: AutoExit): (State, bool)
    requires LoopSupported(s, turns, auto)
    decreases |turns|
  {
    if turns == [] then (s, false) else
      var (s1, exits) := Turned(s, turns[0], auto);
      if exits then (s1, true) else Looped(s1, turns[1..], auto)
  }

  lemma {:induction false} MadeSound(s: State, ops: seq<Step>)
    requires Sound(s) && Supported(s, ops)
    ensures Sound(Made(s, ops)) && SameTurn(s, Made(s, ops))
    decreases |ops|
  {
    if ops != [] {
      StepSound(s, ops[0]);
      InterfaceTurn(s, ops[0]);
      MadeSound(Next(s, ops[0]), ops[1..]);
    }
  }

  lemma CalledSound(s: State, c: Call)
    requires Sound(s) && s.running.Some? && Supported(s, c.ops)
    ensures var t := Called(s, c);
            Sound(t) && t.running.None? && t.phase == s.phase && t.clock == s.clock && t.log == s.log
    ensures var t := Made(s, c.ops); t.running == s.running && t.running.value in t.events
  {
    MadeSound(s, c.ops);
    StepSound(Made(s, c.ops), Return(c.keep));
  }

  lemma PhaseSound(s: State, p: Phase)
    requires Sound(s) && !p.Drain?
    ensures Sound(s.(phase := p))
  {
    SamePlaces(s, s.(phase := p));
  }

  /** The drain keeps the invariants, and leaves nothing due unless it parked an event or ran out of
      script. */
  lemma {:induction false} DrainedSound(s: State, calls: seq<Call>)
    requires Sound(s) && s.phase.Drain? && s.running.None? && DrainSupported(s, calls)
    ensures var t := Drained(s, calls);
            && Sound(t) && t.running.None? && t.phase.Rest? && t.clock == s.clock && s.log <= t.log
            && (|t.log| - |s.log| < |calls| && !t.slot.Parked? ==> !Due(t))
    decreases |calls|
  {
    if calls == [] || !Due(s) {
      PhaseSound(s, Rest);
    } else {
      StepSound(s, Fire);
      var t := FireEvent(s);
      FireTurn(s);
      if t.running.Some? {
        CalledSound(t, calls[0]);
        DrainedSound(Called(t, calls[0]), calls[1..]);
      }
    }
  }

  lemma FireTurn(s: State)
    requires Accounted(s) && s.phase.Drain? && s.running.None? && Due(s)
    ensures var t := FireEvent(s);
            && t.clock == s.clock
            && (if t.running.None? then t.phase.Rest? && t.slot.Parked? && t.log == s.log
                else t.phase == s.phase && s.log <= t.log && |t.log| == |s.log| + 1)
  {
    HeadIsFirst(s.main, s.events);
  }

  lemma SteppedSound(s: State, c: Call)
    requires Sound(s) && s.phase.Top? && s.running.None? && StepSupported(s, c)
    ensures var t := Stepped(s, c);
            Sound(t) && t.phase.Top? && t.running.None? && t.clock == s.clock && s.log <= t.log
  {
    if !s.slot.Empty? {
      StepSound(s, StepParked);
    }
    if s.slot.Parked? {
      CalledSound(Enter(s, s.slot.id), c);
    }
  }

  /** Between two turns. */
  ghost predicate AtTop(s: State) {
    Sound(s) && s.phase.Top? && s.running.None?
  }

  lemma NoneCritical(events: map<int, Event>)
    requires |Criticals(events)| <= 0
    ensures forall id :: id in events ==> !events[id].critical
  {
    assert Criticals(events) == {};
    assert forall id :: id in events && events[id].critical ==> id in Criticals(events);
  }

  lemma AdvancedSound(s: State, waiting: bool, calls: seq<Call>)
    requires AtTop(s) && AdvanceSupported(s, waiting, calls)
    ensures var t := Advanced(s, waiting, calls); AtTop(t) && t.clock >= s.clock && s.log <= t.log
  {
    StepSound(s, Block(waiting));
    var t := BlockClock(s, waiting);
    if t.phase.Drain? {
      DrainedSound(t, calls);
      PhaseSound(Drained(t, calls), Top);
    } else {
      PhaseSound(t, Top);
    }
  }

  lemma TurnedSound(s: State, t: Turn, auto: AutoExit)
    requires AtTop(s) && TurnSupported(s, t, auto)
    ensures var (s', exits) := Turned(s, t, auto);
            && AtTop(s') && s'.clock >= s.clock && s.log <= s'.log
            && (exits && auto.sched ==> forall id :: id in s'.events ==> !s'.events[id].critical)
  {
    var s1 := if t.step then Stepped(s, t.stepped) else s;
    if t.step {
      SteppedSound(s, t.stepped);
    }
    if Exits(s1, t.criticalFds, auto) {
      if auto.sched {
        NoneCritical(s1.events);
      }
    } else {
      AdvancedSound(s1, t.waiting, t.calls);
    }
  }

  /** The loop over any script within the conditions of the interface: the invariants hold, the clock and
      the log only grow, and an exit that was to wait for timed events means that no live one is critical. */
  lemma {:induction false} LoopedSound(s: State, turns: seq<Turn>, auto: AutoExit)
    requires AtTop(s) && LoopSupported(s, turns, auto)
    ensures var (s', exits) := Looped(s, turns, auto);
            && AtTop(s') && s'.clock >= s.clock && s.log <= s'.log
            && (exits && auto.sched ==> forall id :: id in s'.events ==> !s'.events[id].critical)
    decreases |turns|
  {
    if turns != [] {
      TurnedSound(s, turns[0], auto);
      var (s1, exits) := Turned(s, turns[0], auto);
      if !exits {
        LoopedSound(s1, turns[1..], auto);
      }
    }
  }

  // ---------------------------------------------------------------- where the handler finds an event

  lemma NextIsNew(s: State)
    requires Accounted(s)
    ensures s.next !in H.Ids(s.main)
  {
  }

  lemma FoundInQueue(s: State, id: int)
    requires Accounted(s) && id in s.events
    ensures s.events[id].inCallback == 0 && s.slot != Parked(id) ==> id in H.Ids(QueueOf(s, s.events[id].queue))
    ensures Queued(s, id) ==> id in H.Ids(QueueOf(s, s.events[id].queue))
  {
    QueuedIff(s, id);
    H.SlotFinds(QueueOf(s, s.events[id].queue), id);
  }

  lemma RunningUnqueued(s: State, id: int)
    requires Accounted(s) && s.running == Some(id)
    ensures id !in H.Ids(s.main) && id !in H.Ids(s.debug)
  {
  }

  lemma SoundMeans(s: State)
    requires Sound(s)
    ensures Accounted(s)
  {
  }

  /** The event would be in the debug queue twice: it is there already, and its removal takes out another. */
  predicate Doubled(s: State, op: Step) {
    op.ToMono? && Tied(s, op.id) && s.events[op.id].queue.Debug?
  }

  lemma MonoPlace(s: State, id: int)
    requires Accounted(s) && Queued(s, id) && !Doubled(s, ToMono(id))
    ensures id !in H.Ids(Dequeue(Uncounted(s, s.events[id]), id, s.events[id].queue).debug)
  {
    if s.events[id].queue.Main? {
      FoundInQueue(s, id);
    } else {
      DequeueMeans(s, id);
    }
  }

  // ---------------------------------------------------------------- the event handler

  class EventState {
    const main: TimedQueue
    const debug: TimedQueue
    var events: map<int, Event>
    var slot: Slot
    var running: Option<int>
    var criticalCount: int
    var clock: int
    var active: bool
    var wall: int
    var breakOnNext: bool
    var stepsToBreak: int
    var phase: Phase
    var next: int
    ghost var log: seq<Firing>

    ghost function Abs(): State
      reads this, main.q`K, debug.q`K
    {
      State(events, main.Slots(), debug.Slots(), slot, running, criticalCount, clock, active, wall, breakOnNext,
            stepsToBreak, phase, next, log)
    }

    ghost function Repr(): (r: set<object>)
      reads main, main.q, debug, debug.q
      ensures this in r
    {
      {this} + main.Repr() + debug.Repr()
    }

    /** What the handler has taken over is new. */
    twostate predicate Grown()
      reads main, main.q, debug, debug.q
    {
      forall o :: o in Repr() ==> o in old(Repr()) || fresh(o)
    }

    /** Two queues of their own. */
    ghost predicate Valid()
      reads main, main.q, main.q.d, main.q.Elems, debug, debug.q, debug.q.d, debug.q.Elems
    {
      && main.Valid() && debug.Valid()
      && main != debug && main.q != debug.q && main.q.d != debug.q.d && main.q.Elems !! debug.q.Elems
    }

    constructor (clock: int, wall: int)
      ensures Valid() && Abs() == Init(clock, wall) && fresh(Repr())
    {
      main := new TimedQueue(100);
      debug := new TimedQueue(100);
      events, slot, running, criticalCount := map[], Empty, None, 0;
      this.clock, active, this.wall, breakOnNext, stepsToBreak := clock, true, wall, false, 0;
      phase, next, log := Top, 0, [];
    }

    // -------------------------------------------------------------- one queue changes

    method Push(id: int, q: Queue, awake: int)
      requires Valid() && id !in H.Ids(QueueOf(Abs(), q))
      modifies Repr()
      ensures Valid() && Grown() && Abs() == Enqueue(old(Abs()), id, q, awake)
    {
      hide H.PQueue.Valid;
      hide H.Inserted;
      if q.Main? {
        main.Insert(id, awake);
      } else {
        debug.Insert(id, awake);
      }
    }

    /** ps_pqueue_remove from the event's queue. */
    method TakeOut(id: int, q: Queue)
      requires Valid() && id in H.Ids(QueueOf(Abs(), q))
      modifies Repr()
      ensures Valid() && Grown() && Abs() == Dequeue(old(Abs()), id, q)
    {
      hide H.PQueue.Valid;
      hide H.Removed;
      if q.Main? {
        main.Remove(id);
      } else {
        debug.Remove(id);
      }
    }

    method ChangeMain(id: int, awake: int)
      requires Valid() && id in H.Ids(main.Slots())
      modifies main.Repr()
      ensures H.Slot(old(main.Slots()), id) > 0 && Repr() == old(Repr())
      ensures var h, p := old(main.Slots()), H.Slot(old(main.Slots()), id);
              && Abs() == old(Abs()).(main := H.Bubbled(h, p, H.Item(awake, id)))
              && (Valid() <==> H.BelowOk(h, p, awake))
    {
      hide H.PQueue.Valid;
      hide H.Bubbled;
      main.Change(id, awake);
    }

    method ChangeDebug(id: int, awake: int)
      requires Valid() && id in H.Ids(debug.Slots())
      modifies debug.Repr()
      ensures H.Slot(old(debug.Slots()), id) > 0 && Repr() == old(Repr())
      ensures var h, p := old(debug.Slots()), H.Slot(old(debug.Slots()), id);
              && Abs() == old(Abs()).(debug := H.Bubbled(h, p, H.Item(awake, id)))
              && (Valid() <==> H.BelowOk(h, p, awake))
    {
      hide H.PQueue.Valid;
      hide H.Bubbled;
      debug.Change(id, awake);
    }

    /** A new time for a queued event. */
    method Rebubble(id: int, q: Queue, awake: int)
      requires Valid() && id in H.Ids(QueueOf(Abs(), q))
      modifies Repr()
      ensures H.Slot(QueueOf(old(Abs()), q), id) > 0
      ensures var h, p := QueueOf(old(Abs()), q), H.Slot(QueueOf(old(Abs()), q), id);
              && Abs() == WithQueue(old(Abs()), q, H.Bubbled(h, p, H.Item(awake, id)))
              && (Valid() <==> H.BelowOk(h, p, awake))
      ensures Repr() == old(Repr())
    {
      hide Valid;
      hide H.Bubbled;
      if q.Main? {
        ChangeMain(id, awake);
      } else {
        ChangeDebug(id, awake);
      }
    }

    // -------------------------------------------------------------- the interface

    method SchedAdd(delay: int, step: int) returns (id: int)
      requires Valid() && Accounted(Abs())
      modifies Repr()
      ensures Valid() && Grown() && Abs() == AddEvent(old(Abs()), delay, step) && id == old(next)
    {
      hide Valid;
      hide Repr;
      hide Accounted;
      hide H.Inserted;
      id := next;
      NextIsNew(Abs());
      Place(id, Event(clock + delay, clock, step, Main, true, false, 0));
      criticalCount := criticalCount + 1;
      next := next + 1;
    }

    method SchedSetCritical(id: int, critical: bool)
      requires Valid() && id in events
      modifies this`events, this`criticalCount
      ensures Valid() && Repr() == old(Repr()) && Abs() == SetEventCritical(old(Abs()), id, critical)
    {
      hide Valid;
      hide Repr;
      var e := events[id];
      if e.critical && !critical {
        criticalCount := criticalCount - 1;
      } else if !e.critical && critical {
        criticalCount := criticalCount + 1;
      }
      events := events[id := e.(critical := critical)];
    }

    method Uncount(e: Event)
      requires Valid()
      modifies this`criticalCount
      ensures Valid() && Repr() == old(Repr()) && Abs() == Uncounted(old(Abs()), e)
    {
      hide Valid;
      hide Repr;
      if e.critical {
        criticalCount := criticalCount - 1;
      }
    }

    method Store(events: map<int, Event>)
      requires Valid()
      modifies this`events
      ensures Valid() && Repr() == old(Repr()) && Abs() == old(Abs()).(events := events)
    {
      hide Valid;
      hide Repr;
      this.events := events;
    }

    method SchedRemove(id: int)
      requires Valid() && Accounted(Abs()) && id in events
      modifies Repr()
      ensures Valid() && Grown() && Abs() == RemoveEvent(old(Abs()), id)
    {
      hide Valid;
      hide Accounted;
      hide Repr;
      hide Dequeue;
      FoundInQueue(Abs(), id);
      var e, rest := events[id], events - {id};
      if e.inCallback != 0 {
        return;
      }
      Uncount(e);
      if slot == Parked(id) {
        slot := Null;
      } else {
        TakeOut(id, e.queue);
      }
      Store(rest);
    }

    /** The end of both reschedules; the queue is as it should be if and only if the new time is not after
        those of the children. */
    method Reschedule(id: int, e: Event)
      requires Valid() && id in events && e.inCallback == events[id].inCallback && e.queue == events[id].queue
      requires e.inCallback != 0 || Queued(Abs(), id)
      modifies Repr()
      ensures Abs() == Rescheduled(old(Abs()), id, e) && Repr() == old(Repr())
      ensures Valid() <==> e.inCallback != 0 || LowEnough(old(Abs()), id, e.awake)
    {
      hide Valid;
      hide Repr;
      hide H.Bubbled;
      if e.inCallback != 0 {
        events := events[id := e.(inCallback := 2)];
        return;
      }
      H.SlotFinds(QueueOf(Abs(), e.queue), id);
      Rebubble(id, e.queue, e.awake);
      events := events[id := e];
    }

    method SchedUpdate(id: int, delay: int)
      requires Valid() && Enabled(Abs(), Update(id, delay))
      modifies Repr()
      ensures Abs() == UpdateEvent(old(Abs()), id, delay) && Repr() == old(Repr())
      ensures Valid() <==> Clean(old(Abs()), Update(id, delay))
    {
      hide Valid;
      hide Repr;
      hide H.Bubbled;
      var e := events[id];
      var now := if e.queue.Main? then clock else wall;
      Reschedule(id, e.(scheduled := now, awake := now + delay, step := delay));
    }

    method SchedUpdatePartialCredit(id: int, delay: int)
      requires Valid() && Enabled(Abs(), Credit(id, delay))
      modifies Repr()
      ensures Abs() == CreditEvent(old(Abs()), id, delay) && Repr() == old(Repr())
      ensures Valid() <==> Clean(old(Abs()), Credit(id, delay))
    {
      hide Valid;
      hide Repr;
      hide H.Bubbled;
      var e := events[id];
      var now := if e.queue.Main? then clock else wall;
      e := e.(awake := e.scheduled + delay);
      if e.awake <= now {
        e := e.(awake := now);
      }
      Reschedule(id, e.(step := delay));
    }

    /** The event is stored and goes into its queue. */
    method Place(id: int, e: Event)
      requires Valid() && id !in H.Ids(QueueOf(Abs(), e.queue))
      modifies Repr()
      ensures Valid() && Grown()
      ensures Abs() == Enqueue(Put(old(Abs()), id, e), id, e.queue, e.awake)
    {
      hide Valid;
      hide Repr;
      hide H.Inserted;
      Push(id, e.queue, e.awake);
      events := events[id := e];
    }

    method SchedMoveToMono(id: int)
      requires Valid() && Accounted(Abs()) && Queued(Abs(), id) && !Doubled(Abs(), ToMono(id))
      modifies Repr()
      ensures Valid() && Grown() && Abs() == MoveToMono(old(Abs()), id)
    {
      hide Valid;
      hide Accounted;
      hide Repr;
      hide Dequeue;
      hide Enqueue;
      FoundInQueue(Abs(), id);
      MonoPlace(Abs(), id);
      var e := events[id];
      var e' := e.(scheduled := wall, awake := wall + e.step, queue := Debug, critical := false);
      Uncount(e);
      TakeOut(id, e.queue);
      Place(id, e');
    }

    /** One interface call, whether the queues survive it or not. */
    method Do(op: Step)
      requires Valid() && Accounted(Abs()) && Interface(op) && Enabled(Abs(), op) && !Doubled(Abs(), op)
      modifies Repr()
      ensures Grown() && Abs() == Next(old(Abs()), op)
      ensures Valid() <==> (op.Update? || op.Credit? ==> Clean(old(Abs()), op))
    {
      hide Valid;
      hide Repr;
      hide Accounted;
      if op.Add? {
        var _ := SchedAdd(op.delay, op.step);
      } else if op.SetCritical? {
        SchedSetCritical(op.id, op.critical);
      } else if op.Remove? {
        SchedRemove(op.id);
      } else if op.Update? {
        SchedUpdate(op.id, op.delay);
      } else if op.Credit? {
        SchedUpdatePartialCredit(op.id, op.delay);
      } else if op.ToMono? {
        SchedMoveToMono(op.id);
      } else {
        events := events[op.id := events[op.id].(breakpoint := true)];
      }
    }

    /** The calls a callback makes. */
    method DoAll(ops: seq<Step>)
      requires Valid() && Sound(Abs()) && Supported(Abs(), ops)
      modifies Repr()
      ensures Valid() && Grown() && Abs() == Made(old(Abs()), ops)
    {
      hide Valid;
      hide Repr;
      hide Sound;
      ghost var goal := Made(Abs(), ops);
      assert ops[0..] == ops;
      for i := 0 to |ops|
        invariant Valid() && Grown() && Sound(Abs())
        invariant Supported(Abs(), ops[i..]) && Made(Abs(), ops[i..]) == goal
      {
        assert ops[i..][1..] == ops[i + 1..];
        StepSound(Abs(), ops[i]);
        SoundMeans(Abs());
        Do(ops[i]);
      }
    }

    // -------------------------------------------------------------- callbacks

    /** evt_process_timed_event up to the callback. */
    method Begin(id: int)
      requires Valid() && id in events
      modifies this
      ensures Valid() && Repr() == old(Repr()) && Abs() == Enter(old(Abs()), id)
    {
      hide Valid;
      events := events[id := events[id].(inCallback := 1)];
      running := Some(id);
      if events[id].queue.Main? {
        log := log + [Firing(id, events[id].awake, clock)];
      }
    }

    /** The callback is over, and the slot is empty if it held this event. */
    method End(id: int)
      requires Valid()
      modifies this
      ensures Valid() && Repr() == old(Repr())
      ensures var s := old(Abs());
              Abs() == s.(running := None, slot := if s.slot == Parked(id) then Empty else s.slot)
    {
      hide Valid;
      running := None;
      slot := if slot == Parked(id) then Empty else slot;
    }

    /** evt_process_timed_event after a callback that asks to be kept. */
    method Keep(id: int)
      requires Valid() && Accounted(Abs()) && id in events && running == Some(id)
      modifies Repr()
      ensures Valid() && Grown() && Abs() == Leave(old(Abs()), id, true)
    {
      hide Valid;
      hide Repr;
      hide Accounted;
      hide Enqueue;
      var e := events[id];
      if e.inCallback == 1 {
        e := e.(scheduled := if e.queue.Main? then clock else wall, awake := e.awake + e.step);
      }
      RunningUnqueued(Abs(), id);
      End(id);
      Place(id, e.(inCallback := 0));
    }

    method Drop(id: int)
      requires Valid() && id in events && running == Some(id)
      modifies Repr()
      ensures Valid() && Repr() == old(Repr()) && Abs() == Leave(old(Abs()), id, false)
    {
      hide Valid;
      hide Repr;
      var e, rest := events[id], events - {id};
      End(id);
      Uncount(e);
      Store(rest);
    }

    /** The callback of the event that was entered, and what follows it. */
    method RunCallback(c: Call)
      requires Valid() && Sound(Abs()) && running.Some? && Supported(Abs(), c.ops)
      modifies Repr()
      ensures Valid() && Grown() && Abs() == Called(old(Abs()), c)
    {
      hide Valid;
      hide Repr;
      hide Sound;
      hide Accounted;
      hide Supported;
      hide Leave;
      CalledSound(Abs(), c);
      MadeSound(Abs(), c.ops);
      DoAll(c.ops);
      SoundMeans(Abs());
      var id := running.value;
      if c.keep {
        Keep(id);
      } else {
        Drop(id);
      }
    }

    // -------------------------------------------------------------- the loop

    /** The breakpoint test, which may park the event that was popped. */
    method Test(id: int) returns (parked: bool)
      requires Valid() && id in events
      modifies this
      ensures Valid() && Repr() == old(Repr()) && (Abs(), parked) == Tested(old(Abs()), id)
    {
      hide Valid;
      parked := false;
      if breakOnNext || events[id].breakpoint {
        stepsToBreak := stepsToBreak - 1;
        if stepsToBreak <= 0 {
          slot, breakOnNext, phase := Parked(id), false, Rest;
          parked := true;
        }
      }
    }

    /** The first event is popped, and parked or entered. */
    method FireFirst()
      requires Valid() && Due(Abs())
      modifies Repr()
      ensures Valid() && Grown() && Abs() == FireEvent(old(Abs()))
    {
      hide Valid;
      hide Repr;
      hide H.Popped;
      hide Enter;
      var id := PopFirst();
      var parked := Test(id);
      if !parked {
        Begin(id);
      }
    }

    method PopFirst() returns (id: int)
      requires Valid() && |main.Slots()| > 1
      modifies Repr()
      ensures Valid() && Grown()
      ensures Abs() == old(Abs()).(main := H.Popped(old(main.Slots()))) && id == old(main.Slots())[1].id
    {
      hide H.PQueue.Valid;
      hide H.Popped;
      id := main.Pop();
    }

    /** The timed-event loop: until nothing is due, an event is parked, or the script has ended. */
    method DrainMain(calls: seq<Call>)
      requires Valid() && Sound(Abs()) && phase.Drain? && running.None? && DrainSupported(Abs(), calls)
      modifies Repr()
      ensures Valid() && Grown() && Abs() == Drained(old(Abs()), calls)
    {
      hide Valid;
      hide Repr;
      hide Sound;
      ghost var goal := Drained(Abs(), calls);
      var left := calls;
      var due := HeadDue();
      while left != [] && due
        invariant Valid() && Grown() && Sound(Abs()) && phase.Drain? && running.None?
        invariant due <==> Due(Abs())
        invariant DrainSupported(Abs(), left) && Drained(Abs(), left) == goal
        decreases |left|
      {
        var parked := DrainOne(left[0]);
        if parked {
          return;
        }
        left := left[1..];
        due := HeadDue();
      }
      phase := Rest;
    }

    /** The peek of the timed-event loop. */
    method HeadDue() returns (due: bool)
      requires Valid() && Sound(Abs())
      ensures due <==> Due(Abs())
    {
      hide H.PQueue.Valid;
      var some, id, awake := main.First();
      if some {
        HeadIsFirst(main.Slots(), events);
      }
      due := some && awake <= clock;
    }

    /** One event of the drain. */
    method DrainOne(c: Call) returns (parked: bool)
      requires Valid() && Sound(Abs()) && phase.Drain? && running.None? && Due(Abs())
      requires FireEvent(Abs()).running.Some? ==> Supported(FireEvent(Abs()), c.ops)
      modifies Repr()
      ensures Valid() && Grown()
      ensures var t := FireEvent(old(Abs()));
              if t.running.None? then parked && Abs() == t
              else && !parked && Supported(t, c.ops) && Abs() == Called(t, c)
                   && Sound(Abs()) && phase.Drain? && running.None?
    {
      hide Valid;
      hide Repr;
      hide Sound;
      hide Accounted;
      hide FireEvent;
      hide Supported;
      hide Called;
      SoundMeans(Abs());
      StepSound(Abs(), Fire);
      FireTurn(Abs());
      FireFirst();
      parked := running.None?;
      if !parked {
        CalledSound(Abs(), c);
        RunCallback(c);
      }
    }

    /** The single step of the debugger. */
    method StepSlot(c: Call)
      requires Valid() && Sound(Abs()) && phase.Top? && running.None? && StepSupported(Abs(), c)
      modifies Repr()
      ensures Valid() && Grown() && Abs() == Stepped(old(Abs()), c)
    {
      hide Valid;
      hide Repr;
      hide Supported;
      hide Called;
      if slot.Parked? {
        StepSound(Abs(), StepParked);
        Begin(slot.id);
        RunCallback(c);
      } else {
        slot := Empty;
      }
    }

    /** ET_virt_block, and the pause the loop decides on. */
    method BlockVirtual(waiting: bool)
      requires Valid()
      modifies this
      ensures Valid() && Repr() == old(Repr()) && Abs() == BlockClock(old(Abs()), waiting)
    {
      hide H.PQueue.Valid;
      if slot != Empty || waiting {
        phase := Rest;
      } else {
        var some, _, awake := main.First();
        if some && active {
          clock := awake;
        }
        phase := Drain;
      }
    }

    method Advance(waiting: bool, calls: seq<Call>)
      requires Valid() && AtTop(Abs()) && AdvanceSupported(Abs(), waiting, calls)
      modifies Repr()
      ensures Valid() && Grown() && Abs() == Advanced(old(Abs()), waiting, calls)
    {
      hide Valid;
      hide Repr;
      hide Sound;
      hide Drained;
      hide DrainSupported;
      StepSound(Abs(), Block(waiting));
      BlockVirtual(waiting);
      if phase.Drain? {
        DrainMain(calls);
      }
      phase := Top;
    }

    method OneTurn(t: Turn, auto: AutoExit) returns (exited: bool)
      requires Valid() && AtTop(Abs()) && TurnSupported(Abs(), t, auto)
      modifies Repr()
      ensures Valid() && Grown() && (Abs(), exited) == Turned(old(Abs()), t, auto)
    {
      hide Valid;
      hide Repr;
      hide Sound;
      hide Stepped;
      hide Advanced;
      hide AdvanceSupported;
      if t.step {
        SteppedSound(Abs(), t.stepped);
        StepSlot(t.stepped);
      }
      exited := (auto.sched || auto.fd) && !(auto.sched && criticalCount > 0) && !(auto.fd && t.criticalFds > 0);
      if !exited {
        Advance(t.waiting, t.calls);
      }
    }

    /** EVT_start_loop_auto_exit, one turn per element of the script; it ends early when none of the kinds
        of work that `auto` waits for is left. */
    method StartLoop(turns: seq<Turn>, auto: AutoExit) returns (exited: bool)
      requires Valid() && AtTop(Abs()) && LoopSupported(Abs(), turns, auto)
      modifies Repr()
      ensures Valid() && Grown() && (Abs(), exited) == Looped(old(Abs()), turns, auto)
      ensures AtTop(Abs()) && clock >= old(clock) && old(log) <= log
      ensures exited && auto.sched ==> forall id :: id in events ==> !events[id].critical
    {
      hide Valid;
      hide Repr;
      hide AtTop;
      hide Turned;
      hide TurnSupported;
      LoopedSound(Abs(), turns, auto);
      ghost var goal := Looped(Abs(), turns, auto);
      exited := false;
      var left := turns;
      while left != [] && !exited
        invariant Valid() && Grown() && AtTop(Abs())
        invariant if exited then (Abs(), true) == goal
                  else LoopSupported(Abs(), left, auto) && Looped(Abs(), left, auto) == goal
        decreases |left|
      {
        TurnedSound(Abs(), left[0], auto);
        exited := OneTurn(left[0], auto);
        left := left[1..];
      }
    }
  }
}
