/**
 The timed events of events.c: two queues, the slot of an event parked by the debugger, the count of
 critical events, and the virtual clock of eventTimer.c that the loop moves from event to event.

 Time stamps are numbers of microseconds (VirtualClock.StampsAreMicros).  A queue is the heap of module PriorityQueue
 as its slots hold it, with the functions that `PQueue` is proved to compute.  Callbacks may do anything
 the interface offers, so the interface operations are steps of their own.
 */
module Scheduler {
  import opened Common
  import H = PriorityQueue

  datatype Queue = Main | Debug

  /** The slots of a queue; slot 0 is not used. */
  type Heap = h: seq<H.Item> | |h| >= 1 witness [H.Item(0, -1)]

  /** ScheduleCB.  `inCallback` is 0, or 1 in the callback, or 2 there after a reschedule. */
  datatype Event =
    Event(awake: int, scheduled: int, step: int, queue: Queue, critical: bool, breakpoint: bool, inCallback: int)

  /** next_timed_event: `Null` is the dummy event put there when the parked event is removed. */
  datatype Slot = Empty | Null | Parked(id: int)

  datatype Phase = Top | Drain | Rest

  /** A callback of the main queue was called: the event, its awake time, and the clock. */
  datatype Firing = Firing(id: int, awake: int, clock: int)

  datatype State = State(
    events: map<int, Event>,
    main: Heap,
    debug: Heap,
    slot: Slot,
    running: Option<int>,
    criticalCount: int,
    clock: int,
    active: bool,
    wall: int,
    breakOnNext: bool,
    stepsToBreak: int,
    phase: Phase,
    next: int,
    log: seq<Firing>)

  datatype Step =
    | Add(delay: int, step: int)
    | SetCritical(id: int, critical: bool)
    | Remove(id: int)
    | Update(id: int, delay: int)
    | Credit(id: int, delay: int)
    | ToMono(id: int)
    | MakeBreakpoint(id: int)
    | Debugger(breakOnNext: bool, steps: int)
    | SetPause(active: bool)
    | Tick(d: nat)
    | Block(waiting: bool)
    | Fire
    | FireDebug
    | StepParked
    | Return(keep: bool)
    | EndDrain
    | Again

  function NoHeap(): Heap {
    [H.Item(0, -1)]
  }

  function Init(clock: int, wall: int): State {
    State(map[], NoHeap(), NoHeap(), Empty, None, 0, clock, true, wall, false, 0, Top, 0, [])
  }

  // ---------------------------------------------------------------- queues

  function QueueOf(s: State, q: Queue): Heap {
    if q.Main? then s.main else s.debug
  }

  function WithQueue(s: State, q: Queue, h: Heap): State {
    if q.Main? then s.(main := h) else s.(debug := h)
  }

  function Now(s: State, q: Queue): int {
    if q.Main? then s.clock else s.wall
  }

  function Enqueue(s: State, id: int, q: Queue, awake: int): State {
    WithQueue(s, q, H.Inserted(QueueOf(s, q), H.Item(awake, id)))
  }

  function Dequeue(s: State, id: int, q: Queue): State {
    var h := QueueOf(s, q);
    var p := H.Slot(h, id);
    if p == 0 then s else WithQueue(s, q, H.Removed(h, p))
  }

  function Put(s: State, id: int, e: Event): State {
    s.(events := s.events[id := e])
  }

  predicate Queued(s: State, id: int) {
    id in s.events && H.Slot(QueueOf(s, s.events[id].queue), id) > 0
  }

  /** The event is in the last slot of its queue, below the root, under a parent of no smaller time. */
  predicate Tied(s: State, id: int) {
    Queued(s, id) && var h := QueueOf(s, s.events[id].queue); H.TiedLast(h, H.Slot(h, id))
  }

  /** The time `awake` is not after those of the children of the event's slot. */
  predicate LowEnough(s: State, id: int, awake: int) {
    Queued(s, id) ==> var h := QueueOf(s, s.events[id].queue); H.BelowOk(h, H.Slot(h, id), awake)
  }

  // ---------------------------------------------------------------- the interface

  /** EVT_sched_add_with_timestep, and EVT_sched_add with `step` equal to `delay`. */
  function AddEvent(s: State, delay: int, step: int): State {
    var e := Event(s.clock + delay, s.clock, step, Main, true, false, 0);
    Enqueue(Put(s, s.next, e), s.next, Main, e.awake).(criticalCount := s.criticalCount + 1, next := s.next + 1)
  }

  function SetEventCritical(s: State, id: int, critical: bool): State
    requires id in s.events
  {
    var e := s.events[id];
    var d := if e.critical && !critical then -1 else if !e.critical && critical then 1 else 0;
    Put(s, id, e.(critical := critical)).(criticalCount := s.criticalCount + d)
  }

  function Uncounted(s: State, e: Event): State {
    s.(criticalCount := if e.critical then s.criticalCount - 1 else s.criticalCount)
  }

  /** EVT_sched_remove: nothing in the event's own callback. */
  function RemoveEvent(s: State, id: int): State
    requires id in s.events
  {
    var e := s.events[id];
    if e.inCallback != 0 then s
    else if s.slot == Parked(id) then Uncounted(s, e).(slot := Null, events := s.events - {id})
    else Dequeue(Uncounted(s, e), id, e.queue).(events := s.events - {id})
  }

  /** A new time is stored in the event and, unless the callback is running, bubbled up in the queue. */
  function Rescheduled(s: State, id: int, e: Event): State
    requires id in s.events
  {
    if s.events[id].inCallback != 0 then Put(s, id, e.(inCallback := 2)) else
      var h := QueueOf(s, e.queue);
      var p := H.Slot(h, id);
      if p == 0 then Put(s, id, e) else WithQueue(Put(s, id, e), e.queue, H.Bubbled(h, p, H.Item(e.awake, id)))
  }

  function UpdatedEvent(s: State, id: int, delay: int): Event
    requires id in s.events
  {
    var e := s.events[id];
    e.(scheduled := Now(s, e.queue), awake := Now(s, e.queue) + delay, step := delay)
  }

  /** Not before the present. */
  function CreditedEvent(s: State, id: int, delay: int): Event
    requires id in s.events
  {
    var e := s.events[id];
    var now := Now(s, e.queue);
    e.(awake := if e.scheduled + delay <= now then now else e.scheduled + delay, step := delay)
  }

  /** EVT_sched_update. */
  function UpdateEvent(s: State, id: int, delay: int): State
    requires id in s.events
  {
    Rescheduled(s, id, UpdatedEvent(s, id, delay))
  }

  /** EVT_sched_update_partial_credit. */
  function CreditEvent(s: State, id: int, delay: int): State
    requires id in s.events
  {
    Rescheduled(s, id, CreditedEvent(s, id, delay))
  }

  /** EVT_sched_move_to_mono. */
  function MoveToMono(s: State, id: int): State
    requires id in s.events
  {
    var e := s.events[id];
    var e' := e.(scheduled := s.wall, awake := s.wall + e.step, queue := Debug, critical := false);
    Enqueue(Put(Dequeue(Uncounted(s, e), id, e.queue), id, e'), id, Debug, e'.awake)
  }

  // ---------------------------------------------------------------- the loop

  /** ET_virt_block: the virtual clock jumps to the first event's time, unless time is paused. */
  function BlockClock(s: State, waiting: bool): State {
    if s.slot != Empty || waiting then s.(phase := Rest)
    else if |s.main| > 1 && s.active then s.(clock := s.main[1].pri, phase := Drain)
    else s.(phase := Drain)
  }

  /** The first event of the main queue is due. */
  predicate Due(s: State) {
    |s.main| > 1 && s.main[1].pri <= s.clock && s.main[1].id in s.events
  }

  predicate DueDebug(s: State) {
    |s.debug| > 1 && s.debug[1].pri <= s.wall && s.debug[1].id in s.events
  }

  /** evt_process_timed_event up to the callback. */
  function Enter(s: State, id: int): State
    requires id in s.events
  {
    var e := s.events[id];
    var t := Put(s, id, e.(inCallback := 1)).(running := Some(id));
    if e.queue.Main? then t.(log := s.log + [Firing(id, e.awake, s.clock)]) else t
  }

  /** The breakpoint test, after the event was popped; `parks` tells whether it stops there. */
  function Tested(s: State, id: int): (r: (State, bool))
    requires id in s.events
  {
    if s.breakOnNext || s.events[id].breakpoint then
      var t := s.(stepsToBreak := s.stepsToBreak - 1);
      if t.stepsToBreak <= 0 then (t.(slot := Parked(id), breakOnNext := false, phase := Rest), true) else (t, false)
    else (s, false)
  }

  /** A main event that is due is popped, and parked or called. */
  function FireEvent(s: State): State
    requires Due(s)
  {
    var id := s.main[1].id;
    var (t, parks) := Tested(s.(main := H.Popped(s.main)), id);
    if parks then t else Enter(t, id)
  }

  function FireDebugEvent(s: State): State
    requires DueDebug(s)
  {
    Enter(s.(debug := H.Popped(s.debug)), s.debug[1].id)
  }

  function KeptEvent(s: State, e: Event): Event {
    if e.inCallback == 1 then e.(scheduled := Now(s, e.queue), awake := e.awake + e.step, inCallback := 0)
    else e.(inCallback := 0)
  }

  /** evt_process_timed_event after the callback. */
  function Leave(s: State, id: int, keep: bool): State
    requires id in s.events
  {
    var e := s.events[id];
    var t := s.(running := None, slot := if s.slot == Parked(id) then Empty else s.slot);
    if keep then
      var e' := KeptEvent(s, e);
      Enqueue(Put(t, id, e'), id, e.queue, e'.awake)
    else Uncounted(t, e).(events := s.events - {id})
  }

  // ---------------------------------------------------------------- steps and runs

  /** When a step can be taken.  A reschedule or a move of a parked event is none: it has no place in a
      queue, and the code would look for it outside the array. */
  predicate Enabled(s: State, step: Step) {
    match step
    case Add(_, _) => true
    case SetCritical(id, _) => id in s.events
    case Remove(id) => id in s.events
    case Update(id, _) => id in s.events && (s.events[id].inCallback != 0 || Queued(s, id))
    case Credit(id, _) => id in s.events && (s.events[id].inCallback != 0 || Queued(s, id))
    case ToMono(id) => Queued(s, id)
    case MakeBreakpoint(id) => id in s.events
    case Debugger(_, _) => true
    case SetPause(_) => true
    case Tick(_) => true
    case Block(_) => s.phase.Top? && s.running.None?
    case Fire => s.phase.Drain? && s.running.None? && Due(s)
    case FireDebug => s.phase.Rest? && s.running.None? && DueDebug(s)
    case StepParked =>
      s.phase.Top? && s.running.None? && !s.slot.Empty? && (s.slot.Parked? ==> s.slot.id in s.events)
    case Return(_) => s.running.Some? && s.running.value in s.events
    case EndDrain => s.phase.Drain? && s.running.None? && !Due(s)
    case Again => s.phase.Rest? && s.running.None?
  }

  function Next(s: State, step: Step): State
    requires Enabled(s, step)
  {
    match step
    case Add(delay, st) => AddEvent(s, delay, st)
    case SetCritical(id, critical) => SetEventCritical(s, id, critical)
    case Remove(id) => RemoveEvent(s, id)
    case Update(id, delay) => UpdateEvent(s, id, delay)
    case Credit(id, delay) => CreditEvent(s, id, delay)
    case ToMono(id) => MoveToMono(s, id)
    case MakeBreakpoint(id) => Put(s, id, s.events[id].(breakpoint := true))
    case Debugger(b, n) => s.(breakOnNext := b, stepsToBreak := n)
    case SetPause(active) => s.(active := active)
    case Tick(d) => s.(wall := s.wall + d)
    case Block(waiting) => BlockClock(s, waiting)
    case Fire => FireEvent(s)
    case FireDebug => FireDebugEvent(s)
    case StepParked => if s.slot.Null? then s.(slot := Empty) else Enter(s, s.slot.id)
    case Return(keep) => Leave(s, s.running.value, keep)
    case EndDrain => s.(phase := Rest)
    case Again => s.(phase := Top)
  }

  /** The conditions on the queues under which the interface does what is asked of it: no removal of an
      event tied in the last slot, no reschedule of a queued event past the children of its slot. */
  predicate Clean(s: State, step: Step) {
    match step
    case Remove(id) => !Tied(s, id)
    case ToMono(id) => !Tied(s, id)
    case Update(id, delay) =>
      id in s.events && s.events[id].inCallback == 0 ==> LowEnough(s, id, UpdatedEvent(s, id, delay).awake)
    case Credit(id, delay) =>
      id in s.events && s.events[id].inCallback == 0 ==> LowEnough(s, id, CreditedEvent(s, id, delay).awake)
    case _ => true
  }

  /** `run` is a sequence of states, each the last one's successor by a step. */
  ghost predicate Run(run: seq<State>, steps: seq<Step>) {
    && |run| == |steps| + 1
    && forall i :: 0 <= i < |steps| ==> Enabled(run[i], steps[i]) && run[i + 1] == Next(run[i], steps[i])
  }

  // ---------------------------------------------------------------- heaps and events

  /** The queue is a heap of live events under their awake times. */
  ghost predicate HeapOk(h: Heap, events: map<int, Event>) {
    && H.OrderedBut(h, 0) && H.Distinct(h)
    && forall y :: y in H.Items(h) ==> y.id in events && events[y.id].awake == y.pri
  }

  /** The events of the queue are live with the same times in `events'`. */
  ghost predicate SameTimes(h: Heap, events: map<int, Event>, events': map<int, Event>) {
    forall id :: id in H.Ids(h) ==> id in events && id in events' && events'[id].awake == events[id].awake
  }

  /** The entry that a removal takes out of a queue. */
  function Victim(h: Heap, id: int): int {
    var p := H.Slot(h, id);
    if p == 0 then id else h[H.VictimSlot(h, p)].id
  }

  /** The events other than `id` are live with the same times in `events'`. */
  ghost predicate SameOthers(h: Heap, events: map<int, Event>, events': map<int, Event>, id: int) {
    forall x :: x in H.Ids(h) && x != id ==> x in events && x in events' && events'[x].awake == events[x].awake
  }

  // ---------------------------------------------------------------- accounting

  /** The state with queues as the sets of their events. */
  datatype View = View(
    events: map<int, Event>, main: set<int>, debug: set<int>, slot: Slot, running: Option<int>, phase: Phase, next: int)

  ghost function ViewOf(s: State): View {
    View(s.events, H.Ids(s.main), H.Ids(s.debug), s.slot, s.running, s.phase, s.next)
  }

  ghost function Criticals(events: map<int, Event>): set<int> {
    set id | id in events && events[id].critical
  }

  ghost predicate At(v: View, id: int) {
    id in v.main || id in v.debug || v.slot == Parked(id) || v.running == Some(id)
  }

  /** Every live event is in exactly one of the queues, or is parked or being called. */
  ghost predicate Placed(v: View) {
    && (forall id :: id in v.events ==>
          At(v, id) && id < v.next && (v.events[id].inCallback != 0 <==> v.running == Some(id)))
    && (forall id :: id in v.main ==>
          id in v.events && v.events[id].queue == Main && v.events[id].inCallback == 0 && v.slot != Parked(id))
    && (forall id :: id in v.debug ==> id in v.events && v.events[id].queue == Debug && v.events[id].inCallback == 0)
    && (v.slot.Parked? ==> v.slot.id in v.events && v.events[v.slot.id].queue == Main)
    && (!v.slot.Empty? ==> !v.phase.Drain?)
    && (v.running.Some? ==> v.running.value in v.events)
  }

  ghost predicate Heaped(s: State) {
    HeapOk(s.main, s.events) && HeapOk(s.debug, s.events)
  }

  ghost predicate Accounted(s: State) {
    Placed(ViewOf(s)) && Heaped(s) && s.criticalCount == |Criticals(s.events)|
  }

  predicate Interface(step: Step) {
    || step.Add? || step.SetCritical? || step.Remove? || step.Update? || step.Credit? || step.ToMono?
    || step.MakeBreakpoint?
  }

  /** Steps that touch no event at all. */
  predicate Idle(step: Step) {
    step.Debugger? || step.SetPause? || step.Tick? || step.EndDrain? || step.Again? || step.Block?
  }

  ghost predicate CleanRun(run: seq<State>, steps: seq<Step>)
    requires |run| == |steps| + 1
  {
    forall i :: 0 <= i < |steps| ==> Clean(run[i], steps[i])
  }
}
