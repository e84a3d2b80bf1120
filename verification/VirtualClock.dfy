/**
 The virtual clock over the timed events of module Scheduler: what is called when, and the rhythm of an
 event that keeps itself.
 */
module VirtualClock {
  import opened Common
  import opened Scheduler
  import opened Accounts
  import H = PriorityQueue
  import Timeval

  // ---------------------------------------------------------------- runs on time

  /** Nothing waits for a time that has passed, and what is due is due now. */
  ghost predicate Timed(v: View, clock: int) {
    && (forall id :: id in v.main && id in v.events ==> v.events[id].awake >= clock && v.events[id].step >= 0)
    && (v.slot.Parked? && v.slot.id in v.events ==> DueNow(v.events[v.slot.id], clock))
    && (v.running.Some? && v.running.value in v.events && v.events[v.running.value].queue.Main? ==>
          DueNow(v.events[v.running.value], clock))
  }

  ghost predicate DueNow(e: Event, clock: int) {
    e.step >= 0 && e.awake >= clock && (e.inCallback != 2 ==> e.awake == clock)
  }

  /** Every firing at its time, in order, and not in the future. */
  ghost predicate Punctual(log: seq<Firing>, clock: int) {
    && (forall i :: 0 <= i < |log| ==> log[i].awake == log[i].clock <= clock)
    && (forall i :: 0 < i < |log| ==> log[i - 1].clock <= log[i].clock)
  }

  ghost predicate Timely(s: State) {
    Timed(ViewOf(s), s.clock) && Punctual(s.log, s.clock)
  }

  /** The invariants of a run. */
  ghost predicate Sound(s: State) {
    Accounted(s) && Timely(s)
  }

  /** Delays and steps are not negative. */
  predicate Forward(step: Step) {
    match step
    case Add(delay, st) => delay >= 0 && st >= 0
    case Update(_, delay) => delay >= 0
    case Credit(_, delay) => delay >= 0
    case _ => true
  }

  /** A run from the start within the conditions of the interface and without negative delays. */
  ghost predicate GoodRun(run: seq<State>, steps: seq<Step>, clock: int, wall: int) {
    && Run(run, steps) && run[0] == Init(clock, wall) && CleanRun(run, steps)
    && forall i :: 0 <= i < |steps| ==> Forward(steps[i])
  }

  // ---------------------------------------------------------------- the rhythm of a kept event

  /** The awake times at which `id` was called. */
  ghost function Times(log: seq<Firing>, id: int): seq<int>
    decreases |log|
  {
    if log == [] then [] else
      var f := log[|log| - 1];
      Times(log[..|log| - 1], id) + if f.id == id then [f.awake] else []
  }

  ghost function Beat(first: int, step: int, k: nat): int {
    if k == 0 then first else Beat(first, step, k - 1) + step
  }

  ghost predicate Steady(ts: seq<int>, first: int, step: int) {
    forall k :: 0 <= k < |ts| ==> ts[k] == Beat(first, step, k)
  }

  /** The event will be called next at its next beat. */
  ghost predicate OnBeat(e: Event, called: nat, first: int, step: int) {
    && e.queue.Main? && e.step == step
    && if e.inCallback == 0 then e.awake == Beat(first, step, called)
       else e.inCallback == 1 && called > 0 && e.awake == Beat(first, step, called - 1)
  }

  ghost predicate Rhythm(s: State, id: int, first: int, step: int) {
    && id < s.next && Steady(Times(s.log, id), first, step)
    && (id in s.events ==> OnBeat(s.events[id], |Times(s.log, id)|, first, step))
  }

  /** Nothing that concerns `id` has changed. */
  ghost predicate Untouched(s: State, t: State, id: int) {
    && t.log == s.log && t.next >= s.next && (id in t.events ==> id in s.events)
    && (id in t.events ==>
          var e := s.events[id]; t.events[id].(critical := e.critical, breakpoint := e.breakpoint) == e)
  }

  /** The step gives `id` a new time. */
  predicate Reschedules(step: Step, id: int) {
    (step.Update? || step.Credit? || step.ToMono?) && step.id == id
  }

  /** Nothing of the loop's turn has changed. */
  ghost predicate SameTurn(s: State, t: State) {
    t.running == s.running && t.phase == s.phase && t.clock == s.clock && t.log == s.log
  }

  /** Steps that begin or end a callback. */
  predicate Calls(step: Step) {
    step.Fire? || step.FireDebug? || step.StepParked? || step.Return?
  }

  /** No event has been called that does not exist yet. */
  ghost predicate KnownLog(s: State) {
    forall i :: 0 <= i < |s.log| ==> s.log[i].id < s.next
  }

  /** The event added by step `a` is not rescheduled before step `n`. */
  ghost predicate LeftAlone(run: seq<State>, steps: seq<Step>, a: nat, n: nat)
    requires |run| == |steps| + 1 && a < n < |run|
  {
    forall i :: a < i < n ==> !Reschedules(steps[i], run[a].next)
  }

  // ---------------------------------------------------------------- main results

  /** Virtual-clock runs: every timed event is called when the clock shows its awake time, in order of
      time, breakpoints and paused clocks included, and the clock never goes back. */
  lemma VirtualTime(run: seq<State>, steps: seq<Step>, clock: int, wall: int, m: nat, n: nat, i: nat, j: nat)
    requires GoodRun(run, steps, clock, wall) && m <= n < |run| && i <= j < |run[n].log|
    ensures run[n].log[i].awake == run[n].log[i].clock
    ensures run[n].log[i].clock <= run[n].log[j].clock <= run[n].clock
    ensures run[m].clock <= run[n].clock
  {
    RunTimely(run, steps, clock, wall, n);
    ClockForward(run, steps, clock, wall, m, n);
    FiringsInOrder(run[n].log, run[n].clock, i, j);
  }

  lemma StepTimely(s: State, step: Step)
    requires Sound(s) && Enabled(s, step) && Clean(s, step) && Forward(step)
    ensures Timely(Next(s, step)) && Next(s, step).clock >= s.clock
  {
    if Interface(step) {
      InterfaceTimely(s, step);
    } else {
      LoopTimely(s, step);
    }
  }

  lemma BlockTimely(s: State, waiting: bool)
    requires Sound(s) && Enabled(s, Block(waiting))
    ensures Timely(BlockClock(s, waiting)) && BlockClock(s, waiting).clock >= s.clock
  {
    if |s.main| > 1 {
      HeadIsFirst(s.main, s.events);
      LogLater(s.log, s.clock, BlockClock(s, waiting).clock);
    }
  }

  /** The k-th call of an event that keeps itself is at its first time plus k steps exactly, whatever else
      the program does. */
  lemma KeptEventTimes(run: seq<State>, steps: seq<Step>, clock: int, wall: int, a: nat, n: nat, k: nat)
    requires Run(run, steps) && run[0] == Init(clock, wall) && CleanRun(run, steps)
    requires a < n < |run| && steps[a].Add? && LeftAlone(run, steps, a, n)
    requires k < |Times(run[n].log, run[a].next)|
    ensures Times(run[n].log, run[a].next)[k] == run[a].clock + steps[a].delay + k * steps[a].step
  {
    var id, first, step := run[a].next, run[a].clock + steps[a].delay, steps[a].step;
    AddedRhythm(run, steps, clock, wall, a, n, id, first, step);
    BeatIsExact(first, step, k);
  }

  /** The code keeps times as timevals and computes with the macros: on normal ones that is the arithmetic
      and the order of microseconds used here, in adding, keeping, comparing priorities and testing what
      is due. */
  lemma StampsAreMicros(now: Timeval.Timeval, delay: Timeval.Timeval, awake: Timeval.Timeval, step: Timeval.Timeval,
                        s: State, e: Event)
    requires Timeval.Normal(now) && Timeval.Normal(delay) && Timeval.Normal(awake) && Timeval.Normal(step)
    requires s.clock == Timeval.Micros(now) && e.inCallback == 1
    requires e.awake == Timeval.Micros(awake) && e.step == Timeval.Micros(step)
    ensures AddEvent(s, Timeval.Micros(delay), e.step).events[s.next].awake == Timeval.Micros(Timeval.Add(now, delay))
    ensures KeptEvent(s, e).awake == Timeval.Micros(Timeval.Add(awake, step))
    ensures e.awake >= Timeval.Micros(delay) <==> Timeval.AtLeast(awake, delay)
    ensures e.awake <= s.clock <==> Timeval.AtLeast(now, awake)
  {
    Timeval.MacrosAreMicros(now, delay);
    Timeval.MacrosAreMicros(awake, step);
    Timeval.MacrosAreMicros(awake, delay);
    Timeval.MacrosAreMicros(now, awake);
  }

  // ---------------------------------------------------------------- proofs: the virtual clock

  lemma LogMore(log: seq<Firing>, f: Firing, clock: int)
    requires Punctual(log, clock) && f.awake == f.clock == clock
    ensures Punctual(log + [f], clock)
  {}

  lemma LogLater(log: seq<Firing>, clock: int, later: int)
    requires Punctual(log, clock) && clock <= later
    ensures Punctual(log, later)
  {}

  lemma TimedAdd(v: View, e: Event, clock: int)
    requires Timed(v, clock) && v.next !in v.events && e.awake >= clock && e.step >= 0
    requires v.slot != Parked(v.next) && v.running != Some(v.next)
    ensures Timed(v.(events := v.events[v.next := e], main := v.main + {v.next}, next := v.next + 1), clock)
  {}

  lemma TimedChange(v: View, id: int, e: Event, clock: int)
    requires Timed(v, clock) && id in v.events && e.queue == v.events[id].queue
    requires e.queue.Main? ==> e.step >= 0 && e.awake >= clock
    requires id in v.main || v.slot == Parked(id) ==> e.queue.Main?
    requires e.inCallback == 2 || (v.slot != Parked(id) && v.running != Some(id))
    ensures Timed(v.(events := v.events[id := e]), clock)
  {}

  lemma TimedMark(v: View, id: int, e: Event, clock: int)
    requires Timed(v, clock) && id in v.events
    requires e.(critical := v.events[id].critical, breakpoint := v.events[id].breakpoint) == v.events[id]
    ensures Timed(v.(events := v.events[id := e]), clock)
  {
    var e' := e.(critical := v.events[id].critical, breakpoint := v.events[id].breakpoint);
    assert e'.awake == e.awake && e'.step == e.step && e'.queue == e.queue && e'.inCallback == e.inCallback;
  }

  lemma TimedShrink(v: View, events: map<int, Event>, main: set<int>, debug: set<int>, slot: Slot, clock: int)
    requires Timed(v, clock) && main <= v.main && (slot == v.slot || !slot.Parked?)
    requires forall id :: id in events ==> id in v.events && events[id] == v.events[id]
    ensures Timed(v.(events := events, main := main, debug := debug, slot := slot), clock)
  {
    if v.running.Some? {
      var id: int := v.running.value;
      assert id in events ==> events[id] == v.events[id];
    }
  }

  lemma TimedToMono(v: View, id: int, e: Event, clock: int)
    requires Timed(v, clock) && v.slot != Parked(id) && v.running != Some(id)
    ensures Timed(v.(events := v.events[id := e], main := v.main - {id}, debug := v.debug - {id} + {id}), clock)
  {}

  lemma TimedEnter(v: View, id: int, e: Event, clock: int)
    requires Timed(v, clock) && v.running.None? && id in v.events && e == v.events[id].(inCallback := 1)
    requires e.queue.Main? ==> e.awake == clock && e.step >= 0
    requires v.slot == Parked(id) ==> e.queue.Main?
    ensures var w := v.(events := v.events[id := e], main := v.main - {id}, debug := v.debug - {id});
            Timed(w.(running := Some(id)), clock)
  {}

  lemma TimedKeep(v: View, id: int, e: Event, slot: Slot, clock: int)
    requires Timed(v, clock) && v.running == Some(id) && id in v.events && id !in v.main
    requires e.queue == v.events[id].queue
    requires slot == if v.slot == Parked(id) then Empty else v.slot
    requires e.queue.Main? ==> e.step >= 0 && e.awake >= clock
    ensures var w := v.(events := v.events[id := e], running := None, slot := slot);
            Timed(if e.queue.Main? then w.(main := v.main + {id}) else w.(debug := v.debug + {id}), clock)
  {}

  lemma AddTimely(s: State, delay: int, step: int)
    requires Sound(s) && delay >= 0 && step >= 0
    ensures Timely(AddEvent(s, delay, step))
  {
    AddAccounted(s, delay, step);
    TimedAdd(ViewOf(s), AddEvent(s, delay, step).events[s.next], s.clock);
  }

  lemma RemoveTimely(s: State, id: int)
    requires Sound(s) && id in s.events && !Tied(s, id)
    ensures Timely(RemoveEvent(s, id))
  {
    QueuedIff(s, id);
    if s.events[id].inCallback == 0 {
      if Queued(s, id) {
        RemoveQueued(s, id);
      }
      var w := ViewOf(RemoveEvent(s, id));
      TimedShrink(ViewOf(s), s.events - {id}, w.main, w.debug, w.slot, s.clock);
    }
  }

  lemma RescheduleTimely(s: State, id: int, e: Event)
    requires Sound(s) && id in s.events && (s.events[id].inCallback != 0 || Queued(s, id))
    requires e == s.events[id].(scheduled := e.scheduled, awake := e.awake, step := e.step)
    requires e.queue.Main? ==> e.awake >= s.clock && e.step >= 0
    ensures Timely(Rescheduled(s, id, e))
  {
    QueuedIff(s, id);
    RescheduleAccountedIff(s, id, e);
    TimedChange(ViewOf(s), id, Rescheduled(s, id, e).events[id], s.clock);
  }

  lemma MonoTimely(s: State, id: int)
    requires Sound(s) && Queued(s, id) && !Tied(s, id)
    ensures Timely(MoveToMono(s, id))
  {
    QueuedIff(s, id);
    MonoAccounted(s, id);
    TimedToMono(ViewOf(s), id, MoveToMono(s, id).events[id], s.clock);
  }

  lemma EnterTimely(s: State, t: State, id: int)
    requires Sound(s) && s.running.None? && id in s.events
    requires t.events == s.events && t.clock == s.clock && t.log == s.log
    requires s.events[id].queue.Main? ==> s.events[id].awake == s.clock && s.events[id].step >= 0
    requires var v := ViewOf(s);
             ViewOf(Enter(t, id)) ==
               v.(events := Enter(t, id).events, main := v.main - {id}, debug := v.debug - {id}, running := Some(id))
    ensures Timely(Enter(t, id))
  {
    var e := s.events[id];
    TimedEnter(ViewOf(s), id, e.(inCallback := 1), s.clock);
    if e.queue.Main? {
      LogMore(s.log, Firing(id, e.awake, s.clock), s.clock);
    }
  }

  lemma TimedPark(v: View, id: int, clock: int)
    requires Timed(v, clock) && id in v.events && DueNow(v.events[id], clock)
    ensures Timed(v.(main := v.main - {id}, slot := Parked(id), phase := Rest), clock)
  {}

  /** The first event of the queue is due now when the drain takes it. */
  lemma FirstIsDue(s: State)
    requires Sound(s) && Due(s)
    ensures var e := s.events[s.main[1].id]; e.queue == Main && e.inCallback == 0 && DueNow(e, s.clock)
  {
    HeadIsFirst(s.main, s.events);
  }

  lemma FireTimely(s: State)
    requires Sound(s) && Enabled(s, Fire)
    ensures Timely(FireEvent(s)) && FireEvent(s).clock == s.clock
  {
    var id, t := s.main[1].id, FireEvent(s);
    FirstIsDue(s);
    FireAccounted(s);
    if t.running.None? {
      TimedPark(ViewOf(s), id, s.clock);
    } else {
      var (u, _) := Tested(s.(main := H.Popped(s.main)), id);
      EnterTimely(s, u, id);
    }
  }

  lemma FireDebugTimely(s: State)
    requires Sound(s) && Enabled(s, FireDebug)
    ensures Timely(FireDebugEvent(s))
  {
    HeadIsFirst(s.debug, s.events);
    FireDebugAccounted(s);
    EnterTimely(s, s.(debug := H.Popped(s.debug)), s.debug[1].id);
  }

  lemma ParkedTimely(s: State)
    requires Sound(s) && Enabled(s, StepParked)
    ensures Timely(Next(s, StepParked))
  {
    if s.slot.Parked? {
      var id := s.slot.id;
      assert id !in H.Ids(s.main) && id !in H.Ids(s.debug);
      EnterAccounted(s, s, id);
      EnterTimely(s, s, id);
    }
  }

  lemma ReturnTimely(s: State, keep: bool)
    requires Sound(s) && s.running.Some?
    ensures Timely(Leave(s, s.running.value, keep))
  {
    var id := s.running.value;
    var t := Leave(s, id, keep);
    if keep {
      KeepAccounted(s, id);
      TimedKeep(ViewOf(s), id, t.events[id], t.slot, s.clock);
    } else {
      TimedShrink(ViewOf(s), t.events, H.Ids(s.main), H.Ids(s.debug), t.slot, s.clock);
    }
  }

  lemma IdleTimely(s: State, step: Step)
    requires Sound(s) && Enabled(s, step) && Idle(step) && !step.Block?
    ensures Timely(Next(s, step)) && Next(s, step).clock == s.clock
  {}

  lemma CallsTimely(s: State, step: Step)
    requires Sound(s) && Enabled(s, step) && Calls(step)
    ensures Timely(Next(s, step)) && Next(s, step).clock == s.clock
  {
    match step
    case Fire => FireTimely(s);
    case FireDebug => FireDebugTimely(s);
    case StepParked => ParkedTimely(s);
    case Return(keep) => ReturnTimely(s, keep);
  }

  lemma LoopTimely(s: State, step: Step)
    requires Sound(s) && Enabled(s, step) && !Interface(step)
    ensures Timely(Next(s, step)) && Next(s, step).clock >= s.clock
  {
    if Calls(step) {
      CallsTimely(s, step);
    } else if step.Block? {
      BlockTimely(s, step.waiting);
    } else {
      IdleTimely(s, step);
    }
  }

  lemma MarkTimely(s: State, id: int, e: Event, count: int)
    requires Sound(s) && id in s.events
    requires e.(critical := s.events[id].critical, breakpoint := s.events[id].breakpoint) == s.events[id]
    ensures Timely(Put(s, id, e).(criticalCount := count))
  {
    TimedMark(ViewOf(s), id, e, s.clock);
  }

  lemma InterfaceTimely(s: State, step: Step)
    requires Sound(s) && Enabled(s, step) && Clean(s, step) && Forward(step) && Interface(step)
    ensures Timely(Next(s, step)) && Next(s, step).clock == s.clock
  {
    match step
    case Add(delay, st) => AddTimely(s, delay, st);
    case SetCritical(id, critical) =>
      MarkTimely(s, id, s.events[id].(critical := critical), Next(s, step).criticalCount);
    case Remove(id) => RemoveTimely(s, id);
    case Update(id, delay) => RescheduleTimely(s, id, UpdatedEvent(s, id, delay));
    case Credit(id, delay) => RescheduleTimely(s, id, CreditedEvent(s, id, delay));
    case ToMono(id) => MonoTimely(s, id);
    case MakeBreakpoint(id) => MarkTimely(s, id, s.events[id].(breakpoint := true), s.criticalCount);
  }

  lemma StepSound(s: State, step: Step)
    requires Sound(s) && Enabled(s, step) && Clean(s, step) && Forward(step)
    ensures Sound(Next(s, step)) && Next(s, step).clock >= s.clock
  {
    StepAccounted(s, step);
    StepTimely(s, step);
  }

  lemma {:induction false} RunTimely(run: seq<State>, steps: seq<Step>, clock: int, wall: int, n: nat)
    requires GoodRun(run, steps, clock, wall) && n < |run|
    ensures Sound(run[n])
    ensures n > 0 ==> run[n - 1].clock <= run[n].clock
    decreases n
  {
    if n == 0 {
      InitAccounted(clock, wall);
    } else {
      RunTimely(run, steps, clock, wall, n - 1);
      StepSound(run[n - 1], steps[n - 1]);
    }
  }

  lemma {:induction false} Ascending(run: seq<State>, m: nat, n: nat)
    requires m <= n < |run| && forall i :: 0 < i < |run| ==> run[i - 1].clock <= run[i].clock
    ensures run[m].clock <= run[n].clock
    decreases n
  {
    if m < n {
      Ascending(run, m, n - 1);
    }
  }

  lemma ClockForward(run: seq<State>, steps: seq<Step>, clock: int, wall: int, m: nat, n: nat)
    requires GoodRun(run, steps, clock, wall) && m <= n < |run|
    ensures run[m].clock <= run[n].clock
  {
    forall i | 0 < i < |run| ensures run[i - 1].clock <= run[i].clock {
      RunTimely(run, steps, clock, wall, i);
    }
    Ascending(run, m, n);
  }

  lemma {:induction false} FiringsInOrder(log: seq<Firing>, clock: int, i: nat, j: nat)
    requires Punctual(log, clock) && i <= j < |log|
    ensures log[i].clock <= log[j].clock
    decreases j
  {
    if i < j {
      FiringsInOrder(log, clock, i, j - 1);
    }
  }

  // ---------------------------------------------------------------- proofs: the rhythm of a kept event

  lemma TimesMore(log: seq<Firing>, f: Firing, id: int)
    ensures Times(log + [f], id) == Times(log, id) + if f.id == id then [f.awake] else []
  {
    assert (log + [f])[..|log|] == log;
  }

  lemma {:induction false} NoTimes(log: seq<Firing>, id: int)
    requires forall i :: 0 <= i < |log| ==> log[i].id != id
    ensures Times(log, id) == []
    decreases |log|
  {
    if log != [] {
      NoTimes(log[..|log| - 1], id);
    }
  }

  lemma RhythmUntouched(s: State, t: State, id: int, first: int, step: int)
    requires Rhythm(s, id, first, step) && Untouched(s, t, id)
    ensures Rhythm(t, id, first, step)
  {
    if id in t.events {
      var e := s.events[id];
      var e' := t.events[id].(critical := e.critical, breakpoint := e.breakpoint);
      assert e.awake == e'.awake && e.inCallback == e'.inCallback && e.queue == e'.queue && e.step == e'.step;
    }
  }

  lemma EnterRhythm(s: State, x: int, id: int, first: int, step: int)
    requires Rhythm(s, id, first, step) && x in s.events && s.events[x].inCallback == 0
    ensures Rhythm(Enter(s, x), id, first, step)
  {
    var e := s.events[x];
    TimesMore(s.log, Firing(x, e.awake, s.clock), id);
  }

  lemma LeaveRhythm(s: State, x: int, keep: bool, id: int, first: int, step: int)
    requires Rhythm(s, id, first, step) && x in s.events && s.events[x].inCallback != 0
    ensures Rhythm(Leave(s, x, keep), id, first, step)
  {
    var t := Leave(s, x, keep);
    if x != id || !keep {
      RhythmUntouched(s, t, id, first, step);
    }
  }

  lemma InterfaceTurn(s: State, op: Step)
    requires Enabled(s, op) && Interface(op)
    ensures SameTurn(s, Next(s, op)) && Next(s, op).next >= s.next
  {}

  lemma InterfaceUntouched(s: State, st: Step, id: int)
    requires Enabled(s, st) && Interface(st) && !Reschedules(st, id) && id < s.next
    ensures Untouched(s, Next(s, st), id)
  {
    InterfaceTurn(s, st);
  }

  lemma FireRhythm(s: State, id: int, first: int, step: int)
    requires Accounted(s) && Rhythm(s, id, first, step) && s.running.None? && Due(s)
    ensures Rhythm(FireEvent(s), id, first, step)
  {
    var x := s.main[1].id;
    var (t, parks) := Tested(s.(main := H.Popped(s.main)), x);
    if !parks {
      EnterRhythm(t, x, id, first, step);
    }
  }

  lemma CallsRhythm(s: State, st: Step, id: int, first: int, step: int)
    requires Accounted(s) && Rhythm(s, id, first, step) && Enabled(s, st) && Calls(st)
    ensures Rhythm(Next(s, st), id, first, step)
  {
    match st
    case Fire => FireRhythm(s, id, first, step);
    case FireDebug => EnterRhythm(s.(debug := H.Popped(s.debug)), s.debug[1].id, id, first, step);
    case StepParked =>
      if s.slot.Parked? {
        EnterRhythm(s, s.slot.id, id, first, step);
      }
    case Return(keep) => LeaveRhythm(s, s.running.value, keep, id, first, step);
  }

  lemma QuietUntouched(s: State, st: Step, id: int)
    requires Enabled(s, st) && !Interface(st) && !Calls(st)
    ensures Untouched(s, Next(s, st), id)
  {}

  lemma StepRhythm(s: State, st: Step, id: int, first: int, step: int)
    requires Accounted(s) && Rhythm(s, id, first, step) && Enabled(s, st) && !Reschedules(st, id)
    ensures Rhythm(Next(s, st), id, first, step)
  {
    if Calls(st) {
      CallsRhythm(s, st, id, first, step);
    } else {
      if Interface(st) {
        InterfaceUntouched(s, st, id);
      } else {
        QuietUntouched(s, st, id);
      }
      RhythmUntouched(s, Next(s, st), id, first, step);
    }
  }

  lemma SameLog(s: State, step: Step)
    requires Enabled(s, step) && !Calls(step)
    ensures Next(s, step).log == s.log && Next(s, step).next >= s.next
  {
    if Idle(step) {
      IdleSame(s, step);
    } else {
      InterfaceTurn(s, step);
    }
  }

  lemma EnterKnown(s: State, id: int)
    requires KnownLog(s) && id in s.events && id < s.next
    ensures KnownLog(Enter(s, id))
  {}

  lemma CallsKnownLog(s: State, step: Step)
    requires Accounted(s) && KnownLog(s) && Enabled(s, step) && Calls(step)
    ensures KnownLog(Next(s, step))
  {
    hide H.Inserted;
    hide H.Popped;
    match step
    case Fire =>
      var x := s.main[1].id;
      var (t, _) := Tested(s.(main := H.Popped(s.main)), x);
      EnterKnown(t, x);
    case FireDebug => EnterKnown(s.(debug := H.Popped(s.debug)), s.debug[1].id);
    case StepParked =>
      if s.slot.Parked? {
        EnterKnown(s, s.slot.id);
      }
    case Return(keep) =>
  }

  lemma StepKnownLog(s: State, step: Step)
    requires Accounted(s) && KnownLog(s) && Enabled(s, step)
    ensures KnownLog(Next(s, step))
  {
    if Calls(step) {
      CallsKnownLog(s, step);
    } else {
      SameLog(s, step);
    }
  }

  lemma {:induction false} RunKnownLog(run: seq<State>, steps: seq<Step>, clock: int, wall: int, n: nat)
    requires Run(run, steps) && run[0] == Init(clock, wall) && CleanRun(run, steps) && n < |run|
    ensures Accounted(run[n]) && KnownLog(run[n])
    decreases n
  {
    if n == 0 {
      InitAccounted(clock, wall);
    } else {
      RunKnownLog(run, steps, clock, wall, n - 1);
      StepAccounted(run[n - 1], steps[n - 1]);
      StepKnownLog(run[n - 1], steps[n - 1]);
    }
  }

  lemma AddRhythm(s: State, delay: int, step: int, id: int, first: int)
    requires KnownLog(s) && id == s.next && first == s.clock + delay
    ensures Rhythm(AddEvent(s, delay, step), id, first, step)
  {
    NoTimes(s.log, id);
  }

  lemma {:induction false} RunRhythm(run: seq<State>, steps: seq<Step>, m: nat, n: nat, id: int, first: int, step: int)
    requires Run(run, steps) && Accounted(run[0]) && CleanRun(run, steps) && m <= n < |run|
    requires forall i :: m <= i < n ==> !Reschedules(steps[i], id)
    requires Rhythm(run[m], id, first, step)
    ensures Rhythm(run[n], id, first, step)
    decreases n
  {
    if m < n {
      RunRhythm(run, steps, m, n - 1, id, first, step);
      RunAccounted(run, steps, n - 1);
      RhythmAfter(run, steps, n - 1, id, first, step);
    }
  }

  lemma RhythmAfter(run: seq<State>, steps: seq<Step>, i: nat, id: int, first: int, step: int)
    requires Run(run, steps) && i < |steps| && Accounted(run[i]) && Rhythm(run[i], id, first, step)
    requires !Reschedules(steps[i], id)
    ensures Rhythm(run[i + 1], id, first, step)
  {
    StepRhythm(run[i], steps[i], id, first, step);
  }

  /** From the step that adds an event on, as long as it is left alone. */
  lemma AddedRhythm(run: seq<State>, steps: seq<Step>, clock: int, wall: int, a: nat, n: nat, id: int, first: int,
                    step: int)
    requires Run(run, steps) && run[0] == Init(clock, wall) && CleanRun(run, steps)
    requires a < n < |run| && steps[a].Add? && LeftAlone(run, steps, a, n)
    requires id == run[a].next && first == run[a].clock + steps[a].delay && step == steps[a].step
    ensures Rhythm(run[n], id, first, step)
  {
    RunKnownLog(run, steps, clock, wall, a);
    InitAccounted(clock, wall);
    AddRhythm(run[a], steps[a].delay, step, id, first);
    RunRhythm(run, steps, a + 1, n, id, first, step);
  }

  lemma {:induction false} BeatIsExact(first: int, step: int, k: nat)
    ensures Beat(first, step, k) == first + k * step
    decreases k
  {
    if k > 0 {
      BeatIsExact(first, step, k - 1);
      assert (k - 1) * step + step == k * step;
    }
  }
}
