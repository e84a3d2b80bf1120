/**
 What the loop of module EventLoop gets done: which event a turn calls and at what time, when the loop
 exits and when it goes on, and what becomes of the event of a callback.
 */
module LoopProgress {
  import opened Common
  import opened Scheduler
  import opened Accounts
  import opened VirtualClock
  import opened EventEffects
  import opened EventLoop
  import H = PriorityQueue

  // ---------------------------------------------------------------- callbacks

  /** The interface calls of a callback are made one after the other, each with its effect. */
  lemma {:induction false} MadeInOrder(s: State, a: seq<Step>, op: Step)
    requires Supported(s, a + [op])
    ensures Supported(s, a) && Enabled(Made(s, a), op) && Made(s, a + [op]) == Next(Made(s, a), op)
    decreases |a|
  {
    if a == [] {
      assert a + [op] == [op] && [op][1..] == [];
      assert Made(Next(s, op), []) == Next(s, op);
    } else {
      assert (a + [op])[0] == a[0] && (a + [op])[1..] == a[1..] + [op];
      MadeInOrder(Next(s, a[0]), a[1..], op);
    }
  }

  lemma {:induction false} SlotStays(s: State, ops: seq<Step>, id: int)
    requires Sound(s) && s.running == Some(id) && s.slot == Parked(id) && Supported(s, ops)
    ensures Made(s, ops).slot == Parked(id)
    decreases |ops|
  {
    if ops != [] {
      StepSound(s, ops[0]);
      InterfaceTurn(s, ops[0]);
      OwnSlotStays(s, ops[0], id);
      SlotStays(Next(s, ops[0]), ops[1..], id);
    }
  }

  lemma OwnSlotStays(s: State, op: Step, id: int)
    requires Accounted(s) && s.running == Some(id) && s.slot == Parked(id) && Enabled(s, op) && Interface(op)
    ensures Next(s, op).slot == Parked(id)
  {
    hide H.Removed;
    hide H.Inserted;
    hide H.Bubbled;
  }

  /** A callback, whatever interface calls it makes: its event lives on if and only if it asks to be kept. */
  lemma CalledMeans(s: State, c: Call)
    requires Sound(s) && s.running.Some? && Supported(s, c.ops)
    ensures var t := Called(s, c);
            t.running.None? && (s.running.value in t.events <==> c.keep) && t.log == s.log && t.clock == s.clock
    ensures s.slot == Parked(s.running.value) ==> Called(s, c).slot.Empty?
  {
    hide Leave;
    hide Sound;
    hide Supported;
    CalledSound(s, c);
    MadeSound(s, c.ops);
    SoundMeans(Made(s, c.ops));
    ReturnMeans(Made(s, c.ops), s.running.value, c.keep);
    if s.slot == Parked(s.running.value) {
      SlotStays(s, c.ops, s.running.value);
    }
  }

  /** The single step of the debugger calls the parked event, now, and empties the slot. */
  lemma SteppedMeans(s: State, c: Call)
    requires AtTop(s) && StepSupported(s, c)
    ensures var t := Stepped(s, c);
            if s.slot.Parked? then
              && s.slot.id in s.events && t.slot.Empty? && (s.slot.id in t.events <==> c.keep)
              && t.log == s.log + [Firing(s.slot.id, s.events[s.slot.id].awake, s.clock)] && t.clock == s.clock
            else t == s.(slot := Empty)
  {
    if s.slot.Parked? {
      StepSound(s, StepParked);
      CalledMeans(Enter(s, s.slot.id), c);
    }
  }

  // ---------------------------------------------------------------- turns

  /** The turn is neither a single step nor a wait, time is not paused, some event of the main queue is
      live, and no breakpoint is about to stop it. */
  ghost predicate Ready(s: State, t: Turn) {
    && !t.step && !t.waiting && t.calls != [] && s.slot.Empty? && s.active && H.Ids(s.main) != {}
    && (s.stepsToBreak > 1
        || (!s.breakOnNext && forall id :: id in H.Ids(s.main) && id in s.events ==> !s.events[id].breakpoint))
  }

  /** `f` is the call of an earliest event of the main queue, at its time. */
  ghost predicate EarliestCall(s: State, f: Firing) {
    && f.id in H.Ids(s.main) && f.id in s.events && f.awake == s.events[f.id].awake == f.clock
    && forall id :: id in H.Ids(s.main) && id in s.events ==> f.clock <= s.events[id].awake
  }

  /** A turn that is ready and does not exit calls an earliest event, when the clock shows its time. */
  lemma TurnFires(s: State, t: Turn, auto: AutoExit)
    requires AtTop(s) && TurnSupported(s, t, auto) && Ready(s, t) && !Turned(s, t, auto).1
    ensures var log := Turned(s, t, auto).0.log;
            |s.log| < |log| && s.log == log[..|s.log|] && EarliestCall(s, log[|s.log|])
  {
    var b := BlockClock(s, t.waiting);
    StepSound(s, Block(t.waiting));
    BlockReachesFirst(s, t.waiting);
    HeadIsFirst(s.main, s.events);
    DrainFires(b, t.calls);
    assert EarliestCall(s, Drained(b, t.calls).log[|s.log|]);
  }

  lemma DrainFires(s: State, calls: seq<Call>)
    requires Sound(s) && s.phase.Drain? && s.running.None? && DrainSupported(s, calls) && Due(s) && calls != []
    requires s.stepsToBreak > 1 || (!s.breakOnNext && !s.events[s.main[1].id].breakpoint)
    ensures var log := Drained(s, calls).log;
            && |s.log| < |log| && s.log == log[..|s.log|]
            && log[|s.log|] == Firing(s.main[1].id, s.events[s.main[1].id].awake, s.clock)
  {
    hide Sound;
    hide Accounted;
    hide FireEvent;
    hide Supported;
    var u := FireEvent(s);
    SoundMeans(s);
    FirstFires(s);
    StepSound(s, Fire);
    CalledSound(u, calls[0]);
    DrainedSound(Called(u, calls[0]), calls[1..]);
  }

  /** A turn with a single step is that step, and then a turn without. */
  lemma TurnSteps(s: State, t: Turn, auto: AutoExit)
    requires AtTop(s) && TurnSupported(s, t, auto) && t.step
    ensures TurnSupported(Stepped(s, t.stepped), t.(step := false), auto)
    ensures Turned(s, t, auto) == Turned(Stepped(s, t.stepped), t.(step := false), auto)
  {}

  /** While an event is parked, or a reply is awaited, a turn calls nobody and the clock stands still. */
  lemma TurnWaits(s: State, t: Turn, auto: AutoExit)
    requires AtTop(s) && TurnSupported(s, t, auto) && !t.step && (t.waiting || !s.slot.Empty?)
    ensures var s' := Turned(s, t, auto).0; s' == s.(phase := Top)
  {}

  lemma CountsNone(events: map<int, Event>)
    requires forall id :: id in events ==> !events[id].critical
    ensures |Criticals(events)| == 0
  {
    forall id ensures id !in Criticals(events) {
      assert id in Criticals(events) <==> id in events && events[id].critical;
    }
    assert Criticals(events) == {};
  }

  /** The loop exits at a turn if and only if it was asked to, and there is no work left of any kind it was
      asked to wait for: no live critical event, no critical descriptor. */
  lemma TurnExitsIff(s: State, t: Turn, auto: AutoExit)
    requires AtTop(s) && TurnSupported(s, t, auto)
    ensures var s1 := if t.step then Stepped(s, t.stepped) else s;
            && (Turned(s, t, auto).1 <==>
                  && (auto.sched || auto.fd)
                  && (auto.sched ==> forall id :: id in s1.events ==> !s1.events[id].critical)
                  && (auto.fd ==> t.criticalFds <= 0))
            && (Turned(s, t, auto).1 ==> Turned(s, t, auto).0 == s1)
  {
    var s1 := if t.step then Stepped(s, t.stepped) else s;
    if t.step {
      SteppedSound(s, t.stepped);
    }
    if s1.criticalCount <= 0 {
      NoneCritical(s1.events);
    }
    if forall id :: id in s1.events ==> !s1.events[id].critical {
      CountsNone(s1.events);
    }
  }

  // ---------------------------------------------------------------- the loop

  /** The states between the turns, none of which exits. */
  ghost predicate Tops(s: State, turns: seq<Turn>, auto: AutoExit, tops: seq<State>) {
    && |tops| == |turns| + 1 && tops[0] == s
    && forall k :: 0 <= k < |turns| ==>
         TurnSupported(tops[k], turns[k], auto) && Turned(tops[k], turns[k], auto) == (tops[k + 1], false)
  }

  lemma {:induction false} LoopFrom(s: State, turns: seq<Turn>, auto: AutoExit, tops: seq<State>, m: nat)
    requires m <= |turns| && Tops(s, turns[..m], auto, tops) && LoopSupported(s, turns, auto) && AtTop(s)
    ensures AtTop(tops[m]) && LoopSupported(tops[m], turns[m..], auto)
    ensures Looped(s, turns, auto) == Looped(tops[m], turns[m..], auto)
    decreases m
  {
    hide Turned;
    hide TurnSupported;
    hide AtTop;
    if m == 0 {
      assert turns[0..] == turns;
    } else {
      var rest := turns[1..];
      assert turns[..m][0] == turns[0];
      TurnedSound(s, turns[0], auto);
      assert rest[..m - 1] == turns[..m][1..];
      LoopFrom(tops[1], rest, auto, tops[1..], m - 1);
      assert rest[m - 1..] == turns[m..];
    }
  }

  /** The loop makes its turns one after the other, up to the first that exits. */
  lemma LoopRuns(s: State, turns: seq<Turn>, auto: AutoExit, tops: seq<State>, m: nat)
    requires m <= |turns| && Tops(s, turns[..m], auto, tops) && LoopSupported(s, turns, auto) && AtTop(s)
    ensures m == |turns| ==> Looped(s, turns, auto) == (tops[m], false)
    ensures m < |turns| ==> TurnSupported(tops[m], turns[m], auto)
    ensures m < |turns| && Turned(tops[m], turns[m], auto).1 ==>
              Looped(s, turns, auto) == (Turned(tops[m], turns[m], auto).0, true)
  {
    LoopFrom(s, turns, auto, tops, m);
  }

  /** Whenever the loop comes to a turn that is ready and does not exit, it calls an earliest event of the
      main queue at its time, and the log shows it to the end. */
  lemma LoopFires(s: State, turns: seq<Turn>, auto: AutoExit, tops: seq<State>, m: nat)
    requires m < |turns| && Tops(s, turns[..m], auto, tops) && LoopSupported(s, turns, auto) && AtTop(s)
    requires TurnSupported(tops[m], turns[m], auto) && Ready(tops[m], turns[m]) && !Turned(tops[m], turns[m], auto).1
    ensures var log, n := Looped(s, turns, auto).0.log, |tops[m].log|;
            n < |log| && tops[m].log == log[..n] && EarliestCall(tops[m], log[n])
  {
    hide TurnSupported;
    hide AtTop;
    hide Ready;
    hide EarliestCall;
    LoopFrom(s, turns, auto, tops, m);
    TurnFires(tops[m], turns[m], auto);
    TurnedSound(tops[m], turns[m], auto);
    LoopedSound(Turned(tops[m], turns[m], auto).0, turns[m..][1..], auto);
  }
}
