/**
 The account of the timed events: where each live event is, that the queues are heaps, and the count of
 critical events, kept by every step of module Scheduler within conditions that are exact.
 */
module Accounts {
  import opened Common
  import opened Scheduler
  import H = PriorityQueue

  // ---------------------------------------------------------------- main results

  /** At every boundary of the loop each live event is in exactly one of the main queue, the debug queue
      and the parked slot, and the count is the number of live critical events. */
  lemma BoundaryAccount(clock: int, wall: int, run: seq<State>, steps: seq<Step>, n: nat, id: int)
    requires Run(run, steps) && run[0] == Init(clock, wall) && CleanRun(run, steps)
    requires n < |run| && run[n].running.None?
    ensures var s := run[n];
            var main, debug := id in H.Ids(s.main), id in H.Ids(s.debug);
            && (id in s.events <==> main || debug || s.slot == Parked(id))
            && !(main && debug) && !(main && s.slot == Parked(id)) && !(debug && s.slot == Parked(id))
            && s.criticalCount == |set x | x in s.events && s.events[x].critical|
  {
    InitAccounted(clock, wall);
    RunAccounted(run, steps, n);
    AccountMeans(run[n], id);
  }

  /** Accounting over whole runs. */
  lemma {:induction false} RunAccounted(run: seq<State>, steps: seq<Step>, n: nat)
    requires Run(run, steps) && Accounted(run[0]) && CleanRun(run, steps) && n < |run|
    ensures Accounted(run[n])
    decreases n
  {
    if n > 0 {
      RunAccounted(run, steps, n - 1);
      StepAccounted(run[n - 1], steps[n - 1]);
    }
  }

  lemma StepAccounted(s: State, step: Step)
    requires Accounted(s) && Enabled(s, step) && Clean(s, step)
    ensures Accounted(Next(s, step))
  {
    if Interface(step) {
      InterfaceAccounted(s, step);
    } else if Idle(step) {
      IdleAccounted(s, step);
    } else {
      LoopAccounted(s, step);
    }
  }

  lemma AddAccounted(s: State, delay: int, step: int)
    requires Accounted(s)
    ensures Accounted(AddEvent(s, delay, step))
    ensures var t, v := AddEvent(s, delay, step), ViewOf(s);
            ViewOf(t) == v.(events := t.events, main := v.main + {s.next}, next := s.next + 1)
  {
    var id, t := s.next, AddEvent(s, delay, step);
    var e := t.events[id];
    ViewAdd(ViewOf(s), e);
    HeapInsert(s.main, s.events, t.events, H.Item(e.awake, id));
    HeapFrame(s.debug, s.events, t.events);
    CriticalsPut(s.events, id, e);
  }

  lemma MarkAccounted(s: State, id: int, e: Event, count: int)
    requires Accounted(s) && id in s.events
    requires e.(critical := s.events[id].critical, breakpoint := s.events[id].breakpoint) == s.events[id]
    requires count == s.criticalCount + (if e.critical then 1 else 0) - if s.events[id].critical then 1 else 0
    ensures Accounted(Put(s, id, e).(criticalCount := count))
  {
    ViewChange(ViewOf(s), id, e);
    HeapFrame(s.main, s.events, s.events[id := e]);
    HeapFrame(s.debug, s.events, s.events[id := e]);
    CriticalsPut(s.events, id, e);
  }

  /** Removal keeps the account if and only if the event is not in the last slot of its queue, below the
      root, under a parent of the same time. */
  lemma RemoveAccountedIff(s: State, id: int)
    requires Accounted(s) && id in s.events
    ensures Accounted(RemoveEvent(s, id)) <==> !Tied(s, id)
    ensures Tied(s, id) <==> Queued(s, id) && var h := QueueOf(s, s.events[id].queue); var p := H.Slot(h, id);
                             p == |h| - 1 && p > 1 && s.events[h[H.Parent(p)].id].awake == s.events[id].awake
  {
    QueuedIff(s, id);
    if Queued(s, id) {
      TiedVictim(QueueOf(s, s.events[id].queue), s.events, id);
      SlotTimes(QueueOf(s, s.events[id].queue), s.events, H.Slot(QueueOf(s, s.events[id].queue), id));
    }
    if Tied(s, id) {
      RemoveTied(s, id);
    } else if Queued(s, id) {
      RemoveQueued(s, id);
    } else if s.slot == Parked(id) {
      RemoveParked(s, id);
    }
  }

  /** Something a caller can see to: no other event of the queue has the same time. */
  lemma UntiedRemoval(s: State, id: int)
    requires Accounted(s) && id in s.events
    requires forall x :: x in s.events && x != id && s.events[x].queue == s.events[id].queue ==>
               s.events[x].awake != s.events[id].awake
    ensures Accounted(RemoveEvent(s, id))
  {
    RemoveAccountedIff(s, id);
    if Tied(s, id) {
      var x := TiedShares(s, id);
    }
  }

  /** Removing a tied event frees it and leaves it in the queue, and takes its parent out. */
  lemma RemoveTied(s: State, id: int)
    requires Accounted(s) && Tied(s, id)
    ensures var t, v := RemoveEvent(s, id), Victim(QueueOf(s, s.events[id].queue), id);
            && v != id && v in t.events && !At(ViewOf(t), v)
            && id !in t.events && (id in H.Ids(t.main) || id in H.Ids(t.debug))
  {
    QueuedIff(s, id);
    var q := s.events[id].queue;
    HeapRemove(QueueOf(s, q), s.events, id);
    TiedVictim(QueueOf(s, q), s.events, id);
  }

  /** Removing the later of two events added with the same delay is clean; removing the earlier one frees
      it, leaves it in the queue, and loses the later one. */
  lemma TiedRemoval(clock: int, wall: int, delay: int, step: int)
    ensures var s := AddEvent(AddEvent(Init(clock, wall), delay, step), delay, step);
            && Accounted(s) && s.events.Keys == {0, 1} && Accounted(RemoveEvent(s, 1))
            && var t := RemoveEvent(s, 0);
               !Accounted(t) && 0 !in t.events && 0 in H.Ids(t.main) && 1 in t.events && !At(ViewOf(t), 1)
  {
    var s := TwoAdded(clock, wall, delay, step);
    assert H.Parent(2) == 1 && Tied(s, 0) && !Tied(s, 1);
    RemoveAccountedIff(s, 1);
    RemoveAccountedIff(s, 0);
    LosesOther(s);
  }

  /** Rescheduling keeps the account if and only if the event is in its callback, or its new time is not
      after those of the children of its slot. */
  lemma RescheduleAccountedIff(s: State, id: int, e: Event)
    requires Accounted(s) && id in s.events && (s.events[id].inCallback != 0 || Queued(s, id))
    requires e == s.events[id].(scheduled := e.scheduled, awake := e.awake, step := e.step)
    ensures Accounted(Rescheduled(s, id, e)) <==> s.events[id].inCallback != 0 || LowEnough(s, id, e.awake)
    ensures ViewOf(Rescheduled(s, id, e)) == ViewOf(s).(events := Rescheduled(s, id, e).events)
  {
    QueuedIff(s, id);
    if s.events[id].inCallback != 0 {
      RescheduleRunning(s, id, e.(inCallback := 2));
    } else {
      RescheduleQueued(s, id, e);
    }
  }

  /** The root of two such events, rescheduled behind the other one, stays in front: the queue is no heap
      any more. */
  lemma LateReschedule(clock: int, wall: int, delay: int, later: int)
    requires delay < later
    ensures var s := AddEvent(AddEvent(Init(clock, wall), delay, 0), delay, 0);
            && Accounted(s) && 1 in s.events && !Accounted(UpdateEvent(s, 1, later))
            && UpdateEvent(s, 1, later).main[1] == H.Item(clock + later, 1)
  {
    var s := TwoAdded(clock, wall, delay, 0);
    assert H.Left(1) == 2;
    RescheduleAccountedIff(s, 1, UpdatedEvent(s, 1, later));
  }

  /** Moving an event of the main queue keeps the account if and only if it is not tied: a tied one stays
      in the main queue as well. */
  lemma MonoAccountedIff(s: State, id: int)
    requires Accounted(s) && Queued(s, id) && s.events[id].queue == Main
    ensures Accounted(MoveToMono(s, id)) <==> !Tied(s, id)
  {
    QueuedIff(s, id);
    if Tied(s, id) {
      HeapRemove(s.main, s.events, id);
      TiedVictim(s.main, s.events, id);
      assert id in H.Ids(MoveToMono(s, id).main);
    } else {
      MonoAccounted(s, id);
    }
  }

  lemma FireAccounted(s: State)
    requires Accounted(s) && s.phase.Drain? && s.running.None? && Due(s)
    ensures Accounted(FireEvent(s))
    ensures var t, v, id := FireEvent(s), ViewOf(s), s.main[1].id;
            if t.running.None? then ViewOf(t) == v.(main := v.main - {id}, slot := Parked(id), phase := Rest)
            else
              ViewOf(t) == v.(events := t.events, main := v.main - {id}, debug := v.debug - {id}, running := Some(id))
  {
    var id := s.main[1].id;
    HeapPop(s.main, s.events);
    assert id !in H.Ids(s.debug);
    var t := s.(main := H.Popped(s.main));
    var (u, parks) := Tested(t, id);
    if parks {
      ViewPark(ViewOf(s), id);
    } else {
      EnterAccounted(s, u, id);
    }
  }

  lemma KeepAccounted(s: State, id: int)
    requires Accounted(s) && s.running == Some(id)
    ensures Accounted(Leave(s, id, true))
    ensures var t, v := Leave(s, id, true), ViewOf(s);
            var w := v.(events := t.events, running := None, slot := t.slot);
            ViewOf(t) == if s.events[id].queue.Main? then w.(main := v.main + {id}) else w.(debug := v.debug + {id})
  {
    var e, q := KeptEvent(s, s.events[id]), s.events[id].queue;
    var events' := s.events[id := e];
    ViewKeep(ViewOf(s), id, e);
    HeapInsert(QueueOf(s, q), s.events, events', H.Item(e.awake, id));
    HeapFrame(QueueOf(s, if q.Main? then Debug else Main), s.events, events');
    CriticalsPut(s.events, id, e);
  }

  /** The head of a heap is a first event. */
  lemma HeadIsFirst(h: Heap, events: map<int, Event>)
    requires HeapOk(h, events) && |h| > 1
    ensures h[1].id in H.Ids(h) && h[1].id in events && events[h[1].id].awake == h[1].pri
    ensures forall id :: id in H.Ids(h) ==> id in events && h[1].pri <= events[id].awake
  {
    assert h[1] in H.Items(h);
    IdOfItem(h, h[1]);
    forall id | id in H.Ids(h) ensures id in events && h[1].pri <= events[id].awake {
      var j :| 1 <= j < |h| && h[j].id == id;
      H.RootIsMinimum(h, j);
      assert h[j] in H.Items(h);
    }
  }

  // ---------------------------------------------------------------- proofs: heaps and events

  lemma IdOfItem(h: Heap, y: H.Item)
    requires y in H.Items(h)
    ensures y.id in H.Ids(h)
  {
    H.IdsOfItems(h, y.id);
  }

  lemma HeapFrame(h: Heap, events: map<int, Event>, events': map<int, Event>)
    requires HeapOk(h, events) && SameTimes(h, events, events')
    ensures HeapOk(h, events')
  {
    forall y | y in H.Items(h) ensures y.id in events' && events'[y.id].awake == y.pri {
      IdOfItem(h, y);
    }
  }

  lemma HeapInsert(h: Heap, events: map<int, Event>, events': map<int, Event>, x: H.Item)
    requires HeapOk(h, events) && SameTimes(h, events, events') && x.id !in H.Ids(h)
    requires x.id in events' && events'[x.id].awake == x.pri
    ensures HeapOk(H.Inserted(h, x), events') && H.Ids(H.Inserted(h, x)) == H.Ids(h) + {x.id}
  {
    H.InsertedMeans(h, x);
    H.InsertedOrdered(h, x);
    HeapFrame(h, events, events');
  }

  lemma HeapRemove(h: Heap, events: map<int, Event>, id: int)
    requires HeapOk(h, events) && id in H.Ids(h)
    ensures H.Slot(h, id) > 0
    ensures HeapOk(H.Removed(h, H.Slot(h, id)), events)
    ensures H.Ids(H.Removed(h, H.Slot(h, id))) == H.Ids(h) - {Victim(h, id)} && Victim(h, id) in H.Ids(h)
  {
    H.SlotFinds(h, id);
    var p := H.Slot(h, id);
    H.RemovedMeans(h, p);
    H.RemovedOrdered(h, p);
    IdOfItem(h, h[H.VictimSlot(h, p)]);
  }

  lemma HeapPop(h: Heap, events: map<int, Event>)
    requires HeapOk(h, events) && |h| > 1
    ensures HeapOk(H.Popped(h), events)
    ensures H.Ids(H.Popped(h)) == H.Ids(h) - {h[1].id} && h[1].id in H.Ids(h)
  {
    H.PoppedMeans(h);
    H.PoppedOrdered(h);
    IdOfItem(h, h[1]);
  }

  lemma ChangedAgrees(h: Heap, events: map<int, Event>, events': map<int, Event>, p: nat, x: H.Item, y: H.Item)
    requires HeapOk(h, events) && 1 <= p < |h| && h[p].id == x.id && SameOthers(h, events, events', x.id)
    requires x.id in events' && events'[x.id].awake == x.pri
    requires y == x || (y in H.Items(h) && y != h[p])
    ensures y.id in events' && events'[y.id].awake == y.pri
  {
    if y != x {
      IdOfItem(h, y);
      var j :| 1 <= j < |h| && h[j] == y;
      assert y.id != x.id;
    }
  }

  /** A new time bubbled up keeps the queue a heap if and only if it is not after the children's. */
  lemma HeapChange(h: Heap, events: map<int, Event>, events': map<int, Event>, id: int, awake: int)
    requires HeapOk(h, events) && id in H.Ids(h) && SameOthers(h, events, events', id)
    requires id in events' && events'[id].awake == awake
    ensures H.Slot(h, id) > 0
    ensures var p := H.Slot(h, id);
            var h' := H.Bubbled(h, p, H.Item(awake, id));
            H.Ids(h') == H.Ids(h) && (HeapOk(h', events') <==> H.BelowOk(h, p, awake))
  {
    H.SlotFinds(h, id);
    var p, x := H.Slot(h, id), H.Item(awake, id);
    ChangeAt(h, events, events', p, x, H.Bubbled(h, p, x));
  }

  lemma ChangeAt(h: Heap, events: map<int, Event>, events': map<int, Event>, p: nat, x: H.Item, h': Heap)
    requires HeapOk(h, events) && 1 <= p < |h| && h[p].id == x.id && SameOthers(h, events, events', x.id)
    requires x.id in events' && events'[x.id].awake == x.pri && h' == H.Bubbled(h, p, x)
    ensures H.Ids(h') == H.Ids(h) && (HeapOk(h', events') <==> H.BelowOk(h, p, x.pri))
  {
    H.ChangedMeans(h, p, x.pri);
    H.BubbleAloneIff(h, p, x);
    forall y | y in H.Items(h') ensures y.id in events' && events'[y.id].awake == y.pri {
      ChangedAgrees(h, events, events', p, x, y);
    }
  }

  // ---------------------------------------------------------------- proofs: accounting

  lemma CriticalsPut(events: map<int, Event>, id: int, e: Event)
    ensures |Criticals(events[id := e])|
         == |Criticals(events)| - (if id in Criticals(events) then 1 else 0) + (if e.critical then 1 else 0)
  {
    var was, now := Criticals(events), Criticals(events[id := e]);
    assert now == if e.critical then was + {id} else was - {id};
  }

  lemma CriticalsDrop(events: map<int, Event>, id: int)
    ensures |Criticals(events - {id})| == |Criticals(events)| - if id in Criticals(events) then 1 else 0
  {
    assert Criticals(events - {id}) == Criticals(events) - {id};
  }

  /** A queued event is where its queue says. */
  lemma QueuedIff(s: State, id: int)
    requires Accounted(s)
    ensures Queued(s, id) <==> id in H.Ids(s.main) || id in H.Ids(s.debug)
    ensures id in H.Ids(s.main) ==> QueueOf(s, s.events[id].queue) == s.main
    ensures id in H.Ids(s.debug) ==> QueueOf(s, s.events[id].queue) == s.debug
  {
    H.SlotFinds(s.main, id);
    H.SlotFinds(s.debug, id);
  }

  lemma ViewAdd(v: View, e: Event)
    requires Placed(v) && e.queue == Main && e.inCallback == 0
    ensures Placed(v.(events := v.events[v.next := e], main := v.main + {v.next}, next := v.next + 1))
    ensures v.next !in v.main && v.next !in v.debug && v.next !in v.events
  {}

  /** An event changed in place, in nothing that matters here. */
  lemma ViewChange(v: View, id: int, e: Event)
    requires Placed(v) && id in v.events && e.queue == v.events[id].queue
    requires e.inCallback != 0 <==> v.events[id].inCallback != 0
    ensures Placed(v.(events := v.events[id := e]))
  {}

  lemma ViewRemove(v: View, id: int)
    requires Placed(v) && (id in v.main || id in v.debug)
    ensures Placed(v.(events := v.events - {id}, main := v.main - {id}, debug := v.debug - {id}))
  {}

  lemma ViewRemoveParked(v: View, id: int)
    requires Placed(v) && v.slot == Parked(id) && v.events[id].inCallback == 0
    ensures Placed(v.(events := v.events - {id}, slot := Null))
  {}

  lemma CleanRemove(h: Heap, events: map<int, Event>, id: int)
    requires HeapOk(h, events) && id in H.Ids(h) && !H.TiedLast(h, H.Slot(h, id))
    ensures H.Slot(h, id) > 0
    ensures var h' := H.Removed(h, H.Slot(h, id)); HeapOk(h', events) && H.Ids(h') == H.Ids(h) - {id}
  {
    HeapRemove(h, events, id);
    TiedVictim(h, events, id);
  }

  /** Taking a queued event out of its queue, when it is not tied. */
  lemma DequeueMeans(s: State, id: int)
    requires Accounted(s) && Queued(s, id) && !Tied(s, id)
    ensures var t := Dequeue(s, id, s.events[id].queue);
            && t == s.(main := t.main, debug := t.debug)
            && H.Ids(t.main) == H.Ids(s.main) - {id} && H.Ids(t.debug) == H.Ids(s.debug) - {id}
            && HeapOk(t.main, s.events) && HeapOk(t.debug, s.events)
  {
    QueuedIff(s, id);
    if s.events[id].queue.Main? {
      assert id !in H.Ids(s.debug);
      CleanRemove(s.main, s.events, id);
    } else {
      assert id !in H.Ids(s.main);
      CleanRemove(s.debug, s.events, id);
    }
  }

  lemma RemoveQueued(s: State, id: int)
    requires Accounted(s) && Queued(s, id) && !Tied(s, id)
    ensures Accounted(RemoveEvent(s, id))
    ensures var v := ViewOf(s);
            ViewOf(RemoveEvent(s, id)) == v.(events := s.events - {id}, main := v.main - {id}, debug := v.debug - {id})
  {
    QueuedIff(s, id);
    DequeueMeans(s, id);
    var t := RemoveEvent(s, id);
    ViewRemove(ViewOf(s), id);
    HeapFrame(t.main, s.events, t.events);
    HeapFrame(t.debug, s.events, t.events);
    CriticalsDrop(s.events, id);
  }

  lemma RemoveParked(s: State, id: int)
    requires Accounted(s) && s.slot == Parked(id)
    ensures Accounted(RemoveEvent(s, id))
  {
    if s.events[id].inCallback == 0 {
      ViewRemoveParked(ViewOf(s), id);
      HeapFrame(s.main, s.events, s.events - {id});
      HeapFrame(s.debug, s.events, s.events - {id});
      CriticalsDrop(s.events, id);
    }
  }

  /** The victim of a tied removal is the parent. */
  lemma TiedVictim(h: Heap, events: map<int, Event>, id: int)
    requires HeapOk(h, events) && id in H.Ids(h)
    ensures H.Slot(h, id) > 0
    ensures var p := H.Slot(h, id);
            && (H.TiedLast(h, p) <==> Victim(h, id) != id)
            && (H.TiedLast(h, p) <==> p == |h| - 1 && p > 1 && h[H.Parent(p)].pri == h[p].pri)
  {
    H.SlotFinds(h, id);
    var p := H.Slot(h, id);
    assert p > 1 ==> h[H.Parent(p)].pri <= h[p].pri;
  }

  lemma SlotTimes(h: Heap, events: map<int, Event>, p: nat)
    requires HeapOk(h, events) && 1 <= p < |h|
    ensures h[p].id in events && events[h[p].id].awake == h[p].pri
    ensures p > 1 ==> h[H.Parent(p)].id in events && events[h[H.Parent(p)].id].awake == h[H.Parent(p)].pri
  {
    assert h[p] in H.Items(h);
    assert p > 1 ==> h[H.Parent(p)] in H.Items(h);
  }

  lemma TiedShares(s: State, id: int) returns (x: int)
    requires Accounted(s) && Tied(s, id)
    ensures x in s.events && x != id && s.events[x].queue == s.events[id].queue
    ensures s.events[x].awake == s.events[id].awake
  {
    RemoveAccountedIff(s, id);
    var h := QueueOf(s, s.events[id].queue);
    var p := H.Slot(h, id);
    QueuedIff(s, id);
    SlotTimes(h, s.events, p);
    x := h[H.Parent(p)].id;
    assert x in H.Ids(h);
  }

  lemma RescheduleRunning(s: State, id: int, e: Event)
    requires Accounted(s) && id in s.events && s.events[id].inCallback != 0 && e.inCallback != 0
    requires e.queue == s.events[id].queue && e.critical == s.events[id].critical
    ensures Accounted(Put(s, id, e))
  {
    ViewChange(ViewOf(s), id, e);
    HeapFrame(s.main, s.events, s.events[id := e]);
    HeapFrame(s.debug, s.events, s.events[id := e]);
    CriticalsPut(s.events, id, e);
  }

  lemma RescheduleQueued(s: State, id: int, e: Event)
    requires Accounted(s) && Queued(s, id) && s.events[id].inCallback == 0
    requires e == s.events[id].(scheduled := e.scheduled, awake := e.awake, step := e.step)
    ensures Accounted(Rescheduled(s, id, e)) <==> LowEnough(s, id, e.awake)
    ensures ViewOf(Rescheduled(s, id, e)) == ViewOf(s).(events := s.events[id := e])
  {
    QueuedIff(s, id);
    var events' := s.events[id := e];
    ViewChange(ViewOf(s), id, e);
    CriticalsPut(s.events, id, e);
    HeapChange(QueueOf(s, e.queue), s.events, events', id, e.awake);
    HeapFrame(QueueOf(s, if e.queue.Main? then Debug else Main), s.events, events');
  }

  lemma ViewToMono(v: View, id: int, e: Event)
    requires Placed(v) && (id in v.main || id in v.debug) && e.queue == Debug && e.inCallback == 0
    ensures Placed(v.(events := v.events[id := e], main := v.main - {id}, debug := v.debug - {id} + {id}))
  {}

  lemma MonoAccounted(s: State, id: int)
    requires Accounted(s) && Queued(s, id) && !Tied(s, id)
    ensures Accounted(MoveToMono(s, id))
    ensures var t, v := MoveToMono(s, id), ViewOf(s);
            ViewOf(t) == v.(events := t.events, main := v.main - {id}, debug := v.debug - {id} + {id})
  {
    QueuedIff(s, id);
    var t, u := MoveToMono(s, id), Uncounted(s, s.events[id]);
    var e := t.events[id];
    DequeueMeans(s, id);
    var d := Dequeue(s, id, s.events[id].queue);
    assert Dequeue(u, id, s.events[id].queue) == d.(criticalCount := u.criticalCount);
    ViewToMono(ViewOf(s), id, e);
    HeapFrame(d.main, s.events, t.events);
    HeapInsert(d.debug, s.events, t.events, H.Item(e.awake, id));
    CriticalsPut(s.events, id, e);
  }

  lemma ViewEnter(v: View, id: int, e: Event)
    requires Placed(v) && v.running.None? && (id in v.main || id in v.debug || v.slot == Parked(id))
    requires e == v.events[id].(inCallback := 1)
    ensures Placed(v.(events := v.events[id := e], main := v.main - {id}, debug := v.debug - {id}, running := Some(id)))
  {}

  lemma ViewPark(v: View, id: int)
    requires Placed(v) && v.running.None? && id in v.main && v.slot.Empty?
    ensures Placed(v.(main := v.main - {id}, slot := Parked(id), phase := Rest))
  {}

  /** Calling an event that was just taken out of where it was. */
  lemma EnterAccounted(s: State, t: State, id: int)
    requires Accounted(s) && s.running.None? && At(ViewOf(s), id)
    requires t.events == s.events && t.slot == s.slot && t.running == s.running && t.next == s.next
    requires t.phase == s.phase
    requires t.criticalCount == s.criticalCount && Heaped(t)
    requires H.Ids(t.main) == H.Ids(s.main) - {id} && H.Ids(t.debug) == H.Ids(s.debug) - {id}
    ensures id in t.events && Accounted(Enter(t, id))
    ensures var v := ViewOf(s);
            ViewOf(Enter(t, id)) ==
              v.(events := Enter(t, id).events, main := v.main - {id}, debug := v.debug - {id}, running := Some(id))
  {
    var e := s.events[id].(inCallback := 1);
    ViewEnter(ViewOf(s), id, e);
    HeapFrame(t.main, t.events, t.events[id := e]);
    HeapFrame(t.debug, t.events, t.events[id := e]);
    CriticalsPut(s.events, id, e);
  }

  lemma FireDebugAccounted(s: State)
    requires Accounted(s) && s.running.None? && DueDebug(s)
    ensures Accounted(FireDebugEvent(s))
    ensures var t, v, id := FireDebugEvent(s), ViewOf(s), s.debug[1].id;
            ViewOf(t) == v.(events := t.events, main := v.main - {id}, debug := v.debug - {id}, running := Some(id))
  {
    var id := s.debug[1].id;
    HeapPop(s.debug, s.events);
    assert id !in H.Ids(s.main);
    EnterAccounted(s, s.(debug := H.Popped(s.debug)), id);
  }

  lemma ParkedAccounted(s: State)
    requires Accounted(s) && Enabled(s, StepParked)
    ensures Accounted(Next(s, StepParked))
  {
    if s.slot.Parked? {
      assert s.slot.id !in H.Ids(s.main) && s.slot.id !in H.Ids(s.debug);
      EnterAccounted(s, s, s.slot.id);
    } else {
      SamePlaces(s, s.(slot := Empty));
    }
  }

  lemma ViewKeep(v: View, id: int, e: Event)
    requires Placed(v) && v.running == Some(id) && e.queue == v.events[id].queue && e.inCallback == 0
    ensures id !in v.main && id !in v.debug
    ensures var slot := if v.slot == Parked(id) then Empty else v.slot;
            var w := v.(running := None, slot := slot, events := v.events[id := e]);
            Placed(if e.queue.Main? then w.(main := w.main + {id}) else w.(debug := w.debug + {id}))
  {}

  lemma ViewDrop(v: View, id: int)
    requires Placed(v) && v.running == Some(id)
    ensures id !in v.main && id !in v.debug
    ensures var slot := if v.slot == Parked(id) then Empty else v.slot;
            Placed(v.(running := None, slot := slot, events := v.events - {id}))
  {}

  lemma DropAccounted(s: State, id: int)
    requires Accounted(s) && s.running == Some(id)
    ensures Accounted(Leave(s, id, false))
  {
    ViewDrop(ViewOf(s), id);
    HeapFrame(s.main, s.events, s.events - {id});
    HeapFrame(s.debug, s.events, s.events - {id});
    CriticalsDrop(s.events, id);
  }

  lemma ReturnAccounted(s: State, keep: bool)
    requires Accounted(s) && s.running.Some?
    ensures Accounted(Leave(s, s.running.value, keep))
  {
    if keep {
      KeepAccounted(s, s.running.value);
    } else {
      DropAccounted(s, s.running.value);
    }
  }

  /** Steps that move no event. */
  lemma SamePlaces(s: State, t: State)
    requires Accounted(s) && t.events == s.events && t.main == s.main && t.debug == s.debug && t.running == s.running
    requires t.criticalCount == s.criticalCount && t.next == s.next
    requires t.slot == s.slot || (s.slot.Null? && t.slot.Empty?)
    requires t.phase.Drain? ==> s.phase.Drain? || t.slot.Empty?
    ensures Accounted(t)
  {}

  lemma InterfaceAccounted(s: State, step: Step)
    requires Accounted(s) && Enabled(s, step) && Clean(s, step) && Interface(step)
    ensures Accounted(Next(s, step))
  {
    match step
    case Add(delay, st) => AddAccounted(s, delay, st);
    case SetCritical(id, critical) =>
      MarkAccounted(s, id, s.events[id].(critical := critical), Next(s, step).criticalCount);
    case Remove(id) => RemoveAccountedIff(s, id);
    case Update(id, delay) => RescheduleAccountedIff(s, id, UpdatedEvent(s, id, delay));
    case Credit(id, delay) => RescheduleAccountedIff(s, id, CreditedEvent(s, id, delay));
    case ToMono(id) => MonoAccounted(s, id);
    case MakeBreakpoint(id) => MarkAccounted(s, id, s.events[id].(breakpoint := true), s.criticalCount);
  }

  lemma IdleSame(s: State, step: Step)
    requires Enabled(s, step) && Idle(step)
    ensures var t := Next(s, step);
            && t == s.(clock := t.clock, active := t.active, wall := t.wall, breakOnNext := t.breakOnNext,
                       stepsToBreak := t.stepsToBreak, phase := t.phase)
            && (t.phase.Drain? ==> s.phase.Drain? || s.slot.Empty?)
  {}

  lemma IdleAccounted(s: State, step: Step)
    requires Accounted(s) && Enabled(s, step) && Idle(step)
    ensures Accounted(Next(s, step))
  {
    IdleSame(s, step);
    SamePlaces(s, Next(s, step));
  }

  lemma LoopAccounted(s: State, step: Step)
    requires Accounted(s) && Enabled(s, step) && !Interface(step) && !Idle(step)
    ensures Accounted(Next(s, step))
  {
    match step
    case Fire => FireAccounted(s);
    case FireDebug => FireDebugAccounted(s);
    case StepParked => ParkedAccounted(s);
    case Return(keep) => ReturnAccounted(s, keep);
  }

  lemma InitAccounted(clock: int, wall: int)
    ensures Accounted(Init(clock, wall))
  {
    assert Criticals(map[]) == {};
  }

  lemma AccountMeans(s: State, id: int)
    requires Accounted(s) && s.running.None?
    ensures var main, debug := id in H.Ids(s.main), id in H.Ids(s.debug);
            && (id in s.events <==> main || debug || s.slot == Parked(id))
            && !(main && debug) && !(main && s.slot == Parked(id)) && !(debug && s.slot == Parked(id))
            && s.criticalCount == |set x | x in s.events && s.events[x].critical|
  {
    assert (set x | x in s.events && s.events[x].critical) == Criticals(s.events);
  }

  // ---------------------------------------------------------------- proofs: where the account fails

  lemma OneSlot(h: Heap, x: H.Item)
    requires |h| == 1
    ensures H.Inserted(h, x) == [h[0], x]
  {
    assert H.Inserted(h, x) == (h + [x])[1 := x];
  }

  lemma TwoSlots(h: Heap, x: H.Item, y: H.Item)
    requires |h| == 1 && x.pri == y.pri
    ensures H.Inserted([h[0], x], y) == [h[0], y, x]
  {
    var g := [h[0], x] + [y];
    assert g == [h[0], x, y] && H.Parent(2) == 1;
    var g' := g[2 := g[1]];
    assert H.Bubbled(g, 2, y) == H.Bubbled(g', 1, y) == g'[1 := y];
  }

  /** Two events added with the same delay: the later one is the root of the queue. */
  lemma TwoAdded(clock: int, wall: int, delay: int, step: int) returns (s: State)
    ensures s == AddEvent(AddEvent(Init(clock, wall), delay, step), delay, step)
    ensures Accounted(s) && s.events.Keys == {0, 1} && s.slot.Empty? && s.running.None?
    ensures s.main == [H.Item(0, -1), H.Item(clock + delay, 1), H.Item(clock + delay, 0)]
    ensures H.Slot(s.main, 0) == 2 && H.Slot(s.main, 1) == 1
    ensures s.events[0].queue == Main == s.events[1].queue && s.events[0].inCallback == 0 == s.events[1].inCallback
  {
    var s0, at := Init(clock, wall), clock + delay;
    var s1 := AddEvent(s0, delay, step);
    s := AddEvent(s1, delay, step);
    InitAccounted(clock, wall);
    AddAccounted(s0, delay, step);
    AddAccounted(s1, delay, step);
    OneSlot(s0.main, H.Item(at, 0));
    TwoSlots(s0.main, H.Item(at, 0), H.Item(at, 1));
    assert s.main[..2] == [H.Item(0, -1), H.Item(at, 1)];
  }

  lemma LosesOther(s: State)
    requires Accounted(s) && s.events.Keys == {0, 1} && Tied(s, 0) && s.events[0].queue == Main
    ensures var t := RemoveEvent(s, 0);
            0 !in t.events && 0 in H.Ids(t.main) && 1 in t.events && !At(ViewOf(t), 1)
  {
    RemoveTied(s, 0);
    var t := RemoveEvent(s, 0);
    assert t.debug == s.debug;
    QueuedIff(s, 0);
  }
}
