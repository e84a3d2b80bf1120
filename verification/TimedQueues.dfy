/**
 A queue of timed events as events.c uses it: a `PQueue` whose entries carry the event's id, and the
 entry of each event, found through the event and not by search.
 */
module TimedQueues {
  import opened PriorityQueue

  /** `id` sits in one slot, and `Slot` finds it. */
  lemma {:induction false} SlotUnique(h: seq<Item>, p: nat)
    requires Distinct(h) && 1 <= p < |h|
    ensures Slot(h, h[p].id) == p
    decreases |h|
  {
    var last := |h| - 1;
    if p < last {
      SlotUnique(h[..last], p);
    }
  }

  class TimedQueue {
    const q: PQueue
    var entries: map<int, Entry>

    /** The queued entries are the ones the events know. */
    ghost predicate Valid()
      reads this, q, q.d, q.Elems
    {
      q.Valid() && forall e :: e in q.Elems ==> e.info in entries && entries[e.info] == e
    }

    ghost function Repr(): set<object>
      reads this, q
    {
      {this, q, q.d} + q.Elems
    }

    /** What the slots hold; slot 0 is not used. */
    ghost function Slots(): (h: seq<Item>)
      reads q`K
      ensures |h| >= 1
    {
      if |q.K| >= 1 then q.K else [Item(0, -1)]
    }

    constructor (n: nat)
      ensures Valid() && Slots() == [Item(0, -1)] && fresh(Repr())
    {
      q := new PQueue(n);
      entries := map[];
    }

    lemma Entries()
      requires Valid()
      ensures Slots() == q.K && Distinct(q.K)
      ensures forall e :: e in q.Elems ==> 1 <= e.pos < |q.K| && q.K[e.pos] == Of(e) && Slot(q.K, e.info) == e.pos
      ensures forall id :: id in Ids(q.K) ==> id in entries && entries[id] in q.Elems && entries[id].info == id
    {
      forall i, j | 1 <= i < j < |q.K| ensures q.K[i].id != q.K[j].id {
        assert q.d[i].pos == i && q.d[j].pos == j;
      }
      forall e | e in q.Elems ensures Slot(q.K, e.info) == e.pos {
        SlotUnique(q.K, e.pos);
      }
      forall id | id in Ids(q.K) ensures id in entries && entries[id] in q.Elems && entries[id].info == id {
        var j :| 1 <= j < |q.K| && q.K[j].id == id;
        assert q.d[j].info == id;
      }
    }

    lemma NewId(id: int)
      requires Valid() && id !in Ids(Slots())
      ensures forall e :: e in q.Elems ==> e.info != id
    {
      Entries();
      forall e | e in q.Elems ensures e.info != id {
        assert q.K[e.pos].id in Ids(q.K);
      }
    }

    /** ps_pqueue_insert. */
    method Insert(id: int, awake: int)
      requires Valid() && id !in Ids(Slots())
      modifies Repr()
      ensures Valid() && Slots() == Inserted(old(Slots()), Item(awake, id)) && fresh(Repr() - old(Repr()))
    {
      NewId(id);
      var e := new Entry(awake, id);
      InsertEntry(e);
    }

    method InsertEntry(e: Entry)
      requires Valid() && e !in q.Elems && forall x :: x in q.Elems ==> x.info != e.info
      modifies Repr(), e`pos
      ensures Valid() && Slots() == Inserted(old(Slots()), Of(e)) && Of(e) == old(Of(e))
      ensures q.Elems == old(q.Elems) + {e} && (q.d == old(q.d) || fresh(q.d))
    {
      entries := entries[e.info := e];
      q.Insert(e);
    }

    /** ps_pqueue_peek. */
    method First() returns (some: bool, id: int, awake: int)
      requires Valid()
      ensures some <==> |Slots()| > 1
      ensures some ==> Slots()[1] == Item(awake, id)
    {
      var head := q.Peek();
      if head == null {
        return false, 0, 0;
      }
      some, id, awake := true, head.info, head.pri;
    }

    /** ps_pqueue_pop. */
    method Pop() returns (id: int)
      requires Valid() && |Slots()| > 1
      modifies Repr()
      ensures Valid() && Slots() == Popped(old(Slots())) && id == old(Slots())[1].id && fresh(Repr() - old(Repr()))
    {
      assert q.d[1] in q.Elems;
      var head := q.Pop();
      id := head.info;
    }

    /** ps_pqueue_remove. */
    method Remove(id: int)
      requires Valid() && id in Ids(Slots())
      modifies Repr()
      ensures Slot(old(Slots()), id) > 0
      ensures Valid() && Slots() == Removed(old(Slots()), Slot(old(Slots()), id)) && fresh(Repr() - old(Repr()))
    {
      Entries();
      q.Remove(entries[id]);
    }

    /** The new time is stored in the entry, and then ps_pqueue_change_priority is called. */
    method Change(id: int, awake: int)
      requires Valid() && id in Ids(Slots())
      modifies Repr()
      ensures Slot(old(Slots()), id) > 0
      ensures var h, p := old(Slots()), Slot(old(Slots()), id);
              Slots() == Bubbled(h, p, Item(awake, id)) && (Valid() <==> BelowOk(h, p, awake))
      ensures Repr() == old(Repr())
    {
      Entries();
      q.StoreThenChange(awake, entries[id]);
    }
  }
}
