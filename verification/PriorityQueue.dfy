/**
 The binary heap of priorityQueue.c: a 1-based array of entries, each of which knows its own slot.
 Both clients compare priorities with `>=` on time stamps (events.c, util.c); a priority here is the
 stamp as a number of microseconds, module Timeval.
 */
module PriorityQueue {

  /** What the heap sees of an entry: its priority, and the client's data that tells it apart. */
  datatype Item = Item(pri: int, id: int)

  /** What a client hands to the queue: its priority, its slot, and the client's own data. */
  class Entry {
    var pri: int
    var pos: nat
    var info: int

    constructor (pri: int, info: int)
      ensures this.pri == pri && this.info == info && pos == 0
    {
      this.pri, this.pos, this.info := pri, 0, info;
    }
  }

  // ---------------------------------------------------------------- heap order on the slots

  function Parent(i: nat): nat { i / 2 }
  function Left(i: nat): nat { 2 * i }
  function Right(i: nat): nat { 2 * i + 1 }

  /** Parent and child are in order, for every such pair that does not involve slot `hole`. */
  ghost predicate OrderedBut(h: seq<Item>, hole: nat) {
    forall j :: 2 <= j < |h| && j != hole && Parent(j) != hole ==> h[Parent(j)].pri <= h[j].pri
  }

  /** Slot `i` may hold `pri` as far as the children of the slot go. */
  predicate BelowOk(h: seq<Item>, i: nat, pri: int) {
    (Left(i) < |h| ==> pri <= h[Left(i)].pri) && (Right(i) < |h| ==> pri <= h[Right(i)].pri)
  }

  /** Slot `i` may hold `pri` as far as its parent goes. */
  ghost predicate AboveOk(h: seq<Item>, i: nat, pri: int)
    requires i < |h|
  {
    i > 1 ==> h[Parent(i)].pri <= pri
  }

  /** The heap is in order but for slot `i`, and stays so whichever way the hole travels: the children
      of the hole are no smaller than its parent. */
  ghost predicate HoleAt(h: seq<Item>, i: nat)
    requires i < |h|
  {
    1 <= i && OrderedBut(h, i) && (i > 1 ==> BelowOk(h, i, h[Parent(i)].pri))
  }

  lemma ParentDown(h: seq<Item>, i: nat, pri: int)
    requires 2 <= i < |h| && HoleAt(h, i) && BelowOk(h, i, pri) && pri <= h[Parent(i)].pri
    ensures HoleAt(h[i := h[Parent(i)]], Parent(i)) && BelowOk(h[i := h[Parent(i)]], Parent(i), pri)
  {
    var p := Parent(i);
    assert Parent(Left(p)) == p == Parent(Right(p));
  }

  lemma ChildUp(h: seq<Item>, i: nat, c: nat, pri: int)
    requires 1 <= i < c < |h| && (c == Left(i) || c == Right(i))
    requires HoleAt(h, i) && AboveOk(h, i, pri) && h[c].pri <= pri && BelowOk(h, i, h[c].pri)
    ensures HoleAt(h[i := h[c]], c) && AboveOk(h[i := h[c]], c, pri)
  {
    assert Parent(Left(i)) == i == Parent(Right(i));
    assert Parent(Left(c)) == c == Parent(Right(c));
  }

  lemma Fill(h: seq<Item>, i: nat, x: Item)
    requires 1 <= i < |h| && HoleAt(h, i) && AboveOk(h, i, x.pri) && BelowOk(h, i, x.pri)
    ensures OrderedBut(h[i := x], 0)
  {}

  /** Taking a slot of a heap for a hole. */
  lemma OpenHole(h: seq<Item>, i: nat, pri: int)
    requires 1 <= i < |h| && OrderedBut(h, 0)
    ensures HoleAt(h, i)
    ensures pri <= h[i].pri ==> BelowOk(h, i, pri)
    ensures h[i].pri <= pri ==> AboveOk(h, i, pri)
  {
    assert Left(i) < |h| ==> Parent(Left(i)) == i;
    assert Right(i) < |h| ==> Parent(Right(i)) == i;
  }

  // ---------------------------------------------------------------- the moves

  /** The slots after `x` has bubbled up from slot `i`. */
  function Bubbled(h: seq<Item>, i: nat, x: Item): (h': seq<Item>)
    requires 1 <= i < |h|
    ensures |h'| == |h|
    decreases i
  {
    if i > 1 && h[Parent(i)].pri >= x.pri then Bubbled(h[i := h[Parent(i)]], Parent(i), x) else h[i := x]
  }

  /** The slot of the child with the smaller priority, the right one on a tie; 0 without children. */
  function MinChild(h: seq<Item>, i: nat): (c: nat)
    requires 1 <= i
    ensures c == 0 <==> |h| <= Left(i)
    ensures c > 0 ==> i < c < |h| && (c == Left(i) || c == Right(i)) && BelowOk(h, i, h[c].pri)
  {
    if Left(i) >= |h| then 0
    else if Right(i) < |h| && h[Left(i)].pri >= h[Right(i)].pri then Right(i) else Left(i)
  }

  /** The slots after `x` has percolated down from slot `i`. */
  function Percolated(h: seq<Item>, i: nat, x: Item): (h': seq<Item>)
    requires 1 <= i < |h|
    ensures |h'| == |h|
    decreases |h| - i
  {
    var c := MinChild(h, i);
    if c != 0 && x.pri >= h[c].pri then Percolated(h[i := h[c]], c, x) else h[i := x]
  }

  /** ps_pqueue_insert. */
  function Inserted(h: seq<Item>, x: Item): (h': seq<Item>)
    requires |h| >= 1
    ensures |h'| == |h| + 1
  {
    Bubbled(h + [x], |h|, x)
  }

  /** ps_pqueue_pop. */
  function Popped(h: seq<Item>): (h': seq<Item>)
    requires |h| > 1
    ensures |h'| == |h| - 1
  {
    var last := |h| - 1;
    if last == 1 then h[..1] else Percolated(h[..last], 1, h[last])
  }

  /** ps_pqueue_remove: the last entry takes the slot, and is its own replacement in the last slot. */
  function Removed(h: seq<Item>, p: nat): (h': seq<Item>)
    requires 1 <= p < |h|
    ensures |h'| == |h| - 1
  {
    var last := |h| - 1;
    if p == last then Bubbled(h, p, h[p])[..last]
    else if h[p].pri >= h[last].pri then Bubbled(h[..last], p, h[last])
    else Percolated(h[..last], p, h[last])
  }

  /** Entry `p` sits in the last slot, below the root, under a parent of no smaller priority. */
  predicate TiedLast(h: seq<Item>, p: nat)
    requires p < |h|
  {
    p == |h| - 1 && p > 1 && h[Parent(p)].pri >= h[p].pri
  }

  /** The slot whose entry `Removed` loses. */
  function VictimSlot(h: seq<Item>, p: nat): nat
    requires p < |h|
  {
    if TiedLast(h, p) then Parent(p) else p
  }

  // ---------------------------------------------------------------- the moves keep the order

  lemma {:induction false} BubbledOrdered(h: seq<Item>, i: nat, x: Item)
    requires 1 <= i < |h| && HoleAt(h, i) && BelowOk(h, i, x.pri)
    ensures OrderedBut(Bubbled(h, i, x), 0)
    decreases i
  {
    if i > 1 && h[Parent(i)].pri >= x.pri {
      ParentDown(h, i, x.pri);
      BubbledOrdered(h[i := h[Parent(i)]], Parent(i), x);
    } else {
      Fill(h, i, x);
    }
  }

  lemma {:induction false} PercolatedOrdered(h: seq<Item>, i: nat, x: Item)
    requires 1 <= i < |h| && HoleAt(h, i) && AboveOk(h, i, x.pri)
    ensures OrderedBut(Percolated(h, i, x), 0)
    decreases |h| - i
  {
    var c := MinChild(h, i);
    if c != 0 && x.pri >= h[c].pri {
      ChildUp(h, i, c, x.pri);
      PercolatedOrdered(h[i := h[c]], c, x);
    } else {
      Fill(h, i, x);
    }
  }

  /** A priority put into a heap slot and bubbled up restores the order if and only if it is no larger
      than the priorities of the slot's children. */
  lemma BubbleAloneIff(h: seq<Item>, i: nat, x: Item)
    requires 1 <= i < |h| && OrderedBut(h, 0)
    ensures OrderedBut(Bubbled(h, i, x), 0) <==> BelowOk(h, i, x.pri)
  {
    OpenHole(h, i, x.pri);
    if BelowOk(h, i, x.pri) {
      BubbledOrdered(h, i, x);
    } else {
      var c := if Left(i) < |h| && h[Left(i)].pri < x.pri then Left(i) else Right(i);
      assert Parent(c) == i && h[c].pri < x.pri;
      assert Bubbled(h, i, x) == h[i := x];
      assert h[i := x][Parent(c)].pri > h[i := x][c].pri;
    }
  }

  lemma InsertedOrdered(h: seq<Item>, x: Item)
    requires 1 <= |h| && OrderedBut(h, 0)
    ensures OrderedBut(Inserted(h, x), 0)
  {
    BubbledOrdered(h + [x], |h|, x);
  }

  /** Restoring the order after slot `i` got a smaller, or a larger, priority. */
  lemma LoweredOrdered(h: seq<Item>, i: nat, x: Item)
    requires 1 <= i < |h| && OrderedBut(h, 0) && x.pri <= h[i].pri
    ensures OrderedBut(Bubbled(h, i, x), 0)
  {
    OpenHole(h, i, x.pri);
    BubbledOrdered(h, i, x);
  }

  lemma RaisedOrdered(h: seq<Item>, i: nat, x: Item)
    requires 1 <= i < |h| && OrderedBut(h, 0) && h[i].pri <= x.pri
    ensures OrderedBut(Percolated(h, i, x), 0)
  {
    OpenHole(h, i, x.pri);
    PercolatedOrdered(h, i, x);
  }

  lemma DropLast(h: seq<Item>)
    requires 1 <= |h| && OrderedBut(h, 0)
    ensures OrderedBut(h[..|h| - 1], 0)
  {}

  /** The root of a heap is a minimum. */
  lemma {:induction false} RootIsMinimum(h: seq<Item>, j: nat)
    requires OrderedBut(h, 0) && 1 <= j < |h|
    ensures h[1].pri <= h[j].pri
  {
    if j > 1 {
      RootIsMinimum(h, Parent(j));
    }
  }

  lemma PoppedOrdered(h: seq<Item>)
    requires |h| > 1 && OrderedBut(h, 0)
    ensures OrderedBut(Popped(h), 0)
  {
    var last := |h| - 1;
    if last > 1 {
      DropLast(h);
      RootIsMinimum(h, last);
      RaisedOrdered(h[..last], 1, h[last]);
    }
  }

  lemma RemovedOrdered(h: seq<Item>, p: nat)
    requires 1 <= p < |h| && OrderedBut(h, 0)
    ensures OrderedBut(Removed(h, p), 0)
  {
    var last := |h| - 1;
    DropLast(h);
    if p == last {
      LoweredOrdered(h, p, h[p]);
      DropLast(Bubbled(h, p, h[p]));
    } else if h[p].pri >= h[last].pri {
      LoweredOrdered(h[..last], p, h[last]);
    } else {
      RaisedOrdered(h[..last], p, h[last]);
    }
  }

  // ---------------------------------------------------------------- the moves keep the entries

  /** `y` is in some slot other than `hole`. */
  ghost predicate InBut(h: seq<Item>, hole: nat, y: Item) {
    exists j :: 1 <= j < |h| && j != hole && h[j] == y
  }

  ghost function Items(h: seq<Item>): set<Item> {
    set j | 1 <= j < |h| :: h[j]
  }

  ghost function Ids(h: seq<Item>): set<int> {
    set j | 1 <= j < |h| :: h[j].id
  }

  /** Different entries in the slots other than `hole`, and all different from `x`. */
  ghost predicate DistinctBut(h: seq<Item>, hole: nat, x: Item) {
    && (forall i, j :: 1 <= i < j < |h| && i != hole && j != hole ==> h[i].id != h[j].id)
    && (forall j :: 1 <= j < |h| && j != hole ==> h[j].id != x.id)
  }

  ghost predicate Distinct(h: seq<Item>) {
    forall i, j :: 1 <= i < j < |h| ==> h[i].id != h[j].id
  }

  /** The hole travels: the entry of slot `from` goes to slot `to`. */
  lemma HoleMoves(h: seq<Item>, to: nat, from: nat, x: Item)
    requires 1 <= to < |h| && 1 <= from < |h| && from != to
    ensures DistinctBut(h, to, x) ==> DistinctBut(h[to := h[from]], from, x)
    ensures forall y :: InBut(h[to := h[from]], from, y) <==> InBut(h, to, y)
  {
    var g := h[to := h[from]];
    forall y ensures InBut(g, from, y) <==> InBut(h, to, y) {
      if InBut(g, from, y) {
        var j :| 1 <= j < |g| && j != from && g[j] == y;
        assert h[if j == to then from else j] == y;
      }
      if InBut(h, to, y) {
        var j :| 1 <= j < |h| && j != to && h[j] == y;
        assert g[if j == from then to else j] == y;
      }
    }
  }

  /** What the moves have in common: the same entries, all different, with `x` among them. */
  ghost predicate Holds(h: seq<Item>, i: nat, x: Item, h': seq<Item>) {
    && (forall y :: y in Items(h') <==> y == x || InBut(h, i, y))
    && (DistinctBut(h, i, x) ==> Distinct(h'))
  }

  lemma HoleFilled(h: seq<Item>, i: nat, x: Item)
    requires 1 <= i < |h|
    ensures Holds(h, i, x, h[i := x])
  {
    var g := h[i := x];
    forall y ensures y in Items(g) <==> y == x || InBut(h, i, y) {
      assert g[i] == x;
      if InBut(h, i, y) {
        var j :| 1 <= j < |h| && j != i && h[j] == y;
        assert g[j] == y;
      }
      if y in Items(g) {
        var j :| 1 <= j < |g| && g[j] == y;
        assert j != i ==> h[j] == y;
      }
    }
  }

  lemma {:induction false} BubbledHolds(h: seq<Item>, i: nat, x: Item)
    requires 1 <= i < |h|
    ensures Holds(h, i, x, Bubbled(h, i, x))
    ensures forall j :: i < j < |h| ==> Bubbled(h, i, x)[j] == h[j]
    ensures Bubbled(h, i, x)[i] == if i > 1 && h[Parent(i)].pri >= x.pri then h[Parent(i)] else x
    decreases i
  {
    if i > 1 && h[Parent(i)].pri >= x.pri {
      HoleMoves(h, i, Parent(i), x);
      BubbledHolds(h[i := h[Parent(i)]], Parent(i), x);
    } else {
      HoleFilled(h, i, x);
    }
  }

  lemma {:induction false} PercolatedHolds(h: seq<Item>, i: nat, x: Item)
    requires 1 <= i < |h|
    ensures Holds(h, i, x, Percolated(h, i, x))
    decreases |h| - i
  {
    var c := MinChild(h, i);
    if c != 0 && x.pri >= h[c].pri {
      HoleMoves(h, i, c, x);
      PercolatedHolds(h[i := h[c]], c, x);
    } else {
      HoleFilled(h, i, x);
    }
  }

  lemma IdsOfItems(h: seq<Item>, id: int)
    ensures id in Ids(h) <==> exists y :: y in Items(h) && y.id == id
  {
    if id in Ids(h) {
      var j :| 1 <= j < |h| && h[j].id == id;
      assert h[j] in Items(h);
    }
  }

  /** Insertion adds exactly the entry. */
  lemma InsertedMeans(h: seq<Item>, x: Item)
    requires |h| >= 1 && Distinct(h) && x.id !in Ids(h)
    ensures Distinct(Inserted(h, x)) && |Inserted(h, x)| == |h| + 1
    ensures Items(Inserted(h, x)) == Items(h) + {x} && Ids(Inserted(h, x)) == Ids(h) + {x.id}
  {
    var g := h + [x];
    forall j | 1 <= j < |h| ensures g[j].id in Ids(h) {}
    forall y ensures InBut(g, |h|, y) <==> y in Items(h) {
      if y in Items(h) {
        var j :| 1 <= j < |h| && h[j] == y;
        assert g[j] == y;
      }
    }
    BubbledHolds(g, |h|, x);
    IdsFollow(h, Inserted(h, x), x);
  }

  lemma IdsFollow(h: seq<Item>, h': seq<Item>, x: Item)
    requires Items(h') == Items(h) + {x}
    ensures Ids(h') == Ids(h) + {x.id}
  {
    forall id ensures id in Ids(h') <==> id in Ids(h) || id == x.id {
      IdsOfItems(h, id);
      IdsOfItems(h', id);
      if id == x.id {
        assert x in Items(h');
      }
    }
  }

  /** The ids after entry `v` of a heap is gone. */
  lemma IdsWithout(h: seq<Item>, h': seq<Item>, v: nat)
    requires Distinct(h) && 1 <= v < |h| && Items(h') == Items(h) - {h[v]}
    ensures Ids(h') == Ids(h) - {h[v].id}
  {
    forall id ensures id in Ids(h') <==> id in Ids(h) && id != h[v].id {
      IdsOfItems(h, id);
      IdsOfItems(h', id);
      if id in Ids(h') {
        var y :| y in Items(h') && y.id == id;
        assert y in Items(h);
        var j :| 1 <= j < |h| && h[j] == y;
        assert j != v;
      }
    }
  }

  /** The last slot taken off. */
  lemma LastDropped(h: seq<Item>)
    requires |h| > 1 && Distinct(h)
    ensures Distinct(h[..|h| - 1]) && Items(h[..|h| - 1]) == Items(h) - {h[|h| - 1]}
  {
    var last := |h| - 1;
    var g := h[..last];
    forall y ensures y in Items(g) <==> y in Items(h) && y != h[last] {
      if y in Items(h) && y != h[last] {
        var j :| 1 <= j < |h| && h[j] == y;
        assert g[j] == y;
      }
      if y in Items(g) {
        var j :| 1 <= j < |g| && g[j] == y;
        assert h[j] == y;
      }
    }
  }

  /** The entry of the last slot moved to slot `p`. */
  lemma LastMoved(h: seq<Item>, p: nat)
    requires 1 <= p < |h| - 1 && Distinct(h)
    ensures DistinctBut(h[..|h| - 1], p, h[|h| - 1])
    ensures forall y :: y == h[|h| - 1] || InBut(h[..|h| - 1], p, y) <==> y in Items(h) - {h[p]}
  {
    var last := |h| - 1;
    var g := h[..last];
    forall y ensures y == h[last] || InBut(g, p, y) <==> y in Items(h) - {h[p]} {
      if y in Items(h) && y != h[p] {
        var j :| 1 <= j < |h| && h[j] == y;
        assert j == last || g[j] == y;
      }
      if InBut(g, p, y) {
        var j :| 1 <= j < |g| && j != p && g[j] == y;
        assert h[j] == y;
      }
    }
  }

  /** Removal takes out exactly the entry of the victim's slot. */
  lemma RemovedMeans(h: seq<Item>, p: nat)
    requires 1 <= p < |h| && Distinct(h)
    ensures var v := VictimSlot(h, p);
            && 1 <= v < |h| && Distinct(Removed(h, p)) && |Removed(h, p)| == |h| - 1
            && Items(Removed(h, p)) == Items(h) - {h[v]} && Ids(Removed(h, p)) == Ids(h) - {h[v].id}
  {
    var last := |h| - 1;
    if p == last {
      BubbledHolds(h, p, h[p]);
      SameEntries(h, p);
      LastDropped(Bubbled(h, p, h[p]));
    } else {
      LastMoved(h, p);
      BubbledHolds(h[..last], p, h[last]);
      PercolatedHolds(h[..last], p, h[last]);
    }
    IdsWithout(h, Removed(h, p), VictimSlot(h, p));
  }

  lemma SameEntries(h: seq<Item>, i: nat)
    requires 1 <= i < |h|
    ensures Distinct(h) ==> DistinctBut(h, i, h[i])
    ensures forall y :: y == h[i] || InBut(h, i, y) <==> y in Items(h)
  {
    forall y ensures y == h[i] || InBut(h, i, y) <==> y in Items(h) {
      if y in Items(h) {
        var j :| 1 <= j < |h| && h[j] == y;
        assert j == i || InBut(h, i, y);
      }
    }
  }

  /** Popping takes out exactly the root. */
  lemma PoppedMeans(h: seq<Item>)
    requires |h| > 1 && Distinct(h)
    ensures Distinct(Popped(h)) && |Popped(h)| == |h| - 1
    ensures Items(Popped(h)) == Items(h) - {h[1]} && Ids(Popped(h)) == Ids(h) - {h[1].id}
  {
    var last := |h| - 1;
    if last == 1 {
      LastDropped(h);
    } else {
      LastMoved(h, 1);
      PercolatedHolds(h[..last], 1, h[last]);
    }
    IdsWithout(h, Popped(h), 1);
  }

  /** A new priority stored and bubbled up: the same ids. */
  lemma ChangedMeans(h: seq<Item>, p: nat, pri: int)
    requires 1 <= p < |h| && Distinct(h)
    ensures var x := Item(pri, h[p].id);
            && Distinct(Bubbled(h, p, x)) && Ids(Bubbled(h, p, x)) == Ids(h)
            && Items(Bubbled(h, p, x)) == Items(h) - {h[p]} + {x}
  {
    var x := Item(pri, h[p].id);
    var h' := Bubbled(h, p, x);
    BubbledHolds(h, p, x);
    SameEntries(h, p);
    assert DistinctBut(h, p, x);
    forall y ensures y in Items(h') <==> y in Items(h) - {h[p]} + {x} {
      if InBut(h, p, y) {
        var j :| 1 <= j < |h| && j != p && h[j] == y;
        assert y.id != h[p].id;
      }
    }
    forall id ensures id in Ids(h') <==> id in Ids(h) {
      IdsOfItems(h, id);
      IdsOfItems(h', id);
      assert x in Items(h') && h[p] in Items(h);
    }
  }

  /** The slot of `id`. */
  function Slot(h: seq<Item>, id: int): (p: nat)
    ensures p < |h| || p == 0
    ensures p > 0 ==> h[p].id == id
  {
    if |h| <= 1 then 0
    else if h[|h| - 1].id == id then |h| - 1 else Slot(h[..|h| - 1], id)
  }

  lemma {:induction false} SlotFinds(h: seq<Item>, id: int)
    ensures Slot(h, id) > 0 <==> id in Ids(h)
    decreases |h|
  {
    if |h| > 1 {
      var last := |h| - 1;
      SlotFinds(h[..last], id);
      if id in Ids(h) && h[last].id != id {
        var j :| 1 <= j < |h| && h[j].id == id;
        assert h[..last][j].id == id;
      }
      if id in Ids(h[..last]) {
        var j :| 1 <= j < last && h[..last][j].id == id;
        assert h[j].id == id;
      }
      assert h[last].id in Ids(h);
    }
  }

  // ---------------------------------------------------------------- the queue

  ghost function Of(e: Entry): Item
    reads e`pri, e`info
  {
    Item(e.pri, e.info)
  }

  class PQueue {
    var d: array<Entry?>
    var size: nat
    const step: nat
    ghost var Elems: set<Entry>
    ghost var K: seq<Item>

    /** Slots 1 to n-1 other than `hole` hold exactly the entries of `Elems` other than `m`, each entry
        knowing its slot. */
    ghost predicate Placed(n: nat, hole: nat, m: Entry?)
      reads this`d, this`Elems, d, Elems`pos
    {
      && n <= d.Length
      && (forall j :: 1 <= j < n && j != hole ==> d[j] != null && d[j] in Elems && d[j] != m && d[j].pos == j)
      && (forall e :: e in Elems && e != m ==> 1 <= e.pos < n && e.pos != hole && d[e.pos] == e)
    }

    /** `k` lists what is in slots 1 to n-1 other than `hole`. */
    ghost predicate Keys(k: seq<Item>, n: nat, hole: nat)
      reads this`d, this`Elems, d, Elems`pri, Elems`info
    {
      && |k| == n <= d.Length
      && forall j :: 1 <= j < n && j != hole ==> d[j] != null && d[j] in Elems && k[j] == Item(d[j].pri, d[j].info)
    }

    ghost predicate Valid()
      reads this, d, Elems
    {
      && 1 <= size
      && step > 0
      && Placed(size, 0, null)
      && Keys(K, size, 0)
      && OrderedBut(K, 0)
    }

    constructor (n: nat)
      ensures Valid() && Elems == {} && K == [Item(0, -1)] && fresh(d)
    {
      d := new Entry?[n + 1](_ => null);
      size, step := 1, n + 1;
      Elems, K := {}, [Item(0, -1)];
    }

    /** One iteration of either loop: slot `to` gets the entry of slot `from`, which becomes the hole. */
    method Shift(to: nat, from: nat, ghost n: nat, ghost m: Entry, ghost k: seq<Item>)
      requires 1 <= to < n && 1 <= from < n && from != to
      requires Placed(n, to, m) && Keys(k, n, to)
      modifies d, Elems`pos
      ensures Placed(n, from, m) && Keys(k[to := k[from]], n, from)
      ensures d[to] == old(d[from]) && forall j :: 0 <= j < d.Length && j != to ==> d[j] == old(d[j])
    {
      d[to] := d[from];
      d[to].pos := to;
    }

    /** The end of either loop: the moving entry goes into the hole. */
    method Settle(i: nat, m: Entry, ghost n: nat, ghost k: seq<Item>, ghost goal: seq<Item>)
      requires 1 <= i < n && m in Elems
      requires Placed(n, i, m) && Keys(k, n, i) && goal == k[i := Of(m)]
      modifies d, Elems`pos
      ensures Placed(n, 0, null) && Keys(goal, n, 0)
      ensures d[i] == m && forall j :: 0 <= j < d.Length && j != i ==> d[j] == old(d[j])
    {
      d[i] := m;
      m.pos := i;
    }

    /** One turn of bubble_up. */
    method BubbleStep(i: nat, ghost n: nat, m: Entry, ghost k: seq<Item>, ghost x: Item)
      requires 1 < i < n && Placed(n, i, m) && Keys(k, n, i) && k[Parent(i)].pri >= x.pri
      modifies d, Elems`pos
      ensures Placed(n, Parent(i), m) && Keys(k[i := k[Parent(i)]], n, Parent(i))
      ensures Bubbled(k[i := k[Parent(i)]], Parent(i), x) == Bubbled(k, i, x)
      ensures d[i] == old(d[Parent(i)]) && forall j :: 0 <= j < d.Length && j != i ==> d[j] == old(d[j])
    {
      Shift(i, Parent(i), n, m, k);
    }

    /** The entry in slot `start`, which may be the first slot past the live ones, moves towards the
        root.  `n` bounds the slots that matter. */
    method BubbleUp(start: nat, ghost n: nat, ghost k: seq<Item>, ghost goal: seq<Item>)
      requires 1 <= start < n <= d.Length && d[start] != null && d[start] in Elems
      requires Placed(n, start, d[start]) && Keys(k, n, start) && goal == Bubbled(k, start, Of(d[start]))
      modifies d, Elems`pos
      ensures Placed(n, 0, null) && Keys(goal, n, 0)
      ensures d[start] == old(if start > 1 && k[Parent(start)].pri >= d[start].pri then d[Parent(start)] else d[start])
    {
      var i := start;
      var moving := d[i];
      ghost var above := if start > 1 then d[Parent(start)] else null;
      ghost var x, k' := Of(moving), k;
      while i > 1 && d[Parent(i)].pri >= moving.pri
        invariant 1 <= i <= start && Placed(n, i, moving) && Keys(k', n, i) && Bubbled(k', i, x) == goal
        invariant if i < start then start > 1 && k[Parent(start)].pri >= x.pri && d[start] == above
                  else k' == k && (start > 1 ==> d[Parent(start)] == above)
      {
        BubbleStep(i, n, moving, k', x);
        k' := k'[i := k'[Parent(i)]];
        i := Parent(i);
      }
      assert goal == k'[i := x];
      Settle(i, moving, n, k', goal);
    }

    /** maxchild, over the live slots. */
    method MaxChild(i: nat, ghost n: nat, ghost k: seq<Item>) returns (c: nat)
      requires 1 <= i < n <= d.Length && Keys(k, n, i) && (size == n || (size == i && n == i + 1))
      ensures c == MinChild(k, i)
    {
      c := 2 * i;
      if c >= size {
        return 0;
      }
      if c + 1 < size && d[c].pri >= d[c + 1].pri {
        c := c + 1;
      }
    }

    /** One turn of percolate_down: the smaller child moves up, or the moving entry settles. */
    method PercolateTurn(i: nat, m: Entry, ghost n: nat, ghost k: seq<Item>, ghost goal: seq<Item>)
      returns (i': nat, done: bool, ghost k': seq<Item>)
      requires 1 <= i < n && m in Elems && Placed(n, i, m) && Keys(k, n, i) && goal == Percolated(k, i, Of(m))
      requires size == n || (size == i && n == i + 1)
      modifies d, Elems`pos
      ensures done ==> Placed(n, 0, null) && Keys(goal, n, 0)
      ensures !done ==> i < i' < n == size && Placed(n, i', m) && Keys(k', n, i') && goal == Percolated(k', i', Of(m))
    {
      i', done, k' := i, true, k;
      var child := MaxChild(i, n, k);
      if child != 0 && m.pri >= d[child].pri {
        Shift(i, child, n, m, k);
        i', done, k' := child, false, k[i := k[child]];
      } else {
        Settle(i, m, n, k, goal);
      }
    }

    /** The entry in slot `start` moves towards the leaves. */
    method PercolateDown(start: nat, ghost n: nat, ghost k: seq<Item>, ghost goal: seq<Item>)
      requires 1 <= start < n <= d.Length && d[start] != null && d[start] in Elems
      requires size == n || (size == start && n == start + 1)
      requires Placed(n, start, d[start]) && Keys(k, n, start) && goal == Percolated(k, start, Of(d[start]))
      modifies d, Elems`pos
      ensures Placed(n, 0, null) && Keys(goal, n, 0)
    {
      var i, moving, done := start, d[start], false;
      ghost var k' := k;
      while !done
        invariant if done then Placed(n, 0, null) && Keys(goal, n, 0)
                  else 1 <= i < n && Placed(n, i, moving) && Keys(k', n, i) && goal == Percolated(k', i, Of(moving))
        invariant !done ==> size == n || (size == i && n == i + 1)
        decreases if done then 0 else n - i
      {
        i, done, k' := PercolateTurn(i, moving, n, k', goal);
      }
    }

    method Grow()
      requires Valid()
      modifies this`d
      ensures Valid() && size < d.Length && (d == old(d) || fresh(d))
    {
      if size >= d.Length {
        var more := new Entry?[size + step](_ => null);
        for i := 0 to size
          invariant d == old(d) && forall j :: 0 <= j < i ==> more[j] == d[j]
        {
          more[i] := d[i];
        }
        d := more;
      }
    }

    /** The new entry goes into the first free slot, out of order. */
    method Append(e: Entry)
      requires Valid() && e !in Elems && size < d.Length
      modifies this, d
      ensures d == old(d) && size == old(size) + 1 && Elems == old(Elems) + {e} && K == old(K) + [Of(e)]
      ensures d[size - 1] == e && Placed(size, size - 1, e) && Keys(K, size, size - 1)
    {
      d[size] := e;
      size := size + 1;
      Elems, K := Elems + {e}, K + [Of(e)];
    }

    method Insert(e: Entry)
      requires Valid() && e !in Elems
      modifies this, d, Elems`pos, e`pos
      ensures Valid() && Elems == old(Elems) + {e} && K == Inserted(old(K), Of(e)) && (d == old(d) || fresh(d))
      ensures forall x :: x in old(Elems) ==> x.pri == old(x.pri) && x.info == old(x.info)
      ensures e.pri == old(e.pri) && e.info == old(e.info)
    {
      GrowAndInsert(e);
    }

    method GrowAndInsert(e: Entry)
      requires Valid() && e !in Elems
      modifies this, d, Elems`pos, e`pos
      ensures Valid() && Elems == old(Elems) + {e} && K == Inserted(old(K), Of(e)) && (d == old(d) || fresh(d))
    {
      Grow();
      InsertFits(e);
    }

    method InsertFits(e: Entry)
      requires Valid() && e !in Elems && size < d.Length
      modifies this, d, Elems`pos, e`pos
      ensures Valid() && Elems == old(Elems) + {e} && K == Inserted(old(K), Of(e)) && d == old(d)
    {
      InsertedOrdered(K, Of(e));
      ghost var k0 := K;
      Append(e);
      BubbleLast(k0, e);
    }

    /** The entry just appended finds its slot. */
    method BubbleLast(ghost k0: seq<Item>, e: Entry)
      requires 1 < size <= d.Length && K == k0 + [Of(e)] && d[size - 1] == e && e in Elems
      requires Placed(size, size - 1, e) && Keys(K, size, size - 1) && |k0| == size - 1
      modifies this`K, d, Elems`pos
      ensures Placed(size, 0, null) && Keys(K, size, 0) && K == Inserted(k0, Of(e))
    {
      ghost var k := K;
      K := Inserted(k0, Of(e));
      BubbleUp(size - 1, size, k, K);
    }

    /** ps_pqueue_size: the slots in use are as many as the entries. */
    method Size() returns (n: nat)
      requires Valid()
      ensures n == |Elems|
    {
      n := size - 1;
      ghost var seen := {};
      for i := 1 to size
        invariant |seen| == i - 1 && seen <= Elems && forall e :: e in seen ==> e.pos < i
        invariant forall e :: e in Elems && e.pos < i ==> e in seen
      {
        seen := seen + {d[i]};
      }
      assert seen == Elems;
    }

    method Peek() returns (head: Entry?)
      requires Valid()
      ensures head == (if size == 1 then null else d[1]) && (head == null <==> Elems == {})
      ensures head != null ==>
        head in Elems && |K| > 1 && K[1] == Of(head) && forall x :: x in Elems ==> head.pri <= x.pri
    {
      if size == 1 {
        return null;
      }
      head := d[1];
      forall x | x in Elems ensures head.pri <= x.pri {
        RootIsMinimum(K, x.pos);
      }
    }

    method Pop() returns (head: Entry?)
      requires Valid()
      modifies this, d, Elems`pos
      ensures Valid() && d == old(d)
      ensures head == null <==> old(Elems) == {}
      ensures head == null ==> Elems == {} && K == old(K)
      ensures forall x :: x in old(Elems) ==> x.pri == old(x.pri) && x.info == old(x.info)
      ensures head != null ==> head in old(Elems) && Elems == old(Elems) - {head}
      ensures head != null ==> forall x :: x in old(Elems) ==> head.pri <= x.pri
      ensures head != null ==> |old(K)| > 1 && old(K)[1] == Of(head) && K == Popped(old(K))
    {
      head := Peek();
      if head != null {
        RemoveRoot();
      }
    }

    method RemoveRoot()
      requires Valid() && size > 1
      modifies this, d, Elems`pos
      ensures Valid() && d == old(d) && Elems == old(Elems) - {old(d[1])} && K == Popped(old(K))
    {
      if size == 2 {
        size := size - 1;
        PercolateDown(1, 2, K, K);
        Elems, K := {}, K[..1];
      } else {
        RootIsMinimum(K, size - 1);
        ghost var k0 := K;
        ReplaceWithLast(1);
        RestoreRoot(k0);
      }
    }

    /** The replacement of the root finds its slot. */
    method RestoreRoot(ghost k0: seq<Item>)
      requires 1 < size <= d.Length && step > 0 && d[1] != null && d[1] in Elems
      requires Placed(size, 1, d[1]) && Keys(K, size, 1) && OrderedBut(K, 0)
      requires |k0| == size + 1 && K == k0[..size] && Of(d[1]) == k0[size] && k0[1].pri <= k0[size].pri
      modifies this`K, d, Elems`pos
      ensures Valid() && K == Popped(k0)
    {
      Restore(1, false, Popped(k0));
    }

    /** The entry in slot `i` gives way to the one in the last slot. */
    method ReplaceWithLast(i: nat)
      requires Valid() && 1 <= i < size - 1
      modifies this, d
      ensures d == old(d) && size == old(size) - 1
      ensures Elems == old(Elems) - {old(d[i])} && K == old(K)[..size] && OrderedBut(K, 0)
      ensures d[i] == old(d[size - 1]) && d[i] in Elems && Placed(size, i, d[i]) && Keys(K, size, i)
      ensures Of(d[i]) == old(K)[size]
    {
      DropLast(K);
      assert d[i].pos == i && d[size - 1].pos == size - 1;
      size := size - 1;
      Elems, K := Elems - {d[i]}, K[..size];
      d[i] := d[size];
    }

    /** The entry that leaves the queue when `e` is removed: `e`, unless it sits in the last slot under a
        parent of the same priority, in which case that parent leaves and `e` stays. */
    ghost function Victim(e: Entry): Entry
      requires Valid() && e in Elems
      reads this, d, Elems
    {
      if e.pos == size - 1 && e.pos > 1 && d[Parent(e.pos)].pri == e.pri then d[Parent(e.pos)] else e
    }

    method Remove(e: Entry)
      requires Valid() && e in Elems
      modifies this, d, Elems`pos
      ensures Valid() && d == old(d) && Elems == old(Elems) - {old(Victim(e))}
      ensures 1 <= old(e.pos) < |old(K)| && K == Removed(old(K), old(e.pos))
    {
      if e.pos == size - 1 {
        RemoveLast(e);
      } else {
        RemoveInner(e);
      }
    }

    /** Removal from any slot but the last. */
    method RemoveInner(e: Entry)
      requires Valid() && e in Elems && e.pos < size - 1
      modifies this, d, Elems`pos
      ensures Valid() && d == old(d) && Elems == old(Elems) - {e}
      ensures 1 <= old(e.pos) < |old(K)| && K == Removed(old(K), old(e.pos))
    {
      var posn := e.pos;
      assert d[posn] == e && K[posn] == Of(e);
      ghost var k0 := K;
      ReplaceWithLast(posn);
      RestoreReplaced(posn, e.pri, k0);
    }

    /** The replacement in slot `i` of an entry with priority `was` finds its slot. */
    method RestoreReplaced(i: nat, was: int, ghost k0: seq<Item>)
      requires 1 <= i < size <= d.Length && step > 0 && d[i] != null && d[i] in Elems
      requires Placed(size, i, d[i]) && Keys(K, size, i) && OrderedBut(K, 0)
      requires |k0| == size + 1 && K == k0[..size] && Of(d[i]) == k0[size] && was == k0[i].pri
      modifies this`K, d, Elems`pos
      ensures Valid() && K == Removed(k0, i)
    {
      Restore(i, was >= d[i].pri, Removed(k0, i));
    }

    /** The entry in slot `i` has a new priority, or is new to the slot: it moves up or down. */
    method Restore(i: nat, up: bool, ghost goal: seq<Item>)
      requires 1 <= i < size <= d.Length && step > 0 && d[i] != null && d[i] in Elems
      requires Placed(size, i, d[i]) && Keys(K, size, i) && OrderedBut(K, 0)
      requires if up then d[i].pri <= K[i].pri else K[i].pri <= d[i].pri
      requires goal == if up then Bubbled(K, i, Of(d[i])) else Percolated(K, i, Of(d[i]))
      modifies this`K, d, Elems`pos
      ensures Valid() && K == goal
    {
      ghost var k := K;
      K := goal;
      if up {
        LoweredOrdered(k, i, Of(d[i]));
        BubbleUp(i, size, k, goal);
      } else {
        RaisedOrdered(k, i, Of(d[i]));
        PercolateDown(i, size, k, goal);
      }
    }

    /** Removal from the last slot: the entry is its own replacement, and is bubbled up. */
    method RemoveLast(e: Entry)
      requires Valid() && e in Elems && e.pos == size - 1
      modifies this, d, Elems`pos
      ensures Valid() && d == old(d) && Elems == old(Elems) - {old(Victim(e))}
      ensures 1 <= old(e.pos) < |old(K)| && K == Removed(old(K), old(e.pos))
    {
      assert K[e.pos] == Of(e) && (e.pos > 1 ==> K[Parent(e.pos)].pri <= e.pri);
      LoweredOrdered(K, e.pos, K[e.pos]);
      ghost var v, k := Victim(e), Bubbled(K, e.pos, K[e.pos]);
      DropLast(k);
      size := size - 1;
      BubbleUp(size, size + 1, K, k);
      assert d[size] == v;
      ShrinkTo(k);
    }

    /** The entry in the first free slot is no longer in the queue. */
    ghost method ShrinkTo(k: seq<Item>)
      requires 1 <= size < d.Length && step > 0 && Placed(size + 1, 0, null) && Keys(k, size + 1, 0)
      requires OrderedBut(k[..size], 0)
      modifies this`Elems, this`K
      ensures Valid() && Elems == old(Elems) - {d[size]} && K == k[..size]
    {
      Elems, K := Elems - {d[size]}, k[..size];
    }

    /** ps_pqueue_change_priority, with the old priority still stored in the entry. */
    method ChangePriority(pri: int, e: Entry)
      requires Valid() && e in Elems
      modifies this`K, d, Elems`pos, e`pri
      ensures Valid() && e.pri == pri
    {
      var was := e.pri;
      assert K[e.pos] == Of(e);
      e.pri := pri;
      ghost var x := Of(e);
      Restore(e.pos, was >= pri, if was >= pri then Bubbled(K, e.pos, x) else Percolated(K, e.pos, x));
    }

    /** The call as EVT_sched_update makes it: the new priority is stored in the entry first, so the old
        one is lost and the entry can only bubble up. */
    method StoreThenChange(pri: int, e: Entry)
      requires Valid() && e in Elems
      modifies this`K, d, Elems`pos, e`pri
      ensures e.pri == pri
      ensures 1 <= old(e.pos) < |old(K)| && K == Bubbled(old(K), old(e.pos), Item(pri, e.info))
      ensures Valid() <==> old(BelowOk(K, e.pos, pri))
    {
      BubbleAloneIff(K, e.pos, Item(pri, e.info));
      e.pri := pri;
      BubbleStored(e.pos);
    }

    /** The entry in slot `i` bubbles up with the priority stored in it. */
    method BubbleStored(i: nat)
      requires 1 <= i < size <= d.Length && d[i] != null && d[i] in Elems && Placed(size, i, d[i]) && Keys(K, size, i)
      modifies this`K, d, Elems`pos
      ensures Placed(size, 0, null) && Keys(K, size, 0) && K == Bubbled(old(K), i, old(Of(d[i])))
    {
      ghost var k := K;
      K := Bubbled(k, i, Of(d[i]));
      BubbleUp(i, size, k, K);
    }
  }
}
