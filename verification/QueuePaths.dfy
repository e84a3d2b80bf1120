/**
 Where the entries of module PriorityQueue go, slot by slot and ties included: which way an entry takes up
 or down the heap, what moves aside for it, and where it stops.
 */
module QueuePaths {
  import opened PriorityQueue

  /** Slot `k` is slot `i` or one above it. */
  predicate OnPath(k: nat, i: nat)
    decreases i
  {
    k == i || (1 <= k < i && OnPath(k, Parent(i)))
  }

  /** bubble_up: the entry stops under the first smaller one, or at the root; those on its way, none of them
      smaller, move one slot down; nothing else moves. */
  lemma {:induction false} BubbledPath(h: seq<Item>, i: nat, x: Item) returns (j: nat)
    requires 1 <= i < |h|
    ensures 1 <= j <= i && OnPath(j, i) && Bubbled(h, i, x)[j] == x && (j == 1 || h[Parent(j)].pri < x.pri)
    ensures forall k :: j < k <= i && OnPath(k, i) ==> Bubbled(h, i, x)[k] == h[Parent(k)] && h[Parent(k)].pri >= x.pri
    ensures forall k :: 0 <= k < |h| && k != j && !(k > j && OnPath(k, i)) ==> Bubbled(h, i, x)[k] == h[k]
    decreases i
  {
    var p := Parent(i);
    if i > 1 && h[p].pri >= x.pri {
      var h1 := h[i := h[p]];
      j := BubbledPath(h1, p, x);
      assert Bubbled(h, i, x) == Bubbled(h1, p, x);
      forall k | j < k <= i && OnPath(k, i)
        ensures Bubbled(h, i, x)[k] == h[Parent(k)] && h[Parent(k)].pri >= x.pri
      {
        if k < i {
          assert OnPath(k, p) && h1[Parent(k)] == h[Parent(k)];
        } else {
          assert !OnPath(i, p) by { PathBelow(i, p); }
        }
      }
    } else {
      j := i;
    }
  }

  lemma {:induction false} PathBelow(k: nat, i: nat)
    ensures OnPath(k, i) ==> k <= i
  {}

  /** A tie between the children goes to the right one. */
  lemma MinChildTies(h: seq<Item>, i: nat)
    requires 1 <= i
    ensures var c := MinChild(h, i);
            if Left(i) >= |h| then c == 0
            else if Right(i) >= |h| || h[Left(i)].pri < h[Right(i)].pri then c == 2 * i else c == 2 * i + 1
  {}

  /** The way down from slot `i` for a priority: always to the smaller child, the right one on a tie, as long
      as it is not greater. */
  ghost predicate WayDown(h: seq<Item>, i: nat, pri: int, way: seq<nat>)
    decreases |way|
  {
    && 1 <= i < |h| && way != [] && way[0] == i
    && var c := MinChild(h, i);
       if |way| == 1 then c == 0 || h[c].pri > pri
       else c != 0 && way[1] == c && h[c].pri <= pri && WayDown(h, c, pri, way[1..])
  }

  /** Every entry on the way but the first moves one slot back, and `x` takes the last slot. */
  function Along(h: seq<Item>, way: seq<nat>, x: Item): seq<Item>
    requires forall n :: 0 <= n < |way| ==> way[n] < |h|
    decreases |way|
  {
    if way == [] then h
    else if |way| == 1 then h[way[0] := x] else Along(h[way[0] := h[way[1]]], way[1..], x)
  }

  lemma {:induction false} WayFrame(h: seq<Item>, h': seq<Item>, i: nat, pri: int, way: seq<nat>)
    requires |h'| == |h| && WayDown(h, i, pri, way) && forall k :: i <= k < |h| ==> h'[k] == h[k]
    ensures WayDown(h', i, pri, way) && forall n :: 0 <= n < |way| ==> i <= way[n] < |h|
    decreases |way|
  {
    if |way| > 1 {
      WayFrame(h, h', way[1], pri, way[1..]);
    }
  }

  /** percolate_down: the entry takes that way, and what is on it moves up. */
  lemma {:induction false} PercolatedPath(h: seq<Item>, i: nat, x: Item) returns (way: seq<nat>)
    requires 1 <= i < |h|
    ensures WayDown(h, i, x.pri, way) && (forall n :: 0 <= n < |way| ==> way[n] < |h|)
    ensures Percolated(h, i, x) == Along(h, way, x)
    decreases |h| - i
  {
    var c := MinChild(h, i);
    if c != 0 && x.pri >= h[c].pri {
      var h1 := h[i := h[c]];
      var rest := PercolatedPath(h1, c, x);
      WayFrame(h1, h, c, x.pri, rest);
      way := [i] + rest;
      assert way[1..] == rest;
    } else {
      way := [i];
    }
  }
}
