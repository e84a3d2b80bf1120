/**
 What the operations of module FdTable mean for the sets that the loop waits on, for the node of the
 descriptor, and for a callback that is running while they are made.
 */
module FdEffects {
  import opened Common
  import opened FdTable

  /** The callback of event `e` on `fd` is running. */
  ghost predicate Busy(nodes: Nodes, fd: int, e: int) {
    fd in nodes && Running(nodes[fd], e)
  }

  /** The nodes of the other descriptors are the same. */
  ghost predicate OthersSame(nodes: Nodes, nodes': Nodes, fd: int) {
    forall g :: g != fd ==> (g in nodes' <==> g in nodes) && (g in nodes ==> nodes'[g] == nodes[g])
  }

  /** The same node, apart from the callback of event `e` and its state. */
  ghost predicate SameButFor(n: Node, n': Node, e: int) {
    && n'.serial == n.serial && n'.breakpoint == n.breakpoint && n'.pausable == n.pausable && n'.critical == n.critical
    && |n'.cb| == |n.cb| && |n'.inCallback| == |n.inCallback|
    && (forall x :: 0 <= x < |n.cb| && x != e ==> n'.cb[x] == n.cb[x])
    && (forall x :: 0 <= x < |n.inCallback| && x != e ==> n'.inCallback[x] == n.inCallback[x])
  }

  /** The sets of event `e` lose `fd`, the other sets stay, and the node is gone if and only if no other
      event of `fd` is watched. */
  ghost predicate TakenOut(nodes: Nodes, nodes': Nodes, fd: int, e: int) {
    && OthersSame(nodes, nodes', fd)
    && (forall x :: Watched(nodes', x) == if x == e then Watched(nodes, x) - {fd} else Watched(nodes, x))
    && (forall x :: Blocked(nodes', x) == if x == e then Blocked(nodes, x) - {fd} else Blocked(nodes, x))
    && (fd in nodes' <==> exists x :: x != e && fd in Watched(nodes, x))
    && (fd in nodes' ==> fd in nodes && SameButFor(nodes[fd], nodes'[fd], e) && !Running(nodes'[fd], e))
  }

  /** No set changes, and of the nodes only the state of the callback. */
  ghost predicate OnlyState(nodes: Nodes, nodes': Nodes, fd: int, e: int, state: int) {
    && OthersSame(nodes, nodes', fd) && fd in nodes && fd in nodes' && SameButFor(nodes[fd], nodes'[fd], e)
    && nodes'[fd].cb == nodes[fd].cb && 0 <= e < |nodes'[fd].inCallback| && nodes'[fd].inCallback[e] == state
    && (forall x :: Watched(nodes', x) == Watched(nodes, x) && Blocked(nodes', x) == Blocked(nodes, x))
  }

  lemma WithoutTakesOut(nodes: Nodes, fd: int, e: int)
    requires fd in nodes && WellFormed(nodes[fd]) && 0 <= e < EVENT_MAX && !Running(nodes[fd], e)
    ensures TakenOut(nodes, Without(nodes, fd, e), fd, e)
  {
    forall x {
      WithoutWatched(nodes, fd, e, x);
    }
    var n := Cleared(nodes[fd], e);
    if !Unused(n) {
      var x :| 0 <= x < |n.cb| && n.cb[x] != 0;
      assert fd in Watched(nodes, x);
    }
  }

  lemma NothingToTakeOut(nodes: Nodes, serial: int, fd: int, e: int)
    requires Sane(nodes, serial) && 0 <= e < EVENT_MAX && fd !in Watched(nodes, e)
    ensures TakenOut(nodes, nodes, fd, e)
  {
    if fd in nodes {
      var x :| 0 <= x < EVENT_MAX && nodes[fd].cb[x] != 0;
      assert fd in Watched(nodes, x);
    }
  }

  /** EVT_fd_remove takes an idle callback out, and does nothing to a running one. */
  lemma RemoveMeans(nodes: Nodes, serial: int, fd: int, e: int)
    requires Sane(nodes, serial) && 0 <= e < EVENT_MAX
    ensures var t := Effect(Store(nodes, serial), Remove(fd, e));
            t.serial == serial && if Busy(nodes, fd, e) then t.nodes == nodes else TakenOut(nodes, t.nodes, fd, e)
  {
    if fd in Watched(nodes, e) {
      if !Busy(nodes, fd, e) {
        WithoutTakesOut(nodes, fd, e);
      }
    } else {
      NothingToTakeOut(nodes, serial, fd, e);
    }
  }

  /** EVT_fd_force_remove takes an idle callback out; a running one stays in the sets, and is marked. */
  lemma ForceMeans(nodes: Nodes, serial: int, fd: int, e: int)
    requires Sane(nodes, serial) && 0 <= e < EVENT_MAX
    ensures var t := Effect(Store(nodes, serial), Force(fd, e));
            && t.serial == serial
            && if Busy(nodes, fd, e) then OnlyState(nodes, t.nodes, fd, e, 3) else TakenOut(nodes, t.nodes, fd, e)
  {
    RemoveMeans(nodes, serial, fd, e);
    if Busy(nodes, fd, e) {
      SameIndexes(nodes, fd, Marked(nodes[fd], e, 3));
    }
  }

  /** EVT_fd_add puts the descriptor into the sets of the event and of no other.  A new node is critical
      and pausable; a callback that is running is set again, and not called. */
  lemma AddMeans(nodes: Nodes, serial: int, fd: int, e: int, cb: int)
    requires Sane(nodes, serial) && 0 <= e < EVENT_MAX && cb != 0
    ensures var t := Effect(Store(nodes, serial), Add(fd, e, cb));
            && t.serial == (if fd in nodes then serial else serial + 1) && OthersSame(nodes, t.nodes, fd)
            && (forall x :: Watched(t.nodes, x) == if x == e then Watched(nodes, x) + {fd} else Watched(nodes, x))
            && fd in t.nodes && |t.nodes[fd].cb| == 3 && t.nodes[fd].cb[e] == cb
            && |t.nodes[fd].inCallback| == 3 && t.nodes[fd].inCallback[e] == (if Busy(nodes, fd, e) then 2 else 0)
            && (fd in nodes ==> SameButFor(nodes[fd], t.nodes[fd], e))
            && (fd !in nodes ==>
                  && t.nodes[fd].serial == serial && t.nodes[fd].critical && t.nodes[fd].pausable
                  && t.nodes[fd].breakpoint == [false, false, false] && t.nodes[fd].inCallback == [0, 0, 0])
  {
    var n := Registered(if fd in nodes then nodes[fd] else NewNode(serial), e, cb);
    forall x ensures Watched(nodes[fd := n], x) == if x == e then Watched(nodes, x) + {fd} else Watched(nodes, x) {
      PutWatched(nodes, fd, n, x);
      assert fd in Watched(nodes, x) <==> fd in nodes && Has(nodes[fd], x);
    }
  }

  /** A null callback removes. */
  lemma AddNothing(nodes: Nodes, serial: int, fd: int, e: int)
    ensures Effect(Store(nodes, serial), Add(fd, e, 0)) == Effect(Store(nodes, serial), Remove(fd, e))
  {}

  /** When a callback ends: it is taken out if a removal was forced, or if it asks to be removed and was not
      set again; otherwise it stays in the sets.  Either way it is idle. */
  lemma EndMeans(nodes: Nodes, serial: int, fd: int, e: int, keep: bool)
    requires Sane(nodes, serial) && 0 <= e < EVENT_MAX && Busy(nodes, fd, e)
    ensures var state := nodes[fd].inCallback[e];
            if state == 3 || (state == 1 && !keep) then TakenOut(nodes, EndSpec(nodes, fd, e, keep), fd, e)
            else OnlyState(nodes, EndSpec(nodes, fd, e, keep), fd, e, 0)
  {
    var idle := nodes[fd := Marked(nodes[fd], e, 0)];
    SameIndexes(nodes, fd, Marked(nodes[fd], e, 0));
    WithoutTakesOut(idle, fd, e);
  }

  /** A removal forced in the callback is made when it ends, even if the callback asks to be kept. */
  lemma ForcedInCallback(nodes: Nodes, serial: int, fd: int, e: int, keep: bool)
    requires Sane(nodes, serial) && 0 <= e < EVENT_MAX && Busy(nodes, fd, e)
    ensures var t := EndSpec(Effect(Store(nodes, serial), Force(fd, e)).nodes, fd, e, keep);
            && Watched(t, e) == Watched(nodes, e) - {fd} && (fd in t <==> exists x :: x != e && fd in Watched(nodes, x))
  {
    ForceMeans(nodes, serial, fd, e);
    var marked := Effect(Store(nodes, serial), Force(fd, e)).nodes;
    EndMeans(marked, serial, fd, e, keep);
    forall x ensures fd in Watched(marked, x) <==> fd in Watched(nodes, x) {}
  }

  /** A callback set again in the callback stays, even if the old one asks to be removed. */
  lemma SetAgainInCallback(nodes: Nodes, serial: int, fd: int, e: int, cb: int, keep: bool)
    requires Sane(nodes, serial) && 0 <= e < EVENT_MAX && Busy(nodes, fd, e) && cb != 0
    ensures var t := EndSpec(Effect(Store(nodes, serial), Add(fd, e, cb)).nodes, fd, e, keep);
            fd in Watched(t, e) && fd in t && |t[fd].cb| == 3 && t[fd].cb[e] == cb && !Running(t[fd], e)
  {
    AddMeans(nodes, serial, fd, e, cb);
    AddSane(nodes, serial, fd, e, cb);
    EndMeans(Effect(Store(nodes, serial), Add(fd, e, cb)).nodes, serial, fd, e, keep);
  }

  /** The interface calls of a callback take effect one after the other. */
  lemma {:induction false} EffectsAppend(s: Store, a: seq<Op>, b: seq<Op>)
    ensures Effects(s, a + b) == Effects(Effects(s, a), b)
    decreases |b|
  {
    if b == [] {
      assert a + b == a;
    } else {
      var last := |b| - 1;
      assert (a + b)[..|a + b| - 1] == a + b[..last];
      EffectsAppend(s, a, b[..last]);
    }
  }

  /** Before its own calls, the callback is marked as running. */
  lemma CalledOne(nodes: Nodes, serial: int, fd: int, e: int, op: Op)
    requires Sane(nodes, serial) && 0 <= e < EVENT_MAX && fd in Watched(nodes, e)
    ensures OnlyState(nodes, Called(nodes, serial, fd, e, []).nodes, fd, e, 1)
    ensures Called(nodes, serial, fd, e, [op]) == Effect(Called(nodes, serial, fd, e, []), op)
  {
    SameIndexes(nodes, fd, Marked(nodes[fd], e, 1));
    assert [op][..0] == [];
  }
}
