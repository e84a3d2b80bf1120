/**
 The file descriptor events of events.c: hash buckets of nodes, and the indexes the loop works with
 (descriptor sets, counters, maxima), kept in step with them.
 */
module FdTable {
  import opened Common

  const EVENT_MAX := 3

  /** EventCB: per event the callback (0 for none), the callback state (0, 1 running, 2 set again while
      running, 3 to be removed) and the breakpoint flag.  `serial` tells apart two nodes that were
      allocated for the same descriptor. */
  datatype Node =
    Node(serial: int, cb: seq<int>, inCallback: seq<int>, breakpoint: seq<bool>, pausable: bool, critical: bool)

  type Nodes = map<int, Node>

  // ---------------------------------------------------------------- what the nodes say

  predicate Has(n: Node, e: int) {
    0 <= e < |n.cb| && n.cb[e] != 0
  }

  /** Watched even while the debugger holds the program. */
  predicate Stays(n: Node, e: int) {
    Has(n, e) && (!n.pausable || !(0 <= e < |n.breakpoint| && n.breakpoint[e]))
  }

  ghost function Watched(nodes: Nodes, e: int): set<int> {
    set fd | fd in nodes && Has(nodes[fd], e)
  }

  ghost function Blocked(nodes: Nodes, e: int): set<int> {
    set fd | fd in nodes && Stays(nodes[fd], e)
  }

  ghost function Critical(nodes: Nodes): set<int> {
    set fd | fd in nodes && nodes[fd].critical
  }

  ghost predicate WellFormed(n: Node) {
    && |n.cb| == |n.inCallback| == |n.breakpoint| == EVENT_MAX
    && (n.cb[0] != 0 || n.cb[1] != 0 || n.cb[2] != 0)
    && forall e :: 0 <= e < EVENT_MAX && n.inCallback[e] != 0 ==> n.cb[e] != 0
  }

  ghost predicate Sane(nodes: Nodes, serial: int) {
    forall fd :: fd in nodes ==> WellFormed(nodes[fd]) && nodes[fd].serial < serial
  }

  // ---------------------------------------------------------------- changes to the nodes

  /** The node after one callback is gone. */
  function Cleared(n: Node, e: int): Node
    requires 0 <= e < |n.cb|
  {
    n.(cb := n.cb[e := 0])
  }

  predicate Unused(n: Node) {
    forall e :: 0 <= e < |n.cb| ==> n.cb[e] == 0
  }

  function Without(nodes: Nodes, fd: int, e: int): Nodes
    requires fd in nodes && 0 <= e < |nodes[fd].cb|
  {
    var n := Cleared(nodes[fd], e);
    if Unused(n) then nodes - {fd} else nodes[fd := n]
  }

  function NewNode(serial: int): Node {
    Node(serial, [0, 0, 0], [0, 0, 0], [false, false, false], true, true)
  }

  function Registered(n: Node, e: int, cb: int): Node {
    if !(0 <= e < |n.cb| && e < |n.inCallback|) then n else
    n.(cb := n.cb[e := cb], inCallback := n.inCallback[e := if n.inCallback[e] != 0 then 2 else 0])
  }

  lemma WithoutWatched(nodes: Nodes, fd: int, e: int, x: int)
    requires fd in nodes && WellFormed(nodes[fd]) && 0 <= e < EVENT_MAX
    ensures Watched(Without(nodes, fd, e), x) == if x == e then Watched(nodes, x) - {fd} else Watched(nodes, x)
    ensures Blocked(Without(nodes, fd, e), x) == if x == e then Blocked(nodes, x) - {fd} else Blocked(nodes, x)
  {
    var n, after := Cleared(nodes[fd], e), Without(nodes, fd, e);
    assert Has(n, x) <==> x != e && Has(nodes[fd], x);
    assert Unused(n) ==> !Has(n, x);
    var without := if x == e then {fd} else {};
    forall f ensures f in Watched(after, x) <==> f in Watched(nodes, x) - without {}
    forall f ensures f in Blocked(after, x) <==> f in Blocked(nodes, x) - without {}
  }

  lemma WithoutCritical(nodes: Nodes, fd: int, e: int)
    requires fd in nodes && 0 <= e < |nodes[fd].cb|
    ensures var gone := Unused(Cleared(nodes[fd], e)) && nodes[fd].critical;
            |Critical(Without(nodes, fd, e))| == |Critical(nodes)| - if gone then 1 else 0
  {
    var after := Without(nodes, fd, e);
    if Unused(Cleared(nodes[fd], e)) {
      assert Critical(after) == Critical(nodes) - {fd};
    } else {
      assert Critical(after) == Critical(nodes);
    }
  }

  /** A node put in or changed. */
  lemma PutWatched(nodes: Nodes, fd: int, n: Node, x: int)
    ensures Watched(nodes[fd := n], x) == if Has(n, x) then Watched(nodes, x) + {fd} else Watched(nodes, x) - {fd}
    ensures Blocked(nodes[fd := n], x) == if Stays(n, x) then Blocked(nodes, x) + {fd} else Blocked(nodes, x) - {fd}
  {}

  lemma PutCritical(nodes: Nodes, fd: int, n: Node)
    ensures |Critical(nodes[fd := n])| ==
            |Critical(nodes)| - (if fd in Critical(nodes) then 1 else 0) + (if n.critical then 1 else 0)
  {
    assert Critical(nodes[fd := n]) == if n.critical then Critical(nodes) + {fd} else Critical(nodes) - {fd};
  }

  // ---------------------------------------------------------------- the indexes

  /** `top` is the greatest watched descriptor, or zero. */
  ghost predicate Top(fds: set<int>, top: int) {
    (top == 0 || top in fds) && forall f :: f in fds ==> f <= top
  }

  /** The indexes of one event agree with the nodes. */
  ghost predicate Index(nodes: Nodes, e: int, watched: set<int>, blocked: set<int>, cnt: int, top: int) {
    && watched == Watched(nodes, e) && blocked == Blocked(nodes, e)
    && cnt == |Watched(nodes, e)| && Top(Watched(nodes, e), top)
  }

  /** The indexes of all events agree with the nodes. */
  ghost predicate Indexes(nodes: Nodes, watched: seq<set<int>>, blocked: seq<set<int>>, cnt: seq<int>, top: seq<int>,
                          maxFd: int) {
    && |watched| == |blocked| == |cnt| == |top| == EVENT_MAX
    && (forall e :: 0 <= e < EVENT_MAX ==> Index(nodes, e, watched[e], blocked[e], cnt[e], top[e]))
    && (forall e :: 0 <= e < EVENT_MAX ==> top[e] <= maxFd)
  }

  /** One event's indexes replaced, when the others' still agree. */
  lemma IndexesPatched(nodes: Nodes, nodes': Nodes, e: nat, watched: seq<set<int>>, blocked: seq<set<int>>,
                       cnt: seq<int>, top: seq<int>, maxFd: int,
                       watched': seq<set<int>>, blocked': seq<set<int>>, cnt': seq<int>, top': seq<int>, maxFd': int)
    requires Indexes(nodes, watched, blocked, cnt, top, maxFd) && e < EVENT_MAX
    requires |watched'| == |blocked'| == |cnt'| == |top'| == EVENT_MAX
    requires watched' == watched[e := watched'[e]] && blocked' == blocked[e := blocked'[e]] && cnt' == cnt[e := cnt'[e]]
    requires top' == top[e := top'[e]]
    requires Index(nodes', e, watched'[e], blocked'[e], cnt'[e], top'[e])
    requires forall x :: 0 <= x < EVENT_MAX && x != e ==>
      Watched(nodes', x) == Watched(nodes, x) && Blocked(nodes', x) == Blocked(nodes, x)
    requires forall x :: 0 <= x < EVENT_MAX ==> top'[x] <= maxFd'
    ensures Indexes(nodes', watched', blocked', cnt', top', maxFd')
  {
    forall x | 0 <= x < EVENT_MAX ensures Index(nodes', x, watched'[x], blocked'[x], cnt'[x], top'[x]) {
      assert Index(nodes, x, watched[x], blocked[x], cnt[x], top[x]);
    }
  }

  // ---------------------------------------------------------------- the buckets

  ghost predicate Distinct(l: seq<int>) {
    forall i, j :: 0 <= i < j < |l| ==> l[i] != l[j]
  }

  /** Every node is in the bucket of its descriptor, once, and nothing else is. */
  ghost predicate Listed(nodes: Nodes, buckets: seq<seq<int>>) {
    && |buckets| > 0
    && (forall fd :: fd in nodes ==> fd >= 0 && fd in buckets[fd % |buckets|])
    && (forall b, i :: 0 <= b < |buckets| && 0 <= i < |buckets[b]| ==>
          buckets[b][i] in nodes && buckets[b][i] % |buckets| == b)
    && (forall b :: 0 <= b < |buckets| ==> Distinct(buckets[b]))
  }

  function Unlinked(l: seq<int>, i: nat): seq<int>
    requires i < |l|
  {
    l[..i] + l[i + 1..]
  }

  lemma UnlinkedMembers(l: seq<int>, i: nat)
    requires i < |l| && Distinct(l)
    ensures Distinct(Unlinked(l, i))
    ensures forall f :: f in Unlinked(l, i) <==> f in l && f != l[i]
  {
    forall f ensures f in Unlinked(l, i) <==> f in l && f != l[i] {
      if f in l && f != l[i] {
        var j :| 0 <= j < |l| && l[j] == f;
        assert Unlinked(l, i)[if j < i then j else j - 1] == f;
      }
    }
  }

  lemma UnlinkListed(nodes: Nodes, buckets: seq<seq<int>>, fd: int, i: nat)
    requires Listed(nodes, buckets) && fd in nodes && i < |buckets[fd % |buckets|]| && buckets[fd % |buckets|][i] == fd
    ensures Listed(nodes - {fd}, buckets[fd % |buckets| := Unlinked(buckets[fd % |buckets|], i)])
  {
    var b := fd % |buckets|;
    UnlinkedMembers(buckets[b], i);
    var after := buckets[b := Unlinked(buckets[b], i)];
    forall c, j | 0 <= c < |after| && 0 <= j < |after[c]|
      ensures after[c][j] in nodes - {fd} && after[c][j] % |after| == c
    {
      if c == b {
        assert after[c][j] in Unlinked(buckets[b], i);
      } else {
        assert buckets[c][j] % |buckets| == c;
      }
    }
  }

  lemma AppendListed(nodes: Nodes, buckets: seq<seq<int>>, fd: int, n: Node)
    requires Listed(nodes, buckets) && fd !in nodes && fd >= 0
    ensures Listed(nodes[fd := n], buckets[fd % |buckets| := buckets[fd % |buckets|] + [fd]])
  {}

  lemma ChangeListed(nodes: Nodes, buckets: seq<seq<int>>, fd: int, n: Node)
    requires Listed(nodes, buckets) && fd in nodes
    ensures Listed(nodes[fd := n], buckets)
  {}

  /** The list without `fd`. */
  function Minus(l: seq<int>, fd: int): seq<int> {
    if l == [] then [] else if l[0] == fd then l[1..] else [l[0]] + Minus(l[1..], fd)
  }

  lemma {:induction false} MinusIsUnlinked(l: seq<int>, fd: int, i: nat)
    requires i < |l| && l[i] == fd && forall j :: 0 <= j < i ==> l[j] != fd
    ensures Minus(l, fd) == Unlinked(l, i)
    decreases i
  {
    if i > 0 {
      var t := l[1..];
      MinusIsUnlinked(t, fd, i - 1);
      assert l[..i] == [l[0]] + t[..i - 1] && l[i + 1..] == t[i..];
      assert l[0] != fd;
    } else {
      assert l[..0] == [] && [] + l[1..] == l[1..];
    }
  }

  // ---------------------------------------------------------------- what the operations do to the nodes

  /** EVT_fd_remove: not while the callback runs. */
  function RemoveSpec(nodes: Nodes, fd: int, e: int): Nodes {
    if fd in nodes && Has(nodes[fd], e) && !Running(nodes[fd], e) then Without(nodes, fd, e) else nodes
  }

  predicate Running(n: Node, e: int) {
    0 <= e < |n.inCallback| && n.inCallback[e] != 0
  }

  function Marked(n: Node, e: int, state: int): Node
    requires 0 <= e < |n.inCallback|
  {
    n.(inCallback := n.inCallback[e := state])
  }

  /** EVT_fd_force_remove: a running callback is marked to be removed when it ends. */
  function ForceSpec(nodes: Nodes, fd: int, e: int): Nodes {
    if fd in nodes && Running(nodes[fd], e) then nodes[fd := Marked(nodes[fd], e, 3)] else RemoveSpec(nodes, fd, e)
  }

  /** EVT_fd_add with a callback. */
  function AddSpec(nodes: Nodes, fd: int, e: int, cb: int, serial: int): Nodes {
    nodes[fd := Registered(if fd in nodes then nodes[fd] else NewNode(serial), e, cb)]
  }

  /** The bucket lists go with the nodes: a freed node is taken out, a new one is put last. */
  ghost predicate Follows(nodes: Nodes, buckets: seq<seq<int>>, nodes': Nodes, buckets': seq<seq<int>>, fd: int) {
    && |buckets| > 0 && fd >= 0
    && var b := fd % |buckets|;
       buckets' ==
         if fd in nodes && fd !in nodes' then buckets[b := Minus(buckets[b], fd)]
         else if fd !in nodes && fd in nodes' then buckets[b := buckets[b] + [fd]]
         else buckets
  }

  /** Greatest of the three maxima. */
  function Max3(m: seq<int>): (r: int)
    requires |m| == EVENT_MAX
    ensures r >= m[0] && r >= m[1] && r >= m[2] && r in m
  {
    var a := if m[1] > m[0] then m[1] else m[0];
    if m[2] > a then m[2] else a
  }

  class Table {
    var nodes: Nodes
    var buckets: seq<seq<int>>
    var eventSet: seq<set<int>>
    var blockedSet: seq<set<int>>
    var eventCnt: seq<int>
    var maxFds: seq<int>
    var maxFd: int
    var criticalFd: int
    var nextSerial: int

    /** The indexes agree with `ns`. */
    ghost predicate Agree(ns: Nodes)
      reads this`eventSet, this`blockedSet, this`eventCnt, this`maxFds, this`maxFd
    {
      Indexes(ns, eventSet, blockedSet, eventCnt, maxFds, maxFd)
    }

    ghost predicate Valid()
      reads this
    {
      Listed(nodes, buckets) && Agree(nodes) && criticalFd == |Critical(nodes)| && Sane(nodes, nextSerial)
    }

    constructor (hashSize: nat)
      requires hashSize > 0
      ensures Valid() && nodes == map[] && |buckets| == hashSize
    {
      nodes, buckets := map[], seq(hashSize, _ => []);
      eventSet, blockedSet := [{}, {}, {}], [{}, {}, {}];
      eventCnt, maxFds, maxFd, criticalFd, nextSerial := [0, 0, 0], [0, 0, 0], 0, 0, 0;
      new;
      forall e ensures Watched(map[], e) == {} && Blocked(map[], e) == {} && Critical(map[]) == {} {}
    }

    /** The walk along a bucket. */
    method Position(fd: int) returns (i: nat)
      requires Valid() && fd >= 0
      ensures var l := buckets[fd % |buckets|];
              if fd in nodes then IsAt(l, fd, i) else i == |l|
    {
      var l := buckets[fd % |buckets|];
      i := 0;
      while i < |l| && l[i] != fd
        invariant i <= |l| && forall j :: 0 <= j < i ==> l[j] != fd
      {
        i := i + 1;
      }
    }

    /** The part of EVT_remove_internal that keeps the indexes. */
    method DropIndexes(fd: int, e: nat)
      requires Agree(nodes) && e < EVENT_MAX && fd in nodes && WellFormed(nodes[fd]) && Has(nodes[fd], e)
      requires forall f :: f in nodes ==> f >= 0
      modifies this`eventSet, this`blockedSet, this`eventCnt, this`maxFds, this`maxFd
      ensures Agree(Without(nodes, fd, e))
    {
      eventSet, blockedSet, eventCnt, maxFds, maxFd :=
        Dropped(nodes, fd, e, eventSet, blockedSet, eventCnt, maxFds, maxFd);
    }

    /** EVT_remove_internal: the node is freed with its last callback, and unlinked through the pointer
        the caller came by: its place in the bucket, or the slot of the parked event (None). */
    method RemoveInternal(fd: int, e: nat, link: Option<nat>) returns (deleted: bool)
      requires Valid() && e < EVENT_MAX && fd in nodes && !Running(nodes[fd], e) && Has(nodes[fd], e)
      requires link.Some? ==> IsAt(buckets[fd % |buckets|], fd, link.value)
      modifies this
      ensures nodes == Without(old(nodes), fd, e) && (deleted <==> fd !in nodes) && nextSerial == old(nextSerial)
      ensures link.Some? ==> Valid() && Follows(old(nodes), old(buckets), nodes, buckets, fd)
      ensures link.None? ==> buckets == old(buckets) && (Valid() <==> !deleted)
    {
      WithoutCritical(nodes, fd, e);
      WithoutSane(nodes, nextSerial, fd, e);
      DropIndexes(fd, e);
      var n := Cleared(nodes[fd], e);
      deleted := Unused(n);
      if deleted {
        criticalFd := if nodes[fd].critical then criticalFd - 1 else criticalFd;
        Unlink(fd, link);
      } else {
        ChangeListed(nodes, buckets, fd, n);
        nodes := nodes[fd := n];
      }
    }

    /** Frees the node. */
    method Unlink(fd: int, link: Option<nat>)
      requires Listed(nodes, buckets) && fd in nodes
      requires link.Some? ==> IsAt(buckets[fd % |buckets|], fd, link.value)
      modifies this`nodes, this`buckets
      ensures nodes == old(nodes) - {fd}
      ensures link.Some? ==> Listed(nodes, buckets) && Follows(old(nodes), old(buckets), nodes, buckets, fd)
      ensures link.None? ==> buckets == old(buckets) && !Listed(nodes, buckets)
    {
      var b := fd % |buckets|;
      if link.Some? {
        UnlinkListed(nodes, buckets, fd, link.value);
        MinusIsUnlinked(buckets[b], fd, link.value);
        buckets := buckets[b := buckets[b][..link.value] + buckets[b][link.value + 1..]];
      }
      nodes := nodes - {fd};
    }

    /** EVT_fd_remove. */
    method FdRemove(fd: int, e: nat)
      requires Valid() && fd >= 0 && e < EVENT_MAX
      modifies this
      ensures Valid() && nodes == RemoveSpec(old(nodes), fd, e) && nextSerial == old(nextSerial)
      ensures Follows(old(nodes), old(buckets), nodes, buckets, fd)
    {
      var i := Position(fd);
      if i < |buckets[fd % |buckets|]| && nodes[fd].inCallback[e] == 0 && nodes[fd].cb[e] != 0 {
        var _ := RemoveInternal(fd, e, Some(i));
      }
    }

    /** EVT_fd_force_remove. */
    method FdForceRemove(fd: int, e: nat)
      requires Valid() && fd >= 0 && e < EVENT_MAX
      modifies this
      ensures Valid() && nodes == ForceSpec(old(nodes), fd, e) && nextSerial == old(nextSerial)
      ensures Follows(old(nodes), old(buckets), nodes, buckets, fd)
    {
      var i := Position(fd);
      if i < |buckets[fd % |buckets|]| {
        if nodes[fd].inCallback[e] == 0 {
          if nodes[fd].cb[e] != 0 {
            var _ := RemoveInternal(fd, e, Some(i));
          }
        } else {
          Mark(fd, e, 3);
        }
      }
    }

    /** Writes a node's callback state. */
    method Mark(fd: int, e: nat, state: int)
      requires Valid() && fd in nodes && e < EVENT_MAX && (state != 0 ==> Has(nodes[fd], e))
      modifies this`nodes
      ensures Valid() && nodes == old(nodes)[fd := Marked(old(nodes)[fd], e, state)]
    {
      var n := Marked(nodes[fd], e, state);
      SameIndexes(nodes, fd, n);
      ChangeListed(nodes, buckets, fd, n);
      nodes := nodes[fd := n];
    }

    /** EVT_fd_add. */
    method FdAdd(fd: int, e: nat, cb: int)
      requires Valid() && fd >= 0 && e < EVENT_MAX
      modifies this
      ensures Valid() && Follows(old(nodes), old(buckets), nodes, buckets, fd)
      ensures nextSerial == if cb != 0 && fd !in old(nodes) then old(nextSerial) + 1 else old(nextSerial)
      ensures nodes ==
              if cb == 0 then RemoveSpec(old(nodes), fd, e) else AddSpec(old(nodes), fd, e, cb, old(nextSerial))
    {
      if cb == 0 {
        FdRemove(fd, e);
        return;
      }
      var i := Position(fd);
      AddSane(nodes, nextSerial, fd, e, cb);
      AddCritical(nodes, fd, e, cb, nextSerial);
      AddIndexes(fd, e, cb);
      var b := fd % |buckets|;
      if i == |buckets[b]| {
        AppendListed(nodes, buckets, fd, Registered(NewNode(nextSerial), e, cb));
        nodes := nodes[fd := Registered(NewNode(nextSerial), e, cb)];
        buckets := buckets[b := buckets[b] + [fd]];
        criticalFd := criticalFd + 1;
        nextSerial := nextSerial + 1;
      } else {
        ChangeListed(nodes, buckets, fd, Registered(nodes[fd], e, cb));
        nodes := nodes[fd := Registered(nodes[fd], e, cb)];
      }
    }

    /** The indexes with the descriptor added. */
    method AddIndexes(fd: int, e: nat, cb: int)
      requires Valid() && fd >= 0 && e < EVENT_MAX && cb != 0
      modifies this`eventSet, this`blockedSet, this`eventCnt, this`maxFds, this`maxFd
      ensures Agree(AddSpec(nodes, fd, e, cb, nextSerial))
    {
      var n := if fd in nodes then nodes[fd] else NewNode(nextSerial);
      eventSet, blockedSet, eventCnt, maxFds, maxFd :=
        Extended(nodes, fd, e, n, cb, eventSet, blockedSet, eventCnt, maxFds, maxFd);
    }

    /** EVT_fd_set_critical. */
    method FdSetCritical(fd: int, critical: bool)
      requires Valid() && fd >= 0
      modifies this
      ensures Valid() && buckets == old(buckets) && nextSerial == old(nextSerial)
      ensures nodes == if fd in old(nodes) then old(nodes)[fd := old(nodes)[fd].(critical := critical)] else old(nodes)
    {
      var i := Position(fd);
      if i < |buckets[fd % |buckets|]| {
        var n := nodes[fd].(critical := critical);
        PutCritical(nodes, fd, n);
        if nodes[fd].critical && !critical {
          criticalFd := criticalFd - 1;
        } else if !nodes[fd].critical && critical {
          criticalFd := criticalFd + 1;
        }
        PutAlike(nodes, fd, n);
        ChangeListed(nodes, buckets, fd, n);
        nodes := nodes[fd := n];
      }
    }

    /** evt_fd_set_pausable. */
    method FdSetPausable(fd: int, pausable: bool)
      requires Valid() && fd >= 0
      modifies this
      ensures Valid() && buckets == old(buckets) && nextSerial == old(nextSerial)
      ensures nodes == if fd in old(nodes) then old(nodes)[fd := old(nodes)[fd].(pausable := pausable)] else old(nodes)
    {
      var i := Position(fd);
      if i < |buckets[fd % |buckets|]| {
        Reblock(fd, nodes[fd].(pausable := pausable));
      }
    }

    /** evt_fd_set_paused. */
    method FdSetPaused(fd: int, paused: bool)
      requires Valid() && fd >= 0
      modifies this
      ensures Valid() && buckets == old(buckets) && nextSerial == old(nextSerial)
      ensures var was, flags := old(nodes), [paused, paused, paused];
              nodes == if fd in was then was[fd := was[fd].(breakpoint := flags)] else was
    {
      var i := Position(fd);
      if i < |buckets[fd % |buckets|]| {
        Reblock(fd, nodes[fd].(breakpoint := [paused, paused, paused]));
      }
    }

    /** Writes a node's pause flags, and what follows from them for the blocked sets. */
    method Reblock(fd: int, n: Node)
      requires Valid() && fd in nodes && WellFormed(n)
      requires n.cb == nodes[fd].cb && n.inCallback == nodes[fd].inCallback && n.critical == nodes[fd].critical
      requires n.serial == nodes[fd].serial
      modifies this`nodes, this`blockedSet
      ensures Valid() && nodes == old(nodes)[fd := n]
    {
      PutCritical(nodes, fd, n);
      ChangeListed(nodes, buckets, fd, n);
      blockedSet := Reblocked(nodes, fd, n, eventSet, blockedSet, eventCnt, maxFds, maxFd);
      nodes := nodes[fd := n];
    }

    /** One interface call out of a callback. */
    method Do(op: Op)
      requires Valid() && Proper(op)
      modifies this
      ensures Valid() && Follows(old(nodes), old(buckets), nodes, buckets, op.fd)
      ensures Lasting(old(nodes), nodes, old(nextSerial)) && old(nextSerial) <= nextSerial
      ensures Store(nodes, nextSerial) == Effect(Store(old(nodes), old(nextSerial)), op)
    {
      match op
      case Add(fd, e, cb) =>
        AddLasting(nodes, fd, e, cb, nextSerial);
        RemoveLasting(nodes, fd, e, nextSerial);
        FdAdd(fd, e, cb);
      case Remove(fd, e) =>
        RemoveLasting(nodes, fd, e, nextSerial);
        FdRemove(fd, e);
      case Force(fd, e) =>
        RemoveLasting(nodes, fd, e, nextSerial);
        FdForceRemove(fd, e);
      case SetCritical(fd, critical) => FdSetCritical(fd, critical);
      case SetPausable(fd, pausable) => FdSetPausable(fd, pausable);
      case SetPaused(fd, paused) => FdSetPaused(fd, paused);
    }

    /** The interface calls of the callback of event `e` on `x`, which the loop reached by `link`. */
    method DoAll(ops: seq<Op>, x: int, e: nat, link: Link)
      requires Valid() && (forall i :: 0 <= i < |ops| ==> Proper(ops[i]))
      requires Calling(nodes, x, e) && Tracks(nodes, buckets, link, x, nextSerial)
      modifies this
      ensures Valid() && Calling(nodes, x, e) && Tracks(nodes, buckets, link, x, nextSerial)
      ensures Store(nodes, nextSerial) == Effects(Store(old(nodes), old(nextSerial)), ops)
    {
      for i := 0 to |ops|
        invariant Valid() && Calling(nodes, x, e) && Tracks(nodes, buckets, link, x, nextSerial)
        invariant Store(nodes, nextSerial) == Effects(Store(old(nodes), old(nextSerial)), ops[..i])
      {
        assert ops[..i + 1][..i] == ops[..i];
        ghost var ns, bs, sn := nodes, buckets, nextSerial;
        Do(ops[i]);
        TracksOn(ns, bs, sn, nodes, buckets, nextSerial, ops[i].fd, link, x, e);
      }
      assert ops[..|ops|] == ops;
    }

    /** Calls the callback: the part of evt_process_fd_event between the two looks at the pointer. */
    method CallBack(fd: int, e: nat, ops: seq<Op>, link: Link)
      requires Valid() && fd in nodes && e < EVENT_MAX && Has(nodes[fd], e)
      requires (forall i :: 0 <= i < |ops| ==> Proper(ops[i]))
      requires Tracks(nodes, buckets, link, fd, nextSerial)
      modifies this
      ensures Valid() && Calling(nodes, fd, e) && Tracks(nodes, buckets, link, fd, nextSerial)
      ensures Store(nodes, nextSerial) == Called(old(nodes), old(nextSerial), fd, e, ops)
    {
      ghost var ns := nodes;
      Mark(fd, e, 1);
      assert Follows(ns, buckets, nodes, buckets, fd);
      DoAll(ops, fd, e, link);
    }

    /** What evt_process_fd_event does after the callback, to the node it finds through its pointer. */
    method EndCall(fd: int, e: nat, keep: bool, inSlot: bool) returns (deleted: bool)
      requires Valid() && e < EVENT_MAX && Calling(nodes, fd, e)
      modifies this
      ensures deleted <==> fd !in nodes
      ensures nodes == EndSpec(old(nodes), fd, e, keep)
      ensures if inSlot then Valid() <==> !deleted else Valid()
    {
      var state := nodes[fd].inCallback[e];
      Mark(fd, e, 0);
      deleted := false;
      if state == 3 || (!keep && state == 1) {
        var i := Position(fd);
        deleted := RemoveInternal(fd, e, if inSlot then None else Some(i));
      }
    }

    /** evt_process_fd_event on the node of `fd`, found in its bucket.  The loop holds on to the pointer to
        the node during the callback, and follows it again afterwards. */
    method Dispatch(fd: int, e: nat, ops: seq<Op>, keep: bool) returns (fault: bool, link: Link)
      requires Valid() && fd in nodes && e < EVENT_MAX && !Running(nodes[fd], e)
      requires (forall i :: 0 <= i < |ops| ==> Proper(ops[i]))
      modifies this
      ensures Into(old(nodes), old(buckets), fd, link)
      ensures var called := Called(old(nodes), old(nextSerial), fd, e, ops).nodes;
              && (fault <==> Dangling(called, link))
              && (!fault ==> Valid() && nodes == EndSpec(called, fd, e, keep))
    {
      var i := Position(fd);
      link := Pointer(nodes, buckets[fd % |buckets|], fd, i, nextSerial);
      fault := false;
      if nodes[fd].cb[e] != 0 {
        CallBack(fd, e, ops, link);
        fault := link.Behind? && !(link.fd in nodes && nodes[link.fd].serial == link.serial);
        if !fault {
          DerefTracks(nodes, buckets, link, fd, nextSerial);
          var at := Deref(buckets, link, fd % |buckets|);
          var _ := EndCall(at, e, keep, false);
        }
      } else {
        Mark(fd, e, 0);
      }
    }

    /** The single step of the debugger: the node was noted in the slot, by its address. */
    method StepSlot(fd: int, serial: int, e: nat, ops: seq<Op>, keep: bool) returns (fault: bool, deleted: bool)
      requires Valid() && e < EVENT_MAX && (forall i :: 0 <= i < |ops| ==> Proper(ops[i]))
      requires Alive(nodes, fd, serial) ==> !Running(nodes[fd], e)
      modifies this
      ensures fault <==> !Alive(old(nodes), fd, serial)
      ensures !fault ==> nodes == EndSpec(Called(old(nodes), old(nextSerial), fd, e, ops).nodes, fd, e, keep)
      ensures !fault ==> (deleted <==> fd !in nodes) && (Valid() <==> !deleted)
    {
      fault, deleted := !(fd in nodes && nodes[fd].serial == serial), false;
      if !fault {
        if nodes[fd].cb[e] != 0 {
          var i := Position(fd);
          var link := Pointer(nodes, buckets[fd % |buckets|], fd, i, nextSerial);
          CallBack(fd, e, ops, link);
          deleted := EndCall(fd, e, keep, true);
        } else {
          Mark(fd, e, 0);
        }
      }
    }
  }

  /** One callback added, its node noted in the slot, and a step after which it is not kept: the node is
      freed, and the table is valid no more. */
  method StepLeavesFreedNode(fd: int, e: nat, cb: int) returns (t: Table)
    requires fd >= 0 && e < EVENT_MAX && cb != 0
    ensures fd !in t.nodes && !t.Valid()
  {
    t := new Table(1);
    var serial := t.nextSerial;
    t.FdAdd(fd, e, cb);
    var _, _ := t.StepSlot(fd, serial, e, [], false);
  }

  lemma WithoutSane(nodes: Nodes, serial: int, fd: int, e: int)
    requires Sane(nodes, serial) && fd in nodes && 0 <= e < EVENT_MAX && !Running(nodes[fd], e)
    ensures Sane(Without(nodes, fd, e), serial)
  {
    var n := Cleared(nodes[fd], e);
    if !Unused(n) {
      assert n.inCallback == nodes[fd].inCallback && WellFormed(n);
    }
  }

  ghost predicate IsAt(l: seq<int>, fd: int, i: nat) {
    i < |l| && l[i] == fd && forall j :: 0 <= j < i ==> l[j] != fd
  }

  /** A change that no index can see. */
  lemma SameIndexes(nodes: Nodes, fd: int, n: Node)
    requires fd in nodes && n.cb == nodes[fd].cb && n.breakpoint == nodes[fd].breakpoint
    requires n.pausable == nodes[fd].pausable && n.critical == nodes[fd].critical
    ensures forall e :: Watched(nodes[fd := n], e) == Watched(nodes, e)
    ensures forall e :: Blocked(nodes[fd := n], e) == Blocked(nodes, e)
    ensures Critical(nodes[fd := n]) == Critical(nodes)
  {
    forall e
      ensures Watched(nodes[fd := n], e) == Watched(nodes, e) && Blocked(nodes[fd := n], e) == Blocked(nodes, e)
    {
      PutWatched(nodes, fd, n, e);
      assert Has(n, e) <==> Has(nodes[fd], e);
    }
  }

  /** The indexes without a descriptor that was watched. */
  method Dropped(ghost nodes: Nodes, fd: int, e: nat, watched: seq<set<int>>, blocked: seq<set<int>>, cnt: seq<int>,
                 top: seq<int>, maxFd: int)
    returns (watched': seq<set<int>>, blocked': seq<set<int>>, cnt': seq<int>, top': seq<int>, maxFd': int)
    requires Indexes(nodes, watched, blocked, cnt, top, maxFd) && e < EVENT_MAX && fd in nodes && WellFormed(nodes[fd])
    requires Has(nodes[fd], e)
    requires forall f :: f in nodes ==> f >= 0
    ensures Indexes(Without(nodes, fd, e), watched', blocked', cnt', top', maxFd')
  {
    assert Index(nodes, e, watched[e], blocked[e], cnt[e], top[e]) && fd in watched[e];
    assert watched[e] - {fd} + {fd} == watched[e];
    cnt' := cnt[e := cnt[e] - 1];
    watched' := watched[e := watched[e] - {fd}];
    blocked' := blocked[e := blocked[e] - {fd}];
    var t := NextTop(watched'[e], fd, cnt'[e], top[e]);
    top' := top[e := t];
    maxFd' := if fd == top[e] && cnt'[e] > 0 then Max3(top') else maxFd;
    IndexDropped(nodes, fd, e, watched[e], blocked[e], cnt[e], top[e], t);
    OthersKept(nodes, fd, e);
    IndexesPatched(nodes, Without(nodes, fd, e), e, watched, blocked, cnt, top, maxFd,
                   watched', blocked', cnt', top', maxFd');
  }

  /** The scan for the next highest descriptor, when the highest is taken out. */
  method NextTop(watched: set<int>, fd: int, cnt: int, was: int) returns (top: int)
    requires Top(watched + {fd}, was) && fd !in watched && cnt == |watched| && forall f :: f in watched + {fd} ==>
      f >= 0
    ensures Top(watched, top) && top <= was
  {
    top := was;
    if fd == was {
      top := 0;
      if cnt > 0 {
        for i := 1 to if fd < 1 then 1 else fd
          invariant (top == 0 || top in watched) && 0 <= top < i
          invariant forall f :: f in watched && f < i ==> f <= top
        {
          if i in watched {
            top := i;
          }
        }
      } else {
        assert watched == {};
      }
    }
  }

  lemma IndexDropped(nodes: Nodes, fd: int, e: int, watched: set<int>, blocked: set<int>, cnt: int, top: int, top': int)
    requires fd in nodes && WellFormed(nodes[fd]) && 0 <= e < EVENT_MAX && Has(nodes[fd], e)
    requires Index(nodes, e, watched, blocked, cnt, top) && Top(watched - {fd}, top')
    ensures Index(Without(nodes, fd, e), e, watched - {fd}, blocked - {fd}, cnt - 1, top')
  {
    WithoutWatched(nodes, fd, e, e);
    assert fd in Watched(nodes, e);
  }

  lemma OthersKept(nodes: Nodes, fd: int, e: int)
    requires fd in nodes && WellFormed(nodes[fd]) && 0 <= e < EVENT_MAX
    ensures forall x :: 0 <= x < EVENT_MAX && x != e ==>
      Watched(Without(nodes, fd, e), x) == Watched(nodes, x) && Blocked(Without(nodes, fd, e), x) == Blocked(nodes, x)
  {
    var after := Without(nodes, fd, e);
    forall x | 0 <= x < EVENT_MAX && x != e
      ensures Watched(after, x) == Watched(nodes, x) && Blocked(after, x) == Blocked(nodes, x)
    {
      WithoutWatched(nodes, fd, e, x);
    }
  }

  lemma AddSane(nodes: Nodes, serial: int, fd: int, e: int, cb: int)
    requires Sane(nodes, serial) && 0 <= e < EVENT_MAX && cb != 0
    ensures Sane(AddSpec(nodes, fd, e, cb, serial), serial + 1)
    ensures fd in nodes ==> Sane(AddSpec(nodes, fd, e, cb, serial), serial)
  {
    var n := if fd in nodes then nodes[fd] else NewNode(serial);
    assert WellFormed(Registered(n, e, cb));
  }

  lemma AddCritical(nodes: Nodes, fd: int, e: int, cb: int, serial: int)
    requires Sane(nodes, serial) && 0 <= e < EVENT_MAX
    ensures |Critical(AddSpec(nodes, fd, e, cb, serial))| == |Critical(nodes)| + if fd in nodes then 0 else 1
  {
    PutCritical(nodes, fd, AddSpec(nodes, fd, e, cb, serial)[fd]);
  }

  lemma PutAlike(nodes: Nodes, fd: int, n: Node)
    requires fd in nodes && n.cb == nodes[fd].cb && n.breakpoint == nodes[fd].breakpoint
    requires n.pausable == nodes[fd].pausable
    ensures forall e :: Watched(nodes[fd := n], e) == Watched(nodes, e)
    ensures forall e :: Blocked(nodes[fd := n], e) == Blocked(nodes, e)
  {
    forall e
      ensures Watched(nodes[fd := n], e) == Watched(nodes, e) && Blocked(nodes[fd := n], e) == Blocked(nodes, e)
    {
      PutWatched(nodes, fd, n, e);
      assert Has(n, e) <==> Has(nodes[fd], e);
    }
  }

  /** The loops of evt_fd_set_pausable and evt_fd_set_paused over the events. */
  method Reblocked(nodes: Nodes, fd: int, n: Node, ghost watched: seq<set<int>>, blocked: seq<set<int>>,
                   ghost cnt: seq<int>, ghost top: seq<int>, ghost maxFd: int)
    returns (blocked': seq<set<int>>)
    requires Indexes(nodes, watched, blocked, cnt, top, maxFd) && fd in nodes && n.cb == nodes[fd].cb
    ensures Indexes(nodes[fd := n], watched, blocked', cnt, top, maxFd)
  {
    blocked' := blocked;
    for e := 0 to EVENT_MAX
      invariant |blocked'| == EVENT_MAX
      invariant forall x :: e <= x < EVENT_MAX ==> blocked'[x] == Blocked(nodes, x)
      invariant forall x :: 0 <= x < e ==> blocked'[x] == Blocked(nodes[fd := n], x)
    {
      PutWatched(nodes, fd, n, e);
      blocked' := blocked'[e := if Stays(n, e) then blocked'[e] + {fd} else blocked'[e] - {fd}];
    }
    forall x | 0 <= x < EVENT_MAX ensures Index(nodes[fd := n], x, watched[x], blocked'[x], cnt[x], top[x]) {
      assert Index(nodes, x, watched[x], blocked[x], cnt[x], top[x]);
      PutWatched(nodes, fd, n, x);
      assert Has(n, x) <==> Has(nodes[fd], x);
      assert Watched(nodes[fd := n], x) == Watched(nodes, x);
    }
  }

  lemma IndexAdded(nodes: Nodes, fd: int, e: int, n: Node, watched: set<int>, blocked: set<int>, cnt: int, top: int)
    requires Index(nodes, e, watched, blocked, cnt, top) && Has(n, e)
    requires if fd in nodes && Has(nodes[fd], e) then Stays(n, e) <==> Stays(nodes[fd], e) else true
    ensures Index(nodes[fd := n], e, watched + {fd}, if Stays(n, e) then blocked + {fd} else blocked,
                  if fd in watched then cnt else cnt + 1, if fd > top then fd else top)
  {
    PutWatched(nodes, fd, n, e);
  }

  /** The indexes with a callback registered; nothing while the callback runs, which is watched already. */
  method Extended(ghost nodes: Nodes, fd: int, e: nat, n: Node, cb: int, watched: seq<set<int>>, blocked: seq<set<int>>,
                  cnt: seq<int>, top: seq<int>, maxFd: int)
    returns (watched': seq<set<int>>, blocked': seq<set<int>>, cnt': seq<int>, top': seq<int>, maxFd': int)
    requires Indexes(nodes, watched, blocked, cnt, top, maxFd) && e < EVENT_MAX && fd >= 0 && cb != 0
    requires |n.cb| == |n.inCallback| == |n.breakpoint| == EVENT_MAX && (n.inCallback[e] != 0 ==> n.cb[e] != 0)
    requires if fd in nodes then nodes[fd] == n else forall x :: 0 <= x < EVENT_MAX ==> n.cb[x] == 0
    ensures Indexes(nodes[fd := Registered(n, e, cb)], watched', blocked', cnt', top', maxFd')
  {
    ghost var n' := Registered(n, e, cb);
    ghost var nodes' := nodes[fd := n'];
    assert Index(nodes, e, watched[e], blocked[e], cnt[e], top[e]);
    assert fd in watched[e] <==> n.cb[e] != 0;
    OthersSame(nodes, fd, e, n, cb);
    cnt' := if n.cb[e] == 0 then cnt[e := cnt[e] + 1] else cnt;
    watched', blocked', top', maxFd' := watched, blocked, top, maxFd;
    IndexAdded(nodes, fd, e, n', watched[e], blocked[e], cnt[e], top[e]);
    if n.inCallback[e] == 0 {
      watched' := watched[e := watched[e] + {fd}];
      if !n.pausable || !n.breakpoint[e] {
        blocked' := blocked[e := blocked[e] + {fd}];
      }
      if fd > top[e] {
        top' := top[e := fd];
      }
      maxFd' := Max3(top');
    } else {
      assert watched[e] + {fd} == watched[e];
    }
    IndexesPatched(nodes, nodes', e, watched, blocked, cnt, top, maxFd, watched', blocked', cnt', top', maxFd');
  }

  lemma OthersSame(nodes: Nodes, fd: int, e: int, n: Node, cb: int)
    requires |n.cb| == |n.inCallback| == |n.breakpoint| == EVENT_MAX && 0 <= e < EVENT_MAX
    requires if fd in nodes then nodes[fd] == n else forall x :: 0 <= x < EVENT_MAX ==> n.cb[x] == 0
    ensures forall x :: 0 <= x < EVENT_MAX && x != e ==>
              Watched(nodes[fd := Registered(n, e, cb)], x) == Watched(nodes, x)
                && Blocked(nodes[fd := Registered(n, e, cb)], x) == Blocked(nodes, x)
  {
    var n' := Registered(n, e, cb);
    forall x | 0 <= x < EVENT_MAX && x != e
      ensures Watched(nodes[fd := n'], x) == Watched(nodes, x) && Blocked(nodes[fd := n'], x) == Blocked(nodes, x)
    {
      PutWatched(nodes, fd, n', x);
      assert n'.cb[x] == n.cb[x] && (Has(n', x) <==> Has(n, x)) && (Stays(n', x) <==> Stays(n, x));
    }
  }

  // ---------------------------------------------------------------- callbacks that change the table

  datatype Op =
    | Add(fd: int, e: int, cb: int)
    | Remove(fd: int, e: int)
    | Force(fd: int, e: int)
    | SetCritical(fd: int, critical: bool)
    | SetPausable(fd: int, pausable: bool)
    | SetPaused(fd: int, paused: bool)

  predicate Proper(op: Op) {
    op.fd >= 0 && (op.Add? || op.Remove? || op.Force? ==> 0 <= op.e < EVENT_MAX)
  }

  /** The nodes, and the number of the next one to be allocated. */
  datatype Store = Store(nodes: Nodes, serial: int)

  function Effect(s: Store, op: Op): Store {
    match op
    case Add(fd, e, cb) =>
      if cb == 0 then s.(nodes := RemoveSpec(s.nodes, fd, e))
      else Store(AddSpec(s.nodes, fd, e, cb, s.serial), if fd in s.nodes then s.serial else s.serial + 1)
    case Remove(fd, e) => s.(nodes := RemoveSpec(s.nodes, fd, e))
    case Force(fd, e) => s.(nodes := ForceSpec(s.nodes, fd, e))
    case SetCritical(fd, critical) =>
      if fd in s.nodes then s.(nodes := s.nodes[fd := s.nodes[fd].(critical := critical)]) else s
    case SetPausable(fd, pausable) =>
      if fd in s.nodes then s.(nodes := s.nodes[fd := s.nodes[fd].(pausable := pausable)]) else s
    case SetPaused(fd, paused) =>
      if fd in s.nodes then s.(nodes := s.nodes[fd := s.nodes[fd].(breakpoint := [paused, paused, paused])]) else s
  }

  function Effects(s: Store, ops: seq<Op>): Store
    decreases |ops|
  {
    if ops == [] then s else Effect(Effects(s, ops[..|ops| - 1]), ops[|ops| - 1])
  }

  /** The callback of event `e` on `fd`, if there is one, has run. */
  function Called(nodes: Nodes, serial: int, fd: int, e: int, ops: seq<Op>): Store {
    if fd in nodes && Has(nodes[fd], e) && e < |nodes[fd].inCallback| then
      Effects(Store(nodes[fd := Marked(nodes[fd], e, 1)], serial), ops)
    else Store(nodes, serial)
  }

  /** The node after its callback: removed if it was marked so, or was not kept and not set again. */
  function EndSpec(nodes: Nodes, fd: int, e: int, keep: bool): Nodes {
    if fd in nodes && 0 <= e < |nodes[fd].cb| && e < |nodes[fd].inCallback| then
      var n := nodes[fd];
      var nodes' := nodes[fd := Marked(n, e, 0)];
      if n.inCallback[e] == 3 || (!keep && n.inCallback[e] == 1) then Without(nodes', fd, e) else nodes'
    else nodes
  }

  /** The pointer to a node: the bucket's head, or the next field of the node in front of it. */
  datatype Link = Head | Behind(fd: int, serial: int)

  ghost predicate Alive(nodes: Nodes, fd: int, serial: int) {
    fd in nodes && nodes[fd].serial == serial
  }

  /** The pointer is into memory that was freed. */
  ghost predicate Dangling(nodes: Nodes, link: Link) {
    link.Behind? && !Alive(nodes, link.fd, link.serial)
  }

  /** `x` comes right after `p`. */
  predicate NextIs(l: seq<int>, p: int, x: int) {
    |l| >= 2 && ((l[0] == p && l[1] == x) || NextIs(l[1..], p, x))
  }

  /** What comes after `p`. */
  function After(l: seq<int>, p: int): int {
    if |l| < 2 then -1 else if l[0] == p then l[1] else After(l[1..], p)
  }

  function Deref(buckets: seq<seq<int>>, link: Link, b: nat): int
    requires b < |buckets|
  {
    match link
    case Head => if buckets[b] == [] then -1 else buckets[b][0]
    case Behind(p, _) => After(buckets[b], p)
  }

  /** The pointer by which a walk along the list reaches `fd`. */
  ghost predicate Reaches(nodes: Nodes, l: seq<int>, fd: int, link: Link) {
    match link
    case Head => l != [] && l[0] == fd
    case Behind(p, s) => Alive(nodes, p, s) && NextIs(l, p, fd)
  }

  ghost predicate Into(nodes: Nodes, buckets: seq<seq<int>>, fd: int, link: Link) {
    |buckets| > 0 && Reaches(nodes, buckets[fd % |buckets|], fd, link)
  }

  lemma {:induction false} NextAt(l: seq<int>, i: nat)
    requires 0 < i < |l|
    ensures NextIs(l, l[i - 1], l[i])
    decreases i
  {
    if i > 1 {
      NextAt(l[1..], i - 1);
    }
  }

  lemma {:induction false} AfterIs(l: seq<int>, p: int, x: int)
    requires NextIs(l, p, x) && Distinct(l)
    ensures After(l, p) == x
    decreases |l|
  {
    if l[0] == p {
      if l[1] != x {
        NextIsMember(l[1..], p, x);
      }
    } else {
      AfterIs(l[1..], p, x);
    }
  }

  lemma {:induction false} NextIsMember(l: seq<int>, p: int, x: int)
    requires NextIs(l, p, x)
    ensures p in l && x in l
    decreases |l|
  {
    if !(l[0] == p && l[1] == x) {
      NextIsMember(l[1..], p, x);
    }
  }

  method Pointer(nodes: Nodes, l: seq<int>, fd: int, i: nat, ghost serial: int) returns (link: Link)
    requires IsAt(l, fd, i) && (forall j :: 0 <= j < |l| ==> l[j] in nodes) && Sane(nodes, serial)
    ensures Reaches(nodes, l, fd, link) && (link.Behind? ==> link.serial < serial && link.fd != fd)
  {
    if i == 0 {
      return Head;
    }
    NextAt(l, i);
    link := Behind(l[i - 1], nodes[l[i - 1]].serial);
  }

  lemma DerefTracks(nodes: Nodes, buckets: seq<seq<int>>, link: Link, x: int, serial: int)
    requires Tracks(nodes, buckets, link, x, serial) && !Dangling(nodes, link) && Distinct(buckets[x % |buckets|])
    ensures Deref(buckets, link, x % |buckets|) == x
  {
    if link.Behind? {
      AfterIs(buckets[x % |buckets|], link.fd, x);
    }
  }

  /** As long as it does not dangle, the pointer leads to `x`. */
  ghost predicate Tracks(nodes: Nodes, buckets: seq<seq<int>>, link: Link, x: int, serial: int) {
    && |buckets| > 0 && x in nodes
    && var l := buckets[x % |buckets|];
       match link
       case Head => l != [] && l[0] == x
       case Behind(p, s) => s < serial && p != x && (Alive(nodes, p, s) ==> NextIs(l, p, x))
  }

  /** The callback of event `e` is running. */
  ghost predicate Calling(nodes: Nodes, x: int, e: nat) {
    x in nodes && Running(nodes[x], e)
  }

  /** Nodes keep their identity, new ones are numbered from `serial` on, and none is freed in a callback. */
  ghost predicate Lasting(nodes: Nodes, nodes': Nodes, serial: int) {
    && (forall g :: g in nodes' ==> nodes'[g].serial >= serial || (g in nodes && nodes'[g].serial == nodes[g].serial))
    && (forall g, e :: g in nodes && Running(nodes[g], e) ==>
          g in nodes' && Running(nodes'[g], e) && nodes'[g].serial == nodes[g].serial)
  }

  lemma RemoveLasting(nodes: Nodes, fd: int, e: int, serial: int)
    requires Sane(nodes, serial) && 0 <= e < EVENT_MAX
    ensures Lasting(nodes, RemoveSpec(nodes, fd, e), serial) && Lasting(nodes, ForceSpec(nodes, fd, e), serial)
  {
    if fd in nodes && Has(nodes[fd], e) && !Running(nodes[fd], e) {
      var n := Cleared(nodes[fd], e);
      forall x | Running(nodes[fd], x) ensures !Unused(n) {
        assert n.cb[x] != 0;
      }
    }
  }

  lemma AddLasting(nodes: Nodes, fd: int, e: int, cb: int, serial: int)
    requires Sane(nodes, serial) && 0 <= e < EVENT_MAX
    ensures Lasting(nodes, AddSpec(nodes, fd, e, cb, serial), serial)
  {}

  lemma {:induction false} NextMinus(l: seq<int>, p: int, x: int, y: int)
    requires NextIs(l, p, x) && y != p && y != x
    ensures NextIs(Minus(l, y), p, x)
    decreases |l|
  {
    if l[0] == p && l[1] == x {
      assert Minus(l[1..], y) == [x] + Minus(l[1..][1..], y);
    } else if l[0] != y {
      NextMinus(l[1..], p, x, y);
      assert Minus(l, y)[1..] == Minus(l[1..], y);
    }
  }

  lemma {:induction false} NextAppend(l: seq<int>, p: int, x: int, y: int)
    requires NextIs(l, p, x)
    ensures NextIs(l + [y], p, x)
    decreases |l|
  {
    if !(l[0] == p && l[1] == x) {
      NextAppend(l[1..], p, x, y);
      assert (l + [y])[1..] == l[1..] + [y];
    }
  }

  /** A change of the table by one operation, in which `x` stays. */
  lemma TracksOn(nodes: Nodes, buckets: seq<seq<int>>, serial: int, nodes': Nodes, buckets': seq<seq<int>>,
                 serial': int, f: int, link: Link, x: int, e: nat)
    requires Tracks(nodes, buckets, link, x, serial) && Calling(nodes, x, e)
    requires Follows(nodes, buckets, nodes', buckets', f)
    requires Lasting(nodes, nodes', serial) && serial <= serial' && x >= 0
    ensures Tracks(nodes', buckets', link, x, serial') && Calling(nodes', x, e) && nodes'[x].serial == nodes[x].serial
  {
    var l := buckets[x % |buckets|];
    if link.Behind? && Alive(nodes', link.fd, link.serial) {
      assert Alive(nodes, link.fd, link.serial);
      if f in nodes && f !in nodes' {
        NextMinus(l, link.fd, x, f);
      } else {
        NextAppend(l, link.fd, x, f);
      }
    }
  }

  /** Two descriptors in one bucket, and a callback of the second that removes the first: the loop's
      pointer dangles. */
  lemma NeighbourRemoved()
    ensures var n0, n1 := Registered(NewNode(0), 0, 7), Registered(NewNode(1), 0, 8);
            var nodes: Nodes, buckets := map[1 := n0, 2 := n1], [[1, 2]];
            && Listed(nodes, buckets) && Sane(nodes, 2)
            && Into(nodes, buckets, 2, Behind(1, 0))
            && Dangling(Called(nodes, 2, 2, 0, [Remove(1, 0)]).nodes, Behind(1, 0))
  {
    var n0, n1 := Registered(NewNode(0), 0, 7), Registered(NewNode(1), 0, 8);
    var nodes: Nodes := map[1 := n0, 2 := n1];
    var marked := nodes[2 := Marked(n1, 0, 1)];
    assert [Remove(1, 0)][..0] == [];
    assert Effects(Store(marked, 2), [Remove(1, 0)]) == Effect(Effects(Store(marked, 2), []), Remove(1, 0));
    assert Unused(Cleared(n0, 0));
  }
}
