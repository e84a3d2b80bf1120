/**
 What the operations of module Requests leave in the list and among the timed events: where a new request
 stands and when it times out, and what becomes of the others when one is completed.
 */
module RequestEffects {
  import opened Common
  import S = Scheduler
  import H = PriorityQueue
  import EventEffects
  import opened Requests

  /** The request as it was asked for. */
  predicate AsAsked(r: Request, x: Sending, uid: int) {
    r.uid == uid && r.id == x.id && r.host == x.host && r.raw == x.raw && (r.timer.Some? <==> x.timeout.Some?)
  }

  /** CMD_add_response_cb: the new request stands in front of the others, so a response to it finds it
      first; its timer, if it has one, is a new event of the main queue, due after the timeout. */
  lemma SentMeans(w: World, x: Sending, late: set<int>)
    requires Books(w, late)
    ensures var u := Sent(w, x);
            && u.next == w.next + 1 && u.done == w.done && u.called == w.called
            && |u.resp| == |w.resp| + 1 && AsAsked(u.resp[0], x, w.next) && u.resp[1..] == w.resp
            && Match(u.resp, x.id, x.host) == 0
    ensures x.timeout.None? ==> Sent(w, x).sched == w.sched && Sent(w, x).owner == w.owner
    ensures x.timeout.Some? ==>
              var u, t := Sent(w, x), w.sched.next;
              && u.resp[0].timer == Some(t) && t !in w.sched.events && t in u.sched.events && t in H.Ids(u.sched.main)
              && u.sched.events[t].awake == w.sched.clock + x.timeout.value && u.owner == w.owner[t := w.next]
              && EventEffects.OthersSame(w.sched, u.sched, t) && EventEffects.SameRest(w.sched, u.sched)
  {
    hide S.AddEvent;
    hide S.Accounted;
    AccountedSched(w, late);
    if x.timeout.Some? {
      EventEffects.AddMeans(w.sched, x.timeout.value, x.timeout.value);
    }
  }

  /** `rs` are the requests of `xs`, the last one sent in front. */
  predicate Latest(rs: seq<Request>, xs: seq<Sending>, next: int) {
    |rs| == |xs| && forall i :: 0 <= i < |xs| ==> AsAsked(rs[|xs| - 1 - i], xs[i], next + i)
  }

  /** What a callback sends stands in front of what was there, the last in front. */
  lemma {:induction false} SentAllMeans(w: World, xs: seq<Sending>)
    ensures var u := SentAll(w, xs);
            |u.resp| == |xs| + |w.resp| && Latest(u.resp[..|xs|], xs, w.next) && u.resp[|xs|..] == w.resp
    decreases |xs|
  {
    if xs != [] {
      var v, u, n := Sent(w, xs[0]), SentAll(w, xs), |xs|;
      SentAllMeans(v, xs[1..]);
      assert v.resp[1..] == w.resp;
      assert u.resp[n..] == u.resp[n - 1..][1..];
      forall i | 0 <= i < n ensures AsAsked(u.resp[..n][n - 1 - i], xs[i], w.next + i) {
        if i == 0 {
          assert u.resp[n - 1] == u.resp[n - 1..][0] == v.resp[0];
        } else {
          assert u.resp[..n - 1][n - 1 - 1 - (i - 1)] == u.resp[..n][n - 1 - i];
          assert AsAsked(u.resp[..n - 1][n - 1 - 1 - (i - 1)], xs[1..][i - 1], v.next + (i - 1));
        }
      }
    }
  }

  /** The list after request `i` was completed: what its callback sent, if it was called, and then the
      others in the order they were in. */
  ghost predicate ListAfter(w: World, w': World, i: nat, call: bool, sends: seq<Sending>)
    requires i < |w.resp|
  {
    var n := if call then |sends| else 0;
    && |w'.resp| == n + |w.resp| - 1 && w'.resp[n..] == w.resp[..i] + w.resp[i + 1..]
    && (call ==> Latest(w'.resp[..n], sends, w.next))
  }

  lemma TakenList(w: World, i: nat, call: bool, sends: seq<Sending>)
    requires i < |w.resp|
    ensures ListAfter(w, Taken(w, i, call, sends), i, call, sends)
  {
    var uid := w.resp[i].uid;
    var u := w.(resp := Unlinked(w.resp, i), done := w.done + [uid]);
    SentAllMeans(u.(called := u.called + [uid]), sends);
  }

  /** A response, and a timeout, take one request out of the list and leave the others as they were. */
  lemma ResponseLeaves(w: World, id: int, host: int, decodes: bool, sends: seq<Sending>)
    requires !TimerRuns(w)
    ensures var i, w' := Match(w.resp, id, host), Next(w, Respond(id, host, decodes, sends));
            i < |w.resp| ==> ListAfter(w, w', i, w.resp[i].raw || decodes, sends)
  {
    var i := Match(w.resp, id, host);
    if i < |w.resp| {
      TakenList(w, i, w.resp[i].raw || decodes, sends);
    }
  }

  lemma ExpiryLeaves(w: World, sends: seq<Sending>)
    requires Books(w, {}) && Enabled(w, Expire(sends))
    ensures var w' := Next(w, Expire(sends));
            exists i :: 0 <= i < |w.resp| && w.resp[i].uid == w.owner[w.sched.running.value]
                        && ListAfter(w, w', i, true, sends)
  {
    hide Taken;
    hide S.Leave;
    TimerFound(w, w.sched.running.value);
    var i := Place(w.resp, w.owner[w.sched.running.value]);
    TakenList(w, i, true, sends);
    assert ListAfter(w, Next(w, Expire(sends)), i, true, sends);
  }

  /** A response that completes a request frees its timer and no other event; what the callback sends may
      add timers. */
  lemma TimerFreed(w: World, i: nat, call: bool, sends: seq<Sending>)
    requires Books(w, {}) && i < |w.resp| && !TimerRuns(w) && w.resp[i].timer.Some?
    ensures var t, w' := w.resp[i].timer.value, Completed(w, i, call, sends);
            t in w.sched.events && t !in w'.sched.events
            && EventEffects.OthersSame(Taken(w, i, call, sends).sched, w'.sched, t)
  {
    hide Taken;
    hide S.RemoveEvent;
    TakenBooks(w, i, call, sends);
    var u, t := Taken(w, i, call, sends), w.resp[i].timer.value;
    assert Holds(w.resp, t);
    LateTimer(u, w.resp[i].timer);
    EventEffects.RemoveMeans(u.sched, t);
  }
}
