/**
 The registry of pending requests of cmd.c: a list of requests that wait for a response, with an
 optional timer each.  A request is completed by the first matching response or by its timer, and its
 callback, if it is called, may send further requests.

 The timers are timed events of module Scheduler, among whatever other events the program has.
 */
module Requests {
  import opened Common
  import S = Scheduler
  import A = Accounts
  import V = VirtualClock
  import H = PriorityQueue
  import opened EventLoop

  /** CMDResponseCb: `uid` stands for the address, `host` for address and port, `timer` for to_evt; a
      `raw` callback takes the bytes of the response, any other the decoded response. */
  datatype Request = Request(uid: int, id: int, host: int, timer: Option<int>, raw: bool)

  /** A request to send, with its timeout if it has one. */
  datatype Sending = Sending(id: int, host: int, timeout: Option<int>, raw: bool)

  /** The list and the event handler, and the history: `done` are the requests that left the list, in
      order, `called` those of them whose callback was called, `owner` the request of each timer ever set. */
  datatype World = World(
    resp: seq<Request>, done: seq<int>, called: seq<int>, next: int, owner: map<int, int>, sched: S.State)

  /** A response has a header that decodes, and a body that may not; `sends` is what the callback sends. */
  datatype Step =
    | Send(x: Sending)
    | Respond(id: int, host: int, decodes: bool, sends: seq<Sending>)
    | Expire(sends: seq<Sending>)
    | Other(step: S.Step)

  function Init(clock: int, wall: int): World {
    World([], [], [], 0, map[], S.Init(clock, wall))
  }

  // ---------------------------------------------------------------- operations

  /** CMD_add_response_cb: in front of the list, with a timed event if there is a timeout. */
  function Sent(w: World, x: Sending): World {
    var t := w.sched.next;
    if x.timeout.Some? then
      w.(resp := [Request(w.next, x.id, x.host, Some(t), x.raw)] + w.resp, next := w.next + 1,
         owner := w.owner[t := w.next], sched := S.AddEvent(w.sched, x.timeout.value, x.timeout.value))
    else w.(resp := [Request(w.next, x.id, x.host, None, x.raw)] + w.resp, next := w.next + 1)
  }

  function SentAll(w: World, xs: seq<Sending>): World
    decreases |xs|
  {
    if xs == [] then w else SentAll(Sent(w, xs[0]), xs[1..])
  }

  predicate Matches(r: Request, id: int, host: int) {
    r.id == id && r.host == host
  }

  /** The place of the first match, or the length of the list. */
  function Match(l: seq<Request>, id: int, host: int): (i: nat)
    ensures i <= |l|
  {
    if l == [] || Matches(l[0], id, host) then 0 else 1 + Match(l[1..], id, host)
  }

  function Place(l: seq<Request>, uid: int): (i: nat)
    ensures i <= |l|
  {
    if l == [] || l[0].uid == uid then 0 else 1 + Place(l[1..], uid)
  }

  function Unlinked(l: seq<Request>, i: nat): seq<Request>
    requires i < |l|
  {
    l[..i] + l[i + 1..]
  }

  /** The callback of `uid` was called, and sent its requests. */
  function CalledBack(w: World, uid: int, sends: seq<Sending>): World {
    SentAll(w.(called := w.called + [uid]), sends)
  }

  /** Unlinked, and called back or not. */
  function Taken(w: World, i: nat, call: bool, sends: seq<Sending>): World
    requires i < |w.resp|
  {
    var uid := w.resp[i].uid;
    var u := w.(resp := Unlinked(w.resp, i), done := w.done + [uid]);
    if call then CalledBack(u, uid, sends) else u
  }

  /** EVT_sched_remove of the timer. */
  function TimerRemoved(w: World, timer: Option<int>): World {
    if timer.Some? && timer.value in w.sched.events then w.(sched := S.RemoveEvent(w.sched, timer.value)) else w
  }

  /** cmd_handle_xdr_response: only after the callback is the timer removed. */
  function Completed(w: World, i: nat, call: bool, sends: seq<Sending>): World
    requires i < |w.resp|
  {
    TimerRemoved(Taken(w, i, call, sends), w.resp[i].timer)
  }

  /** response_timeout_cb for request `uid`, which calls back even if the request is not in the list
      (ExpiryCompletes: it always is). */
  function TimedOut(w: World, uid: int, sends: seq<Sending>): World {
    var i := Place(w.resp, uid);
    if i < |w.resp| then Taken(w, i, true, sends) else CalledBack(w.(done := w.done + [uid]), uid, sends)
  }

  // ---------------------------------------------------------------- steps and runs

  /** The callback of a request's timer is running. */
  predicate TimerRuns(w: World) {
    w.sched.running.Some? && w.sched.running.value in w.owner
  }

  /** Nothing else runs in the callback of a timer, and nobody else has the timers' addresses. */
  predicate Enabled(w: World, step: Step) {
    match step
    case Send(_) => !TimerRuns(w)
    case Respond(_, _, _, _) => !TimerRuns(w)
    case Expire(_) => TimerRuns(w) && w.sched.running.value in w.sched.events
    case Other(st) =>
      && S.Enabled(w.sched, st) && !TimerRuns(w)
      && (st.Remove? || st.Update? || st.Credit? || st.ToMono? ==> st.id !in w.owner)
  }

  /** A stray response changes nothing; one whose body does not decode completes its request without
      calling it back, unless the callback is raw. */
  function Next(w: World, step: Step): World
    requires Enabled(w, step)
  {
    match step
    case Send(x) => Sent(w, x)
    case Respond(id, host, decodes, sends) =>
      var i := Match(w.resp, id, host);
      if i == |w.resp| then w else Completed(w, i, w.resp[i].raw || decodes, sends)
    case Expire(sends) =>
      var t := w.sched.running.value;
      var u := TimedOut(w, w.owner[t], sends);
      if t in u.sched.events then u.(sched := S.Leave(u.sched, t, false)) else u
    case Other(st) => w.(sched := S.Next(w.sched, st))
  }

  /** The timer a response would remove, in the state in which it is removed. */
  predicate TiedTimer(w: World, i: nat, call: bool, sends: seq<Sending>)
    requires i < |w.resp|
  {
    w.resp[i].timer.Some? && S.Tied(Taken(w, i, call, sends).sched, w.resp[i].timer.value)
  }

  /** No removal, of a timer or of another event, hits an event that is tied in the last slot. */
  predicate Clean(w: World, step: Step) {
    match step
    case Respond(id, host, decodes, sends) =>
      var i := Match(w.resp, id, host);
      i < |w.resp| ==> !TiedTimer(w, i, w.resp[i].raw || decodes, sends)
    case Other(st) => S.Clean(w.sched, st)
    case _ => true
  }

  ghost predicate Possible(w: World, steps: seq<Step>)
    decreases |steps|
  {
    steps == [] || (Enabled(w, steps[0]) && Possible(Next(w, steps[0]), steps[1..]))
  }

  ghost function Exec(w: World, steps: seq<Step>): World
    requires Possible(w, steps)
    decreases |steps|
  {
    if steps == [] then w else Exec(Next(w, steps[0]), steps[1..])
  }

  ghost predicate CleanRun(w: World, steps: seq<Step>)
    requires Possible(w, steps)
    decreases |steps|
  {
    steps == [] || (Clean(w, steps[0]) && CleanRun(Next(w, steps[0]), steps[1..]))
  }

  // ---------------------------------------------------------------- the books

  ghost predicate Waiting(l: seq<Request>, uid: int) {
    exists i :: 0 <= i < |l| && l[i].uid == uid
  }

  /** Some request of the list has this timer. */
  ghost predicate Holds(l: seq<Request>, t: int) {
    exists i :: 0 <= i < |l| && l[i].timer == Some(t)
  }

  ghost predicate DistinctRequests(l: seq<Request>) {
    forall i, j :: 0 <= i < j < |l| ==> l[i].uid != l[j].uid
  }

  ghost predicate DistinctUids(l: seq<int>) {
    forall i, j :: 0 <= i < j < |l| ==> l[i] != l[j]
  }

  /** Every request sent either waits, once, or was completed, once, and was called back at most once. */
  ghost predicate Listed(w: World) {
    && DistinctRequests(w.resp) && DistinctUids(w.done) && |w.resp| + |w.done| == w.next
    && (forall i :: 0 <= i < |w.resp| ==> 0 <= w.resp[i].uid < w.next && w.resp[i].uid !in w.done)
    && (forall i :: 0 <= i < |w.done| ==> 0 <= w.done[i] < w.next)
    && DistinctUids(w.called) && (forall i :: 0 <= i < |w.called| ==> w.called[i] in w.done)
  }

  /** A timer is live if and only if its request waits, apart from `late`, those of the request whose
      callback is running. */
  ghost predicate TimersOk(w: World, late: set<int>) {
    && (forall i :: 0 <= i < |w.resp| && w.resp[i].timer.Some? ==>
          w.resp[i].timer.value in w.owner && w.owner[w.resp[i].timer.value] == w.resp[i].uid)
    && (forall t :: t in w.owner ==> t < w.sched.next && 0 <= w.owner[t] < w.next)
    && (forall t :: t in w.owner ==> (t in w.sched.events <==> Holds(w.resp, t) || t in late))
    && (forall t :: t in late ==> t in w.owner && !Holds(w.resp, t))
  }

  ghost predicate Books(w: World, late: set<int>) {
    Listed(w) && TimersOk(w, late) && S.Accounted(w.sched)
  }

  // ---------------------------------------------------------------- main results

  /** A response keeps the books if and only if the timer it removes is not, at that moment, in the last
      slot of its queue, below the root, under an event of the same time. */
  lemma CompletionIff(w: World, i: nat, call: bool, sends: seq<Sending>)
    requires Books(w, {}) && i < |w.resp| && !TimerRuns(w)
    ensures Books(Completed(w, i, call, sends), {}) <==> !TiedTimer(w, i, call, sends)
  {
    var r, u := w.resp[i], Taken(w, i, call, sends);
    TakenBooks(w, i, call, sends);
    if r.timer.Some? {
      RemoveTimerIff(u, r.timer.value);
    }
  }

  /** Something a caller can see to: no other event of the main queue is due at the timer's time. */
  lemma UntiedTimer(w: World, i: nat, call: bool, sends: seq<Sending>)
    requires Books(w, {}) && i < |w.resp| && !TimerRuns(w)
    requires var u := Taken(w, i, call, sends).sched;
             w.resp[i].timer.Some? && w.resp[i].timer.value in u.events ==>
               forall x :: x in u.events && x != w.resp[i].timer.value
                           && u.events[x].queue == u.events[w.resp[i].timer.value].queue ==>
                 u.events[x].awake != u.events[w.resp[i].timer.value].awake
    ensures Books(Completed(w, i, call, sends), {})
  {
    CompletionIff(w, i, call, sends);
    TakenBooks(w, i, call, sends);
    if TiedTimer(w, i, call, sends) {
      var x := A.TiedShares(Taken(w, i, call, sends).sched, w.resp[i].timer.value);
    }
  }

  lemma {:induction false} RunBooked(w: World, steps: seq<Step>)
    requires Books(w, {}) && Possible(w, steps) && CleanRun(w, steps)
    ensures Books(Exec(w, steps), {})
    decreases |steps|
  {
    if steps != [] {
      StepBooked(w, steps[0]);
      RunBooked(Next(w, steps[0]), steps[1..]);
    }
  }

  /** Over any interleaving of sends, responses, stray responses, timeouts and whatever else the program
      does with its timed events, as long as no removal hits a tied event: no request is completed and no
      callback called twice, only completed requests were called back, the waiting requests are those
      sent and not completed, a completed request has no entry and its timer is neither live nor in a
      queue, and the timer of a waiting one is live. */
  lemma Completion(clock: int, wall: int, steps: seq<Step>, uid: int)
    requires Possible(Init(clock, wall), steps) && CleanRun(Init(clock, wall), steps)
    ensures var w := Exec(Init(clock, wall), steps);
            && |w.resp| == w.next - |w.done| && DistinctUids(w.done) && DistinctUids(w.called)
            && (uid in w.called ==> uid in w.done) && (uid in w.done ==> !Waiting(w.resp, uid))
            && (forall t :: t in w.owner && w.owner[t] == uid && uid in w.done ==>
                  t !in w.sched.events && t !in H.Ids(w.sched.main) && t !in H.Ids(w.sched.debug))
            && (forall i :: 0 <= i < |w.resp| && w.resp[i].timer.Some? ==> w.resp[i].timer.value in w.sched.events)
  {
    InitBooks(clock, wall);
    RunBooked(Init(clock, wall), steps);
    BooksMean(Exec(Init(clock, wall), steps), uid);
  }

  /** A timer that fires always finds its request, completes it, calls it back, and is gone. */
  lemma ExpiryCompletes(w: World, sends: seq<Sending>)
    requires Books(w, {}) && Enabled(w, Expire(sends))
    ensures var t := w.sched.running.value;
            var w', uid := Next(w, Expire(sends)), w.owner[t];
            && Waiting(w.resp, uid) && w'.done == w.done + [uid] && w'.called == w.called + [uid]
            && Books(w', {}) && t !in w'.sched.events
  {
    var t := w.sched.running.value;
    TimerFound(w, t);
    var i := Place(w.resp, w.owner[t]);
    TakenBooks(w, i, true, sends);
    TakenDone(w, i, true, sends);
    DropTimer(Taken(w, i, true, sends), t);
  }

  /** A response completes the latest request with its number and sender, and one that matches none
      completes none.  The callback of the completed request is called if and only if it is raw or the
      body decodes. */
  lemma ResponseCompletes(w: World, id: int, host: int, decodes: bool, sends: seq<Sending>)
    requires !TimerRuns(w)
    ensures var i, w' := Match(w.resp, id, host), Next(w, Respond(id, host, decodes, sends));
            && (forall j :: 0 <= j < i ==> !Matches(w.resp[j], id, host))
            && (i == |w.resp| ==> w' == w)
            && (i < |w.resp| ==>
                  && Matches(w.resp[i], id, host) && w'.done == w.done + [w.resp[i].uid]
                  && w'.called == if w.resp[i].raw || decodes then w.called + [w.resp[i].uid] else w.called)
  {
    MatchIsFirst(w.resp, id, host);
    var i := Match(w.resp, id, host);
    if i < |w.resp| {
      TakenDone(w, i, w.resp[i].raw || decodes, sends);
    }
  }

  /** A request is dropped by the step: completed, and not called back. */
  ghost predicate Drops(w: World, step: Step, uid: int) {
    && step.Respond? && !step.decodes
    && var i := Match(w.resp, step.id, step.host); i < |w.resp| && w.resp[i].uid == uid && !w.resp[i].raw
  }

  /** Some step of the run drops the request. */
  ghost predicate Dropped(w: World, steps: seq<Step>, uid: int)
    requires Possible(w, steps)
    decreases |steps|
  {
    steps != [] && (Drops(w, steps[0], uid) || Dropped(Next(w, steps[0]), steps[1..], uid))
  }

  /** Over any such interleaving, a request's callback was called if and only if the request was completed
      and not dropped: the response that completed it decoded, or its callback is raw, or it timed out. */
  lemma CalledUnlessDropped(clock: int, wall: int, steps: seq<Step>, uid: int)
    requires Possible(Init(clock, wall), steps) && CleanRun(Init(clock, wall), steps)
    ensures var w := Exec(Init(clock, wall), steps);
            uid in w.called <==> uid in w.done && !Dropped(Init(clock, wall), steps, uid)
  {
    InitBooks(clock, wall);
    CallsFrom(Init(clock, wall), steps, uid);
    RunBooked(Init(clock, wall), steps);
  }

  /** Two requests sent at one instant with the same timeout, and a response to the earlier one: its timer
      is freed and stays in the queue, and the timer of the later one, which still waits, is live and in
      no place where it could fire. */
  lemma TiedTimers(clock: int, wall: int, timeout: int, a: Sending, b: Sending)
    requires a.timeout == b.timeout == Some(timeout) && !(a.id == b.id && a.host == b.host)
    ensures var w := Sent(Sent(Init(clock, wall), a), b);
            && Books(w, {}) && Enabled(w, Respond(a.id, a.host, true, []))
            && var w' := Next(w, Respond(a.id, a.host, true, []));
               && w'.done == [0] && Waiting(w'.resp, 1) && !Books(w', {})
               && 0 !in w'.sched.events && 0 in H.Ids(w'.sched.main)
               && 1 in w'.sched.events && !S.At(S.ViewOf(w'.sched), 1)
  {
    var w := TwoSent(clock, wall, timeout, a, b);
    A.TiedRemoval(clock, wall, timeout, timeout);
    AnswerFirst(w, a, b);
  }

  /** One request and one response that does not decode: completed, and never called back. */
  lemma DroppedResponse(clock: int, wall: int, x: Sending)
    requires !x.raw && x.timeout.None?
    ensures var w := Sent(Init(clock, wall), x);
            var w' := Next(w, Respond(x.id, x.host, false, []));
            w'.done == [0] && w'.called == [] && w'.resp == []
  {
    var w := Sent(Init(clock, wall), x);
    assert w.resp == [Request(0, x.id, x.host, None, false)];
  }

  // ---------------------------------------------------------------- proofs: the list

  lemma HoldsFront(l: seq<Request>, r: Request, t: int)
    ensures Holds([r] + l, t) <==> r.timer == Some(t) || Holds(l, t)
  {
    if Holds(l, t) {
      var i :| 0 <= i < |l| && l[i].timer == Some(t);
      assert ([r] + l)[i + 1] == l[i];
    }
    if r.timer == Some(t) {
      assert ([r] + l)[0] == r;
    }
  }

  /** Two requests do not share a timer, so unlinking one frees exactly its own. */
  lemma HoldsUnlinked(w: World, i: nat, t: int)
    requires Listed(w) && TimersOk(w, {}) && i < |w.resp|
    ensures Holds(Unlinked(w.resp, i), t) <==> Holds(w.resp, t) && w.resp[i].timer != Some(t)
  {
    var l, l' := w.resp, Unlinked(w.resp, i);
    if Holds(l, t) && l[i].timer != Some(t) {
      var j :| 0 <= j < |l| && l[j].timer == Some(t);
      assert l'[if j < i then j else j - 1] == l[j];
    }
    if Holds(l', t) {
      var j :| 0 <= j < |l'| && l'[j].timer == Some(t);
      var k := if j < i then j else j + 1;
      assert l[k] == l'[j] && l[k].uid != l[i].uid;
    }
  }

  lemma InitBooks(clock: int, wall: int)
    ensures Books(Init(clock, wall), {})
  {
    A.InitAccounted(clock, wall);
  }

  lemma SentListed(w: World, x: Sending)
    requires Listed(w)
    ensures Listed(Sent(w, x))
  {
    var r := Sent(w, x).resp[0];
    assert Sent(w, x).resp == [r] + w.resp && r.uid == w.next;
  }

  lemma SentTimers(w: World, x: Sending, late: set<int>)
    requires Listed(w) && TimersOk(w, late)
    ensures TimersOk(Sent(w, x), late)
  {
    var w' := Sent(w, x);
    var r := w'.resp[0];
    assert w'.resp == [r] + w.resp;
    forall t ensures Holds(w'.resp, t) <==> r.timer == Some(t) || Holds(w.resp, t) {
      HoldsFront(w.resp, r, t);
    }
    if x.timeout.Some? {
      assert w'.sched.events.Keys == w.sched.events.Keys + {w.sched.next};
      forall i | 0 <= i < |w.resp| && w.resp[i].timer.Some? ensures w.resp[i].timer.value != w.sched.next {
        assert w.resp[i].timer.value in w.owner;
      }
    }
  }

  /** Sending adds one waiting request, with a live timer if asked for. */
  lemma SentBooks(w: World, x: Sending, late: set<int>)
    requires Books(w, late)
    ensures Books(Sent(w, x), late) && Sent(w, x).sched.running == w.sched.running
    ensures w.sched.running.Some? && w.sched.running.value in w.owner ==> w.sched.running.value in Sent(w, x).owner
  {
    SentListed(w, x);
    SentTimers(w, x, late);
    if x.timeout.Some? {
      A.AddAccounted(w.sched, x.timeout.value, x.timeout.value);
    }
  }

  lemma {:induction false} SentAllBooks(w: World, xs: seq<Sending>, late: set<int>)
    requires Books(w, late)
    ensures Books(SentAll(w, xs), late) && SentAll(w, xs).sched.running == w.sched.running
    decreases |xs|
  {
    if xs != [] {
      SentBooks(w, xs[0], late);
      SentAllBooks(Sent(w, xs[0]), xs[1..], late);
    }
  }

  ghost function LateOf(timer: Option<int>): set<int> {
    if timer.Some? then {timer.value} else {}
  }

  lemma UnlinkBooks(w: World, i: nat)
    requires Books(w, {}) && i < |w.resp|
    ensures Books(w.(resp := Unlinked(w.resp, i), done := w.done + [w.resp[i].uid]), LateOf(w.resp[i].timer))
    ensures w.resp[i].uid !in w.called
  {
    forall t ensures Holds(Unlinked(w.resp, i), t) <==> Holds(w.resp, t) && w.resp[i].timer != Some(t) {
      HoldsUnlinked(w, i, t);
    }
    assert w.resp[i].timer.Some? ==> Holds(w.resp, w.resp[i].timer.value);
  }

  lemma TakenBooks(w: World, i: nat, call: bool, sends: seq<Sending>)
    requires Books(w, {}) && i < |w.resp|
    ensures Books(Taken(w, i, call, sends), LateOf(w.resp[i].timer))
    ensures Taken(w, i, call, sends).sched.running == w.sched.running
  {
    UnlinkBooks(w, i);
    var uid := w.resp[i].uid;
    var u := w.(resp := Unlinked(w.resp, i), done := w.done + [uid]);
    SentAllBooks(u.(called := u.called + [uid]), sends, LateOf(w.resp[i].timer));
  }

  // ---------------------------------------------------------------- proofs: the timers

  /** The timer is the one that is left over. */
  lemma TimerGone(u: World, t: int, sched: S.State)
    requires TimersOk(u, {t}) && sched.events == u.sched.events - {t} && sched.next == u.sched.next
    ensures TimersOk(u.(sched := sched), {})
  {}

  lemma RemovedEvents(s: S.State, t: int)
    requires S.Accounted(s) && t in s.events && s.running != Some(t)
    ensures S.RemoveEvent(s, t).events == s.events - {t} && S.RemoveEvent(s, t).next == s.next
  {}

  lemma RemoveTimerIff(u: World, t: int)
    requires Books(u, {t}) && u.sched.running != Some(t)
    ensures Books(TimerRemoved(u, Some(t)), {}) <==> !S.Tied(u.sched, t)
  {
    var sched := S.RemoveEvent(u.sched, t);
    A.RemoveAccountedIff(u.sched, t);
    RemovedEvents(u.sched, t);
    TimerGone(u, t, sched);
    ListStays(u, sched);
  }

  lemma ListStays(u: World, sched: S.State)
    requires Listed(u)
    ensures Listed(u.(sched := sched))
  {}

  /** The loop frees the timer when its callback returns. */
  lemma DropTimer(u: World, t: int)
    requires Books(u, {t}) && u.sched.running == Some(t)
    ensures t in u.sched.events && Books(u.(sched := S.Leave(u.sched, t, false)), {})
    ensures t !in S.Leave(u.sched, t, false).events
  {
    A.ReturnAccounted(u.sched, false);
    TimerGone(u, t, S.Leave(u.sched, t, false));
  }

  lemma NextGrows(s: S.State, st: S.Step)
    requires S.Enabled(s, st)
    ensures S.Next(s, st).next >= s.next
  {
    if S.Interface(st) {
      V.InterfaceTurn(s, st);
    } else if S.Idle(st) {
      A.IdleSame(s, st);
    }
  }

  /** What other steps of the program do to the live events. */
  lemma InterfaceLive(s: S.State, st: S.Step, t: int)
    requires S.Enabled(s, st) && S.Interface(st) && (st.Remove? ==> st.id != t) && t < s.next
    ensures t in S.Next(s, st).events <==> t in s.events
  {}

  lemma ReturnLive(s: S.State, keep: bool, t: int)
    requires S.Enabled(s, S.Return(keep)) && s.running != Some(t)
    ensures t in S.Next(s, S.Return(keep)).events <==> t in s.events
  {}

  lemma LoopLive(s: S.State, st: S.Step, t: int)
    requires S.Enabled(s, st) && V.Calls(st) && (st.Return? ==> s.running != Some(t))
    ensures t in S.Next(s, st).events <==> t in s.events
  {
    hide S.Leave;
    hide H.Popped;
    if st.Return? {
      ReturnLive(s, st.keep, t);
    }
  }

  lemma OtherLive(s: S.State, st: S.Step, t: int)
    requires S.Enabled(s, st) && (st.Return? ==> s.running != Some(t)) && (st.Remove? ==> st.id != t) && t < s.next
    ensures t in S.Next(s, st).events <==> t in s.events
  {
    if S.Interface(st) {
      InterfaceLive(s, st, t);
    } else if S.Idle(st) {
      A.IdleSame(s, st);
    } else {
      LoopLive(s, st, t);
    }
  }

  lemma OtherTimers(w: World, sched: S.State)
    requires TimersOk(w, {}) && sched.next >= w.sched.next
    requires forall t :: t in w.owner ==> (t in sched.events <==> t in w.sched.events)
    ensures TimersOk(w.(sched := sched), {})
  {}

  lemma OtherBooks(w: World, st: S.Step)
    requires Books(w, {}) && Enabled(w, Other(st)) && S.Clean(w.sched, st)
    ensures Books(Next(w, Other(st)), {})
  {
    var sched := S.Next(w.sched, st);
    A.StepAccounted(w.sched, st);
    NextGrows(w.sched, st);
    forall t | t in w.owner ensures t in sched.events <==> t in w.sched.events {
      OtherLive(w.sched, st, t);
    }
    OtherTimers(w, sched);
    ListStays(w, sched);
  }

  lemma TwoSent(clock: int, wall: int, timeout: int, a: Sending, b: Sending) returns (w: World)
    requires a.timeout == b.timeout == Some(timeout)
    ensures w == Sent(Sent(Init(clock, wall), a), b) && Books(w, {}) && w.sched.running.None? && w.done == []
    ensures w.sched == S.AddEvent(S.AddEvent(S.Init(clock, wall), timeout, timeout), timeout, timeout)
    ensures w.resp == [Request(1, b.id, b.host, Some(1), b.raw), Request(0, a.id, a.host, Some(0), a.raw)]
  {
    var w0 := Init(clock, wall);
    var w1 := Sent(w0, a);
    w := Sent(w1, b);
    InitBooks(clock, wall);
    SentBooks(w0, a, {});
    SentBooks(w1, b, {});
    assert w1.resp == [Request(0, a.id, a.host, Some(0), a.raw)];
  }

  lemma AnswerFirst(w: World, a: Sending, b: Sending)
    requires w.resp == [Request(1, b.id, b.host, Some(1), b.raw), Request(0, a.id, a.host, Some(0), a.raw)]
    requires !(a.id == b.id && a.host == b.host) && w.sched.running.None? && 0 in w.sched.events
    ensures var w' := Next(w, Respond(a.id, a.host, true, []));
            && w'.done == w.done + [0] && Waiting(w'.resp, 1) && w'.sched == S.RemoveEvent(w.sched, 0)
  {
    assert w.resp[1..] == [w.resp[1]] && Match(w.resp, a.id, a.host) == 1;
    var w' := Next(w, Respond(a.id, a.host, true, []));
    assert w'.resp == Unlinked(w.resp, 1) == [w.resp[0]];
    assert w'.resp[0].uid == 1;
  }

  lemma {:induction false} PlaceIsWhere(l: seq<Request>, uid: int)
    ensures Place(l, uid) < |l| <==> Waiting(l, uid)
    ensures Place(l, uid) < |l| ==> l[Place(l, uid)].uid == uid
    decreases |l|
  {
    if l != [] && l[0].uid != uid {
      PlaceIsWhere(l[1..], uid);
      if i :| 0 <= i < |l| && l[i].uid == uid {
        assert l[1..][i - 1].uid == uid;
      }
      if i :| 0 <= i < |l[1..]| && l[1..][i].uid == uid {
        assert l[i + 1].uid == uid;
      }
    } else if l != [] {
      assert l[0].uid == uid;
    }
  }

  lemma {:induction false} MatchIsFirst(l: seq<Request>, id: int, host: int)
    ensures var i := Match(l, id, host);
            (i < |l| ==> Matches(l[i], id, host)) && forall j :: 0 <= j < i ==> !Matches(l[j], id, host)
    decreases |l|
  {
    if l != [] && !Matches(l[0], id, host) {
      MatchIsFirst(l[1..], id, host);
    }
  }

  /** The request of a live timer is in the list. */
  lemma TimerFound(w: World, t: int)
    requires Books(w, {}) && t in w.owner && t in w.sched.events
    ensures Waiting(w.resp, w.owner[t]) && Place(w.resp, w.owner[t]) < |w.resp|
    ensures var i := Place(w.resp, w.owner[t]); w.resp[i].uid == w.owner[t] && w.resp[i].timer == Some(t)
  {
    PlaceIsWhere(w.resp, w.owner[t]);
    var i :| 0 <= i < |w.resp| && w.resp[i].timer == Some(t);
    assert w.resp[i].uid == w.owner[t];
  }

  lemma ExpireBooks(w: World, sends: seq<Sending>)
    requires Books(w, {}) && Enabled(w, Expire(sends))
    ensures Books(Next(w, Expire(sends)), {})
  {
    ExpiryCompletes(w, sends);
  }

  lemma RespondBooks(w: World, id: int, host: int, decodes: bool, sends: seq<Sending>)
    requires Books(w, {}) && !TimerRuns(w) && Clean(w, Respond(id, host, decodes, sends))
    ensures Books(Next(w, Respond(id, host, decodes, sends)), {})
  {
    var i := Match(w.resp, id, host);
    if i < |w.resp| {
      CompletionIff(w, i, w.resp[i].raw || decodes, sends);
    }
  }

  lemma StepBooked(w: World, step: Step)
    requires Books(w, {}) && Enabled(w, step) && Clean(w, step)
    ensures Books(Next(w, step), {})
  {
    match step
    case Send(x) => SentBooks(w, x, {});
    case Respond(id, host, decodes, sends) => RespondBooks(w, id, host, decodes, sends);
    case Expire(sends) => ExpireBooks(w, sends);
    case Other(st) => OtherBooks(w, st);
  }

  lemma HolderWaits(w: World, t: int)
    requires TimersOk(w, {}) && Holds(w.resp, t)
    ensures t in w.owner && Waiting(w.resp, w.owner[t])
  {
    var i :| 0 <= i < |w.resp| && w.resp[i].timer == Some(t);
    assert w.owner[t] == w.resp[i].uid;
  }

  lemma BooksMean(w: World, uid: int)
    requires Books(w, {})
    ensures uid in w.called ==> uid in w.done
    ensures uid in w.done ==> !Waiting(w.resp, uid)
    ensures forall t :: t in w.owner && w.owner[t] == uid && uid in w.done ==>
              t !in w.sched.events && t !in H.Ids(w.sched.main) && t !in H.Ids(w.sched.debug)
    ensures forall i :: 0 <= i < |w.resp| && w.resp[i].timer.Some? ==> w.resp[i].timer.value in w.sched.events
  {
    forall t | t in w.owner && w.owner[t] == uid && uid in w.done ensures t !in w.sched.events {
      if Holds(w.resp, t) {
        HolderWaits(w, t);
      }
    }
    forall i | 0 <= i < |w.resp| && w.resp[i].timer.Some? ensures w.resp[i].timer.value in w.sched.events {
      assert Holds(w.resp, w.resp[i].timer.value);
    }
  }

  // ---------------------------------------------------------------- proofs: who was called

  lemma {:induction false} SentAllDone(w: World, xs: seq<Sending>)
    ensures SentAll(w, xs).done == w.done && SentAll(w, xs).called == w.called
    decreases |xs|
  {
    if xs != [] {
      SentAllDone(Sent(w, xs[0]), xs[1..]);
    }
  }

  /** Completion writes down the request, and the call if there is one. */
  lemma TakenDone(w: World, i: nat, call: bool, sends: seq<Sending>)
    requires i < |w.resp|
    ensures var u, uid := Taken(w, i, call, sends), w.resp[i].uid;
            u.done == w.done + [uid] && u.called == if call then w.called + [uid] else w.called
  {
    var uid := w.resp[i].uid;
    var u := w.(resp := Unlinked(w.resp, i), done := w.done + [uid]);
    SentAllDone(u.(called := u.called + [uid]), sends);
  }

  /** One step: what is newly completed is newly called, or dropped. */
  lemma StepCalls(w: World, step: Step, uid: int)
    requires Books(w, {}) && Enabled(w, step)
    ensures var w' := Next(w, step);
            && (uid in w.done ==> uid in w'.done && (uid in w'.called <==> uid in w.called) && !Drops(w, step, uid))
            && (uid !in w.done && uid in w'.done ==> (uid in w'.called <==> !Drops(w, step, uid)))
            && (uid !in w'.done ==> !Drops(w, step, uid))
  {
    match step
    case Send(x) =>
    case Respond(id, host, decodes, sends) => ResponseCompletes(w, id, host, decodes, sends);
    case Expire(sends) => ExpiryCompletes(w, sends);
    case Other(st) =>
  }

  lemma {:induction false} CallsFrom(w: World, steps: seq<Step>, uid: int)
    requires Books(w, {}) && Possible(w, steps) && CleanRun(w, steps)
    ensures var w' := Exec(w, steps);
            && (uid in w.done ==> uid in w'.done && (uid in w'.called <==> uid in w.called) && !Dropped(w, steps, uid))
            && (uid !in w.done && uid in w'.done ==> (uid in w'.called <==> !Dropped(w, steps, uid)))
    decreases |steps|
  {
    if steps != [] {
      StepCalls(w, steps[0], uid);
      StepBooked(w, steps[0]);
      CallsFrom(Next(w, steps[0]), steps[1..], uid);
    }
  }

  // ---------------------------------------------------------------- the registry

  lemma AccountedSched(w: World, late: set<int>)
    requires Books(w, late)
    ensures S.Accounted(w.sched)
  {
  }

  lemma UnlinkedCalled(w: World, i: nat)
    requires Books(w, {}) && i < |w.resp|
    ensures var u := w.(resp := Unlinked(w.resp, i), done := w.done + [w.resp[i].uid]);
            Books(u.(called := u.called + [w.resp[i].uid]), LateOf(w.resp[i].timer))
  {
    UnlinkBooks(w, i);
  }

  lemma LateTimer(w: World, timer: Option<int>)
    requires Books(w, LateOf(timer))
    ensures S.Accounted(w.sched) && (timer.Some? ==> timer.value in w.sched.events)
  {
    assert forall t :: t in LateOf(timer) ==> t in w.owner && t in w.sched.events;
    assert timer.Some? ==> timer.value in LateOf(timer);
  }

  class Registry {
    const evt: EventState
    var resp: seq<Request>
    var next: int
    var owner: map<int, int>
    ghost var done: seq<int>
    ghost var called: seq<int>

    ghost function Abs(): World
      reads this, evt, evt.main.q`K, evt.debug.q`K
    {
      World(resp, done, called, next, owner, evt.Abs())
    }

    ghost function Repr(): (r: set<object>)
      reads evt.main, evt.main.q, evt.debug, evt.debug.q
      ensures this in r && evt.Repr() <= r
    {
      {this} + evt.Repr()
    }

    ghost predicate Valid()
      reads evt.main, evt.main.q, evt.main.q.d, evt.main.q.Elems
      reads evt.debug, evt.debug.q, evt.debug.q.d, evt.debug.q.Elems
    {
      evt.Valid() && this !in evt.Repr()
    }

    twostate predicate Grown()
      reads evt.main, evt.main.q, evt.debug, evt.debug.q
    {
      forall o :: o in Repr() ==> o in old(Repr()) || fresh(o)
    }

    constructor (clock: int, wall: int)
      ensures Valid() && Abs() == Init(clock, wall) && fresh(Repr())
    {
      evt := new EventState(clock, wall);
      resp, next, owner, done, called := [], 0, map[], [], [];
    }

    /** CMD_add_response_cb. */
    method AddResponse(x: Sending)
      requires Valid() && S.Accounted(Abs().sched)
      modifies Repr()
      ensures Valid() && Grown() && Abs() == Sent(old(Abs()), x)
    {
      hide EventState.Valid;
      hide EventState.Repr;
      hide S.Accounted;
      hide S.AddEvent;
      var uid := next;
      var timer := None;
      if x.timeout.Some? {
        var t := evt.SchedAdd(x.timeout.value, x.timeout.value);
        timer, owner := Some(t), owner[t := uid];
      }
      resp := [Request(uid, x.id, x.host, timer, x.raw)] + resp;
      next := next + 1;
    }

    /** The callback of `uid`, and what it does here. */
    method CallBack(uid: int, sends: seq<Sending>, ghost late: set<int>)
      requires Valid() && Books(Abs().(called := called + [uid]), late)
      modifies Repr()
      ensures Valid() && Grown() && Abs() == CalledBack(old(Abs()), uid, sends)
    {
      hide Valid;
      hide Repr;
      hide Books;
      hide Sent;
      called := called + [uid];
      ghost var goal := SentAll(Abs(), sends);
      for i := 0 to |sends|
        invariant Valid() && Grown() && Books(Abs(), late) && SentAll(Abs(), sends[i..]) == goal
      {
        assert sends[i..][1..] == sends[i + 1..];
        AccountedSched(Abs(), late);
        SentBooks(Abs(), sends[i], late);
        AddResponse(sends[i]);
      }
    }

    /** Unlinks, and calls back if `call`. */
    method Take(i: nat, call: bool, sends: seq<Sending>)
      requires Valid() && Books(Abs(), {}) && i < |resp|
      modifies Repr()
      ensures Valid() && Grown() && Abs() == Taken(old(Abs()), i, call, sends)
    {
      hide Valid;
      hide Repr;
      hide Books;
      hide SentAll;
      var r := resp[i];
      ghost var w := Abs();
      UnlinkBooks(w, i);
      resp := resp[..i] + resp[i + 1..];
      done := done + [r.uid];
      if call {
        UnlinkedCalled(w, i);
        CallBack(r.uid, sends, LateOf(r.timer));
      }
    }

    /** EVT_sched_remove of the timer. */
    method RemoveTimer(timer: Option<int>)
      requires Valid() && S.Accounted(Abs().sched) && (timer.Some? ==> timer.value in Abs().sched.events)
      modifies Repr()
      ensures Valid() && Grown() && Abs() == TimerRemoved(old(Abs()), timer)
    {
      hide EventState.Valid;
      hide EventState.Repr;
      hide S.Accounted;
      hide S.RemoveEvent;
      if timer.Some? {
        evt.SchedRemove(timer.value);
      }
    }

    /** The walk along the list for a response. */
    method FindMatch(id: int, host: int) returns (i: nat)
      ensures i == Match(resp, id, host)
    {
      i := 0;
      while i < |resp| && !Matches(resp[i], id, host)
        invariant i <= |resp| && i + Match(resp[i..], id, host) == Match(resp, id, host)
      {
        assert resp[i..][1..] == resp[i + 1..];
        i := i + 1;
      }
    }

    /** The walk along the list for a timer. */
    method FindRequest(uid: int) returns (i: nat)
      ensures i == Place(resp, uid)
    {
      i := 0;
      while i < |resp| && resp[i].uid != uid
        invariant i <= |resp| && i + Place(resp[i..], uid) == Place(resp, uid)
      {
        assert resp[i..][1..] == resp[i + 1..];
        i := i + 1;
      }
    }

    /** cmd_handle_xdr_response after the header was decoded, with CMD_resolve_callback. */
    method HandleResponse(id: int, host: int, decodes: bool, sends: seq<Sending>)
      requires Valid() && Books(Abs(), {}) && !TimerRuns(Abs())
      modifies Repr()
      ensures Valid() && Grown() && Abs() == Next(old(Abs()), Respond(id, host, decodes, sends))
    {
      hide Valid;
      hide Repr;
      hide Books;
      hide Taken;
      hide TimerRemoved;
      var i := FindMatch(id, host);
      if i < |resp| {
        var r := resp[i];
        TakenBooks(Abs(), i, r.raw || decodes, sends);
        Take(i, r.raw || decodes, sends);
        LateTimer(Abs(), r.timer);
        RemoveTimer(r.timer);
      }
    }

    /** response_timeout_cb, called by the loop for the timer that runs, and the return to the loop. */
    method HandleTimeout(sends: seq<Sending>)
      requires Valid() && Books(Abs(), {}) && Enabled(Abs(), Expire(sends))
      modifies Repr()
      ensures Valid() && Grown() && Abs() == Next(old(Abs()), Expire(sends))
    {
      hide Valid;
      hide Repr;
      hide Books;
      hide Taken;
      hide S.Leave;
      var t := evt.running.value;
      TimerFound(Abs(), t);
      var i := FindRequest(owner[t]);
      TakenBooks(Abs(), i, true, sends);
      Take(i, true, sends);
      LateTimer(Abs(), Some(t));
      ReturnToLoop(t);
    }

    method ReturnToLoop(t: int)
      requires Valid() && t in Abs().sched.events && Abs().sched.running == Some(t)
      modifies Repr()
      ensures Valid() && Grown() && Abs() == old(Abs()).(sched := S.Leave(old(Abs()).sched, t, false))
    {
      hide EventState.Valid;
      hide EventState.Repr;
      hide S.Leave;
      evt.Drop(t);
    }
  }
}
