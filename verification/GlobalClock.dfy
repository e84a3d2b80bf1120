/**
 The shared virtual clock of globalTimer.c: N processes, one shared memory region, a mutex
 semaphore, a barrier semaphore, the current time and a table of wake times.

 The protocol is a transition system.  Every write to shared data happens while the writer
 owns the mutex, so each step below is one atomic action of one process; tokens are posted to
 the barrier one at a time, so that waiters can slip through while a publisher is still posting.
 */
module GlobalClock {

  const MAX_PROCS: nat := 128

  /** Where a process stands.  `Turn` is a trip through its event loop; `Posting` and
      `ExitPosting` still have `left` barrier tokens to post before giving up the mutex. */
  datatype Phase =
    | Turn
    | Posting(left: nat)
    | ExitPosting(left: nat)
    | AtBarrier
    | PastBarrier
    | Checking
    | Gone

  /** One row of the shared table (`nextTime`, `active`, `holdsMutex`, `live` for pid > 0) with the
      process's private data: its phase, the wake time it asked for, its local clock, and whether
      it has ever been let through the barrier and the check. */
  datatype Proc = Proc(nextTime: int, active: bool, holdsMutex: bool, live: bool,
                       phase: Phase, want: int, clock: int, synced: bool)

  datatype State = State(mutex: nat, barrier: nat, curr: int, procs: seq<Proc>)

  datatype Step =
    | Join
    | Publish(i: nat, t: int)
    | Post(i: nat)
    | Release(i: nat)
    | Pass(i: nat)
    | Take(i: nat)
    | Check(i: nat)
    | Exit(i: nat)

  // ---------------------------------------------------------------- the scan

  predicate Eligible(p: Proc) {
    p.live && p.active
  }

  /** The scan of the table after its first `n` rows: index of the row kept as smallest, or -1. */
  function Smallest(procs: seq<Proc>, n: nat): (m: int)
    requires n <= |procs|
    ensures -1 <= m < n
    ensures m >= 0 ==> Eligible(procs[m])
    ensures m < 0 ==> forall j :: 0 <= j < n ==> !Eligible(procs[j])
    ensures forall j :: 0 <= j < n && Eligible(procs[j]) ==> procs[m].nextTime <= procs[j].nextTime
    ensures forall j :: 0 <= j < m && Eligible(procs[j]) ==> procs[m].nextTime < procs[j].nextTime
  {
    if n == 0 then -1 else
      var m := Smallest(procs, n - 1);
      if Eligible(procs[n - 1]) && (m < 0 || procs[n - 1].nextTime < procs[m].nextTime) then n - 1 else m
  }

  /** The number of live, active rows among the first `n`. */
  function ActiveCount(procs: seq<Proc>, n: nat): (c: nat)
    requires n <= |procs|
    ensures c == 0 <==> forall j :: 0 <= j < n ==> !Eligible(procs[j])
  {
    if n == 0 then 0 else ActiveCount(procs, n - 1) + if Eligible(procs[n - 1]) then 1 else 0
  }

  // ---------------------------------------------------------------- steps

  /** The process owns the mutex semaphore. */
  predicate Owns(p: Proc) {
    p.phase.Turn? || p.phase.Posting? || p.phase.ExitPosting? || p.phase.Checking?
  }

  /** The process has published a wake time and has not been resumed since. */
  predicate Waiting(p: Proc) {
    p.phase.Posting? || p.phase.AtBarrier? || p.phase.PastBarrier? || p.phase.Checking?
  }

  predicate IsPosting(p: Phase) {
    p.Posting? || p.ExitPosting?
  }

  predicate Enabled(s: State, step: Step) {
    match step
    case Join => s.mutex > 0 && |s.procs| < MAX_PROCS
    case Publish(i, _) => i < |s.procs| && s.procs[i].phase.Turn?
    case Exit(i) => i < |s.procs| && s.procs[i].phase.Turn?
    case Post(i) => i < |s.procs| && IsPosting(s.procs[i].phase) && s.procs[i].phase.left > 0
    case Release(i) => i < |s.procs| && IsPosting(s.procs[i].phase) && s.procs[i].phase.left == 0
    case Pass(i) => i < |s.procs| && s.procs[i].phase.AtBarrier? && s.barrier > 0
    case Take(i) => i < |s.procs| && s.procs[i].phase.PastBarrier? && s.mutex > 0
    case Check(i) => i < |s.procs| && s.procs[i].phase.Checking?
  }

  /** A row as `setup_shared_state` fills it.  The local clock is left at zero. */
  function Joiner(curr: int): Proc {
    Proc(curr, true, true, true, Turn, curr, 0, false)
  }

  /** The table after row `i` has recorded its new wake time. */
  function Recorded(procs: seq<Proc>, i: nat, t: int): seq<Proc>
    requires i < |procs|
  {
    procs[i := procs[i].(nextTime := t, want := t)]
  }

  /** The table after row `i` has resigned. */
  function Resigned(procs: seq<Proc>, i: nat): seq<Proc>
    requires i < |procs|
  {
    procs[i := procs[i].(active := false, live := false)]
  }

  function AfterPublish(s: State, i: nat, t: int): State
    requires i < |s.procs|
  {
    var rec := Recorded(s.procs, i, t);
    var m := Smallest(rec, |rec|);
    if m < 0 then s else  // the assertion that some row is eligible
      var marked := rec[m := rec[m].(active := false)];
      State(s.mutex, s.barrier, rec[m].nextTime,
            marked[i := marked[i].(phase := Posting(ActiveCount(rec, |rec|)))])
  }

  function AfterExit(s: State, i: nat): State
    requires i < |s.procs|
  {
    var rest := Resigned(s.procs, i);
    s.(procs := rest[i := rest[i].(phase := ExitPosting(ActiveCount(rest, |rest|)))])
  }

  function AfterCheck(s: State, i: nat): State
    requires i < |s.procs|
  {
    var p := s.procs[i].(clock := s.curr);
    if p.want > s.curr then
      s.(mutex := s.mutex + 1, procs := s.procs[i := p.(phase := AtBarrier)])
    else
      s.(procs := s.procs[i := p.(active := true, holdsMutex := true, phase := Turn, synced := true)])
  }

  function Next(s: State, step: Step): State
    requires Enabled(s, step)
  {
    match step
    case Join => s.(mutex := s.mutex - 1, procs := s.procs + [Joiner(s.curr)])
    case Publish(i, t) => AfterPublish(s, i, t)
    case Exit(i) => AfterExit(s, i)
    case Post(i) =>
      var p := s.procs[i];
      var q := if p.phase.Posting? then Posting(p.phase.left - 1) else ExitPosting(p.phase.left - 1);
      s.(barrier := s.barrier + 1, procs := s.procs[i := p.(phase := q)])
    case Release(i) =>
      var p := s.procs[i];
      var q := if p.phase.Posting? then AtBarrier else Gone;
      s.(mutex := s.mutex + 1, procs := s.procs[i := p.(holdsMutex := false, phase := q)])
    case Pass(i) => s.(barrier := s.barrier - 1, procs := s.procs[i := s.procs[i].(phase := PastBarrier)])
    case Take(i) => s.(mutex := s.mutex - 1, procs := s.procs[i := s.procs[i].(phase := Checking)])
    case Check(i) => AfterCheck(s, i)
  }

  function Init(now: int): State {
    State(1, 0, now, [])
  }

  // ---------------------------------------------------------------- runs

  predicate Executable(s: State, run: seq<Step>)
    decreases |run|
  {
    run == [] || (Enabled(s, run[0]) && Executable(Next(s, run[0]), run[1..]))
  }

  function Exec(s: State, run: seq<Step>): State
    requires Executable(s, run)
    decreases |run|
  {
    if run == [] then s else Exec(Next(s, run[0]), run[1..])
  }

  // ---------------------------------------------------------------- exclusion

  function Owners(procs: seq<Proc>): nat {
    if procs == [] then 0 else Owners(procs[..|procs| - 1]) + if Owns(procs[|procs| - 1]) then 1 else 0
  }

  function Bit(b: bool): nat { if b then 1 else 0 }

  lemma {:induction false} OwnersUpdate(procs: seq<Proc>, i: nat, p: Proc)
    requires i < |procs|
    ensures Owners(procs[i := p]) == Owners(procs) - Bit(Owns(procs[i])) + Bit(Owns(p))
  {
    var n := |procs| - 1;
    if i == n {
      assert procs[i := p][..n] == procs[..n];
    } else {
      assert procs[i := p][..n] == procs[..n][i := p];
      OwnersUpdate(procs[..n], i, p);
    }
  }

  lemma {:induction false} OwnersSome(procs: seq<Proc>, i: nat)
    requires i < |procs| && Owns(procs[i])
    ensures Owners(procs) >= 1
  {
    var n := |procs| - 1;
    if i < n {
      OwnersSome(procs[..n], i);
    }
  }

  lemma {:induction false} OwnersPair(procs: seq<Proc>, i: nat, j: nat)
    requires i < j < |procs| && Owns(procs[i]) && Owns(procs[j])
    ensures Owners(procs) >= 2
  {
    var n := |procs| - 1;
    if j < n {
      OwnersPair(procs[..n], i, j);
    } else {
      OwnersSome(procs[..n], i);
    }
  }

  /** What the phase of a process says about its row. */
  predicate RowAgrees(p: Proc, curr: int) {
    match p.phase
    case Turn => p.live && p.active && p.holdsMutex && (p.synced ==> p.clock == curr)
    case Posting(_) => p.live && p.holdsMutex && p.want == p.nextTime
    case ExitPosting(_) => !p.live && !p.active && p.holdsMutex
    case Gone => !p.live && !p.active && !p.holdsMutex
    case _ => p.live && !p.holdsMutex && p.want == p.nextTime
  }

  ghost predicate Inv(s: State) {
    && s.mutex + Owners(s.procs) == 1
    && (forall j :: 0 <= j < |s.procs| ==> RowAgrees(s.procs[j], s.curr))
    && (forall j :: 0 <= j < |s.procs| && Waiting(s.procs[j]) && s.procs[j].active ==> s.curr <= s.procs[j].nextTime)
  }

  lemma SoleOwner(s: State, i: nat)
    requires Inv(s) && i < |s.procs| && Owns(s.procs[i])
    ensures s.mutex == 0
    ensures forall j :: 0 <= j < |s.procs| && j != i ==> !Owns(s.procs[j])
  {
    OwnersSome(s.procs, i);
    forall j | 0 <= j < |s.procs| && j != i ensures !Owns(s.procs[j]) {
      if Owns(s.procs[j]) {
        OwnersPair(s.procs, if i < j then i else j, if i < j then j else i);
      }
    }
  }

  lemma InitInv(now: int)
    ensures Inv(Init(now))
  {}

  lemma PublishKeepsInv(s: State, i: nat, t: int)
    requires Inv(s) && Enabled(s, Publish(i, t))
    ensures Inv(AfterPublish(s, i, t))
    ensures Smallest(Recorded(s.procs, i, t), |s.procs|) >= 0
    ensures AfterPublish(s, i, t).curr < s.curr <==> t < s.curr
  {
    SoleOwner(s, i);
    var rec := Recorded(s.procs, i, t);
    var m := Smallest(rec, |rec|);
    assert Eligible(rec[i]);
    var marked := rec[m := rec[m].(active := false)];
    OwnersUpdate(s.procs, i, rec[i]);
    OwnersUpdate(rec, m, marked[m]);
    OwnersUpdate(marked, i, marked[i].(phase := Posting(ActiveCount(rec, |rec|))));
  }

  lemma ExitKeepsInv(s: State, i: nat)
    requires Inv(s) && Enabled(s, Exit(i))
    ensures Inv(AfterExit(s, i))
  {
    SoleOwner(s, i);
    var s' := AfterExit(s, i);
    OwnersUpdate(s.procs, i, s'.procs[i]);
    assert s'.procs == s.procs[i := s'.procs[i]];
  }

  lemma CheckKeepsInv(s: State, i: nat)
    requires Inv(s) && Enabled(s, Check(i))
    ensures Inv(AfterCheck(s, i))
  {
    SoleOwner(s, i);
    OwnersUpdate(s.procs, i, AfterCheck(s, i).procs[i]);
  }

  lemma StepKeepsInv(s: State, step: Step)
    requires Inv(s) && Enabled(s, step)
    ensures Inv(Next(s, step))
  {
    var s' := Next(s, step);
    match step
    case Join =>
      assert s'.procs[..|s.procs|] == s.procs;
    case Publish(i, t) => PublishKeepsInv(s, i, t);
    case Exit(i) => ExitKeepsInv(s, i);
    case Check(i) => CheckKeepsInv(s, i);
    case _ =>
      OwnersUpdate(s.procs, step.i, s'.procs[step.i]);
  }

  /** Exclusion over every interleaving: the mutex count and the owners add up to one, and the three
      assertions of `ET_gvirt_block` (lines 252, 268 and 319) cannot fail. */
  lemma {:induction false} RunKeepsInv(s: State, run: seq<Step>)
    requires Inv(s) && Executable(s, run)
    ensures Inv(Exec(s, run))
    decreases |run|
  {
    if run != [] {
      StepKeepsInv(s, run[0]);
      RunKeepsInv(Next(s, run[0]), run[1..]);
    }
  }

  /** The rows that the scan looks at. */
  ghost function ActiveRows(procs: seq<Proc>, n: nat): set<nat>
    requires n <= |procs|
  {
    set j: nat | j < n && procs[j].live && procs[j].active
  }

  lemma {:induction false} ActiveCountIs(procs: seq<Proc>, n: nat)
    requires n <= |procs|
    ensures ActiveCount(procs, n) == |ActiveRows(procs, n)|
    decreases n
  {
    if n > 0 {
      ActiveCountIs(procs, n - 1);
      var rows := ActiveRows(procs, n - 1);
      assert ActiveRows(procs, n) == if Eligible(procs[n - 1]) then rows + {n - 1} else rows;
    } else {
      assert ActiveRows(procs, n) == {};
    }
  }

  /** A publish, in any state: the shared time becomes the earliest wake time of the active rows, the
      publisher's new one among them; the first such row is marked, and one token per active row is due. */
  lemma PublishMeans(s: State, i: nat, t: int)
    requires Inv(s) && Enabled(s, Publish(i, t))
    ensures var s', rows := Next(s, Publish(i, t)), ActiveRows(s.procs, |s.procs|);
            var time := (j: nat) requires j < |s.procs| => if j == i then t else s.procs[j].nextTime;
            && s'.procs[i].phase == Posting(|rows|) && s'.procs[i].nextTime == t == s'.procs[i].want
            && s'.mutex == s.mutex && s'.barrier == s.barrier && |s'.procs| == |s.procs|
            && exists m: nat :: m in rows && s'.curr == time(m) && !s'.procs[m].active
                 && (forall j :: j in rows ==> s'.curr <= time(j))
                 && (forall j :: j in rows && j < m ==> s'.curr < time(j))
                 && (forall j: nat :: j < |s.procs| && j != i && j != m ==> s'.procs[j] == s.procs[j])
  {
    hide Inv;
    hide ActiveCount;
    PublishKeepsInv(s, i, t);
    var rec := Recorded(s.procs, i, t);
    ActiveCountIs(rec, |rec|);
    assert ActiveRows(rec, |rec|) == ActiveRows(s.procs, |s.procs|);
    var m := Smallest(rec, |rec|);
    assert m in ActiveRows(s.procs, |s.procs|);
  }

  /** A process that leaves owes one token to each active row that is left. */
  lemma ExitMeans(s: State, i: nat)
    requires Inv(s) && Enabled(s, Exit(i))
    ensures var s', rows := Next(s, Exit(i)), ActiveRows(s.procs, |s.procs|) - {i};
            && s'.procs[i].phase == ExitPosting(|rows|) && !s'.procs[i].live && !s'.procs[i].active
            && s' == s.(procs := s.procs[i := s'.procs[i]])
  {
    var rest := Resigned(s.procs, i);
    ActiveCountIs(rest, |rest|);
    assert ActiveRows(rest, |rest|) == ActiveRows(s.procs, |s.procs|) - {i};
  }

  /** Only a mutex owner changes the shared time or another process's row, and a turn that began
      with the barrier sees one time throughout: its local clock is the shared time. */
  lemma OnlyOwnersWrite(s: State, step: Step, j: nat)
    requires Inv(s) && Enabled(s, step) && j < |s.procs|
    ensures Next(s, step).curr != s.curr ==> step.Publish? && Owns(s.procs[step.i])
    ensures Next(s, step).procs[j] != s.procs[j] && !(step.Join? || step.i == j) ==>
      step.Publish? && Owns(s.procs[step.i])
    ensures s.procs[j].phase.Turn? && s.procs[j].synced ==> s.procs[j].clock == s.curr
    ensures s.procs[j].phase.Turn? && !(step.Publish? && step.i == j) ==> Next(s, step).curr == s.curr
  {
    if step.Publish? {
      SoleOwner(s, step.i);
    }
  }

  // ---------------------------------------------------------------- monotonicity

  /** Every wake time published in the run is at least the shared time of that moment. */
  predicate Considerate(s: State, run: seq<Step>)
    requires Executable(s, run)
    decreases |run|
  {
    run == [] || ((run[0].Publish? ==> s.curr <= run[0].t) && Considerate(Next(s, run[0]), run[1..]))
  }

  /** The shared time goes back in a step if and only if that step publishes a time in the past. */
  lemma ClockGoesBackIff(s: State, step: Step)
    requires Inv(s) && Enabled(s, step)
    ensures Next(s, step).curr < s.curr <==> step.Publish? && step.t < s.curr
  {
    if step.Publish? {
      PublishKeepsInv(s, step.i, step.t);
    }
  }

  lemma {:induction false} ClockNeverGoesBack(s: State, run: seq<Step>)
    requires Inv(s) && Executable(s, run) && Considerate(s, run)
    ensures s.curr <= Exec(s, run).curr
    decreases |run|
  {
    if run != [] {
      ClockGoesBackIff(s, run[0]);
      StepKeepsInv(s, run[0]);
      ClockNeverGoesBack(Next(s, run[0]), run[1..]);
    }
  }

  // ---------------------------------------------------------------- exact order, when all are active

  /** Every process but `r` waits, active, for its own distinct time in the future; `r` is either in
      its turn or is the inactive process whose time has just been reached. */
  ghost predicate Ordered(s: State, r: nat) {
    && Inv(s)
    && r < |s.procs|
    && (s.procs[r].phase.Turn? || (Waiting(s.procs[r]) && !s.procs[r].active && s.procs[r].nextTime == s.curr))
    && Pending(s.procs, s.curr, r)
  }

  ghost predicate Pending(procs: seq<Proc>, curr: int, r: nat) {
    && (forall j :: 0 <= j < |procs| && j != r ==>
          Waiting(procs[j]) && procs[j].active && procs[j].live && curr < procs[j].nextTime)
    && (forall j, k :: 0 <= j < k < |procs| && j != r && k != r ==> procs[j].nextTime != procs[k].nextTime)
  }

  /** Fixed membership, and every published time is in the future and not already taken. */
  predicate Fair(s: State, step: Step)
    requires Enabled(s, step)
  {
    match step
    case Join => false
    case Exit(_) => false
    case Publish(i, t) => s.curr < t && forall j :: 0 <= j < |s.procs| && j != i ==> s.procs[j].nextTime != t
    case _ => true
  }

  predicate FairRun(s: State, run: seq<Step>)
    requires Executable(s, run)
    decreases |run|
  {
    run == [] || (Fair(s, run[0]) && FairRun(Next(s, run[0]), run[1..]))
  }

  predicate Resumes(s: State, step: Step)
    requires Enabled(s, step)
  {
    step.Check? && Next(s, step).procs[step.i].phase.Turn?
  }

  function NextInLine(s: State, step: Step, r: nat): nat
    requires Enabled(s, step)
  {
    if step.Publish? && Smallest(Recorded(s.procs, step.i, step.t), |s.procs|) >= 0
    then Smallest(Recorded(s.procs, step.i, step.t), |s.procs|) else r
  }

  lemma AllDistinct(procs: seq<Proc>, i: nat, t: int, curr: int)
    requires i < |procs| && Pending(procs, curr, i) && curr < t
    requires forall j :: 0 <= j < |procs| && j != i ==> procs[j].nextTime != t
    requires Eligible(procs[i])
    ensures var rec := Recorded(procs, i, t);
            && (forall j :: 0 <= j < |rec| ==> Eligible(rec[j]) && curr < rec[j].nextTime)
            && (forall j, k :: 0 <= j < k < |rec| ==> rec[j].nextTime != rec[k].nextTime)
  {}

  lemma MarkedPending(rec: seq<Proc>, m: nat, i: nat, c: nat)
    requires i < |rec| && m < |rec|
    requires forall j :: 0 <= j < |rec| ==> Eligible(rec[j]) && (j != i ==> Waiting(rec[j]))
    requires forall j, k :: 0 <= j < k < |rec| ==> rec[j].nextTime != rec[k].nextTime
    requires forall j :: 0 <= j < |rec| ==> rec[m].nextTime <= rec[j].nextTime
    ensures var marked := rec[m := rec[m].(active := false)];
            Pending(marked[i := marked[i].(phase := Posting(c))], rec[m].nextTime, m)
  {
    var marked := rec[m := rec[m].(active := false)];
    var q := marked[i := marked[i].(phase := Posting(c))];
    assert forall j :: 0 <= j < |rec| ==> q[j].nextTime == rec[j].nextTime;
  }

  /** The publisher is the one whose turn it is, and its scan sees everybody active. */
  lemma PublisherScans(s: State, i: nat, t: int, r: nat)
    requires Ordered(s, r) && Enabled(s, Publish(i, t)) && Fair(s, Publish(i, t))
    ensures i == r
    ensures var rec := Recorded(s.procs, i, t);
            && (forall j :: 0 <= j < |rec| ==> Eligible(rec[j]) && s.curr < rec[j].nextTime)
            && (forall j :: 0 <= j < |rec| && j != i ==> Waiting(rec[j]))
            && (forall j, k :: 0 <= j < k < |rec| ==> rec[j].nextTime != rec[k].nextTime)
  {
    AllDistinct(s.procs, i, t, s.curr);
  }

  lemma OrderedPublish(s: State, i: nat, t: int, r: nat)
    requires Ordered(s, r) && Enabled(s, Publish(i, t)) && Fair(s, Publish(i, t))
    ensures i == r
    ensures Ordered(AfterPublish(s, i, t), NextInLine(s, Publish(i, t), r))
    ensures !AfterPublish(s, i, t).procs[NextInLine(s, Publish(i, t), r)].phase.Turn?
    ensures s.curr < AfterPublish(s, i, t).curr
  {
    PublisherScans(s, i, t, r);
    PublishKeepsInv(s, i, t);
    var rec := Recorded(s.procs, i, t);
    var m := Smallest(rec, |rec|);
    MarkedPending(rec, m, i, ActiveCount(rec, |rec|));
    assert AfterPublish(s, i, t).procs[m].nextTime == rec[m].nextTime;
  }

  lemma OrderedStep(s: State, step: Step, r: nat)
    requires Ordered(s, r) && Enabled(s, step) && Fair(s, step)
    ensures Ordered(Next(s, step), NextInLine(s, step, r))
    ensures if step.Publish? then Next(s, step).curr > s.curr else Next(s, step).curr == s.curr
    ensures Next(s, step).procs[NextInLine(s, step, r)].phase.Turn? <==>
            Resumes(s, step) || (s.procs[r].phase.Turn? && !step.Publish?)
  {
    if step.Publish? {
      OrderedPublish(s, step.i, step.t, r);
    } else {
      StepKeepsInv(s, step);
      var s' := Next(s, step);
      if s.procs[r].phase.Turn? {
        SoleOwner(s, r);
      }
      assert forall j :: 0 <= j < |s.procs| ==> s'.procs[j].nextTime == s.procs[j].nextTime;
    }
  }

  /** Whoever is let into a turn is the process with the strictly smallest pending time, and its
      clock then shows exactly the time it asked for. */
  lemma ResumedIsEarliest(s: State, step: Step, r: nat)
    requires Ordered(s, r) && Enabled(s, step) && Fair(s, step) && Resumes(s, step)
    ensures step.i == r
    ensures forall j :: 0 <= j < |s.procs| && j != r ==> s.procs[r].nextTime < s.procs[j].nextTime
    ensures Next(s, step).procs[r].clock == s.procs[r].want == s.curr
  {}

  /** The local clocks of the processes let into a turn, in the order the run lets them in. */
  function ResumeTimes(s: State, run: seq<Step>): seq<int>
    requires Executable(s, run)
    decreases |run|
  {
    if run == [] then [] else
      var rest := ResumeTimes(Next(s, run[0]), run[1..]);
      if Resumes(s, run[0]) then [Next(s, run[0]).procs[run[0].i].clock] + rest else rest
  }

  ghost predicate StrictlyIncreasing(ts: seq<int>) {
    forall j, k :: 0 <= j < k < |ts| ==> ts[j] < ts[k]
  }

  /** Exact global order over every interleaving of an all-active system. */
  lemma {:induction false} ResumeTimesIncrease(s: State, run: seq<Step>, r: nat)
    requires Ordered(s, r) && Executable(s, run) && FairRun(s, run)
    ensures StrictlyIncreasing(ResumeTimes(s, run))
    ensures forall k :: 0 <= k < |ResumeTimes(s, run)| ==> s.curr <= ResumeTimes(s, run)[k]
    ensures s.procs[r].phase.Turn? ==> forall k :: 0 <= k < |ResumeTimes(s, run)| ==> s.curr < ResumeTimes(s, run)[k]
    decreases |run|
  {
    if run != [] {
      OrderedStep(s, run[0], r);
      ResumeTimesIncrease(Next(s, run[0]), run[1..], NextInLine(s, run[0], r));
      if Resumes(s, run[0]) {
        ResumedIsEarliest(s, run[0], r);
      }
    }
  }

  // ---------------------------------------------------------------- what is reachable from a fresh region

  /** No waiting process is marked active. */
  ghost predicate Quiet(s: State) {
    forall j :: 0 <= j < |s.procs| && Waiting(s.procs[j]) ==> !s.procs[j].active
  }

  lemma {:induction false} OnlyEligible(procs: seq<Proc>, i: nat, n: nat)
    requires i < |procs| && n <= |procs| && Eligible(procs[i])
    requires forall j :: 0 <= j < |procs| && j != i ==> !Eligible(procs[j])
    ensures ActiveCount(procs, n) == Bit(i < n)
  {
    if n > 0 {
      OnlyEligible(procs, i, n - 1);
    }
  }

  /** In a quiet state the publisher's scan finds nobody but the publisher: it sets the shared time to
      its own wake time and posts a single token; a leaving process posts none. */
  lemma QuietScan(s: State, i: nat, t: int)
    requires Inv(s) && Quiet(s) && i < |s.procs| && s.procs[i].phase.Turn?
    ensures AfterPublish(s, i, t).curr == t
    ensures AfterPublish(s, i, t).procs ==
            s.procs[i := s.procs[i].(nextTime := t, want := t, active := false, phase := Posting(1))]
    ensures AfterExit(s, i).procs[i].phase == ExitPosting(0)
  {
    SoleOwner(s, i);
    var rec := Recorded(s.procs, i, t);
    forall j | 0 <= j < |rec| && j != i ensures !Eligible(rec[j]) {
      assert RowAgrees(s.procs[j], s.curr);
    }
    assert Eligible(rec[i]);
    OnlyEligible(rec, i, |rec|);
    assert Smallest(rec, |rec|) == i;
  }

  lemma QuietStep(s: State, step: Step)
    requires Inv(s) && Quiet(s) && Enabled(s, step)
    ensures Quiet(Next(s, step))
  {
    if step.Publish? {
      QuietScan(s, step.i, step.t);
    }
  }

  lemma {:induction false} QuietForever(s: State, run: seq<Step>)
    requires Inv(s) && Quiet(s) && Executable(s, run)
    ensures Inv(Exec(s, run)) && Quiet(Exec(s, run))
    decreases |run|
  {
    if run != [] {
      StepKeepsInv(s, run[0]);
      QuietStep(s, run[0]);
      QuietForever(Next(s, run[0]), run[1..]);
    }
  }

  /** In a region set up by `setup_shared_state`, after any joins, turns and exits whatever, a publish
      makes the shared time the smallest wake time of all live processes if and only if the publisher
      itself is the one with the smallest. */
  lemma PublishFindsMinimumIff(now: int, run: seq<Step>, i: nat, t: int)
    requires Executable(Init(now), run) && Enabled(Exec(Init(now), run), Publish(i, t))
    ensures var s := Exec(Init(now), run);
            var s' := Next(s, Publish(i, t));
            (forall j :: 0 <= j < |s'.procs| && s'.procs[j].live ==> s'.curr <= s'.procs[j].nextTime)
            <==> (forall j :: 0 <= j < |s.procs| && j != i && s.procs[j].live ==> t <= s.procs[j].nextTime)
  {
    var s := Exec(Init(now), run);
    QuietForever(Init(now), run);
    QuietScan(s, i, t);
    var s' := Next(s, Publish(i, t));
    assert forall j :: 0 <= j < |s.procs| && j != i ==> s'.procs[j] == s.procs[j];
    assert s'.procs[i].nextTime == t;
  }

  /** The last time published in `run`, or `now` if none was. */
  function LastPublished(now: int, run: seq<Step>): int
    decreases |run|
  {
    if run == [] then now else LastPublished(if run[0].Publish? then run[0].t else now, run[1..])
  }

  lemma {:induction false} CurrIsLastPublished(s: State, run: seq<Step>)
    requires Inv(s) && Quiet(s) && Executable(s, run)
    ensures Exec(s, run).curr == LastPublished(s.curr, run)
    decreases |run|
  {
    if run != [] {
      if run[0].Publish? {
        QuietScan(s, run[0].i, run[0].t);
      }
      StepKeepsInv(s, run[0]);
      QuietStep(s, run[0]);
      CurrIsLastPublished(Next(s, run[0]), run[1..]);
    }
  }

  /** When a process is resumed, and when on time.  Over every run from a fresh region: a process that
      makes its check is resumed if and only if its wake time is not after the last published time; its
      clock then shows that time, so it is never early, and it is on time if and only if the last
      published time is its wake time. */
  lemma ResumedOnTimeIff(now: int, run: seq<Step>, i: nat)
    requires Executable(Init(now), run) && Enabled(Exec(Init(now), run), Check(i))
    ensures var s := Exec(Init(now), run);
            var last := LastPublished(now, run);
            && (Resumes(s, Check(i)) <==> s.procs[i].want <= last)
            && Next(s, Check(i)).procs[i].clock == last
            && (Next(s, Check(i)).procs[i].clock == s.procs[i].want <==> last == s.procs[i].want)
  {
    CurrIsLastPublished(Init(now), run);
  }

  /** A leaving process counts no active process, whoever is still there: the condition under which
      `cleanup_shared_state` destroys the semaphores. */
  lemma LeaverCountsNobody(now: int, run: seq<Step>, i: nat)
    requires Executable(Init(now), run) && Enabled(Exec(Init(now), run), Exit(i))
    ensures Next(Exec(Init(now), run), Exit(i)).procs[i].phase == ExitPosting(0)
  {
    QuietForever(Init(now), run);
    QuietScan(Exec(Init(now), run), i, now);
  }

  lemma OrderedIsNotQuiet(s: State, r: nat, j: nat)
    requires Ordered(s, r) && j < |s.procs| && j != r
    ensures !Quiet(s)
  {
    assert Waiting(s.procs[j]) && s.procs[j].active;
  }

  /** The all-active states of the exact-order theorem are reachable only with one process. */
  lemma OrderedOnlyAlone(now: int, run: seq<Step>, r: nat)
    requires Executable(Init(now), run) && Ordered(Exec(Init(now), run), r)
    ensures |Exec(Init(now), run).procs| == 1
  {
    var s := Exec(Init(now), run);
    QuietForever(Init(now), run);
    if |s.procs| > 1 {
      OrderedIsNotQuiet(s, r, if r == 0 then 1 else 0);
    }
  }

  // ---------------------------------------------------------------- barrier tokens

  /** Barrier tokens a process still needs (waiting at the barrier) less those it still has to post. */
  function Need(p: Proc): int {
    match p.phase
    case AtBarrier => 1
    case Posting(left) => 1 - left
    case ExitPosting(left) => 0 - left
    case _ => 0
  }

  function Needs(procs: seq<Proc>): int {
    if procs == [] then 0 else Needs(procs[..|procs| - 1]) + Need(procs[|procs| - 1])
  }

  lemma {:induction false} NeedsUpdate(procs: seq<Proc>, i: nat, p: Proc)
    requires i < |procs|
    ensures Needs(procs[i := p]) == Needs(procs) - Need(procs[i]) + Need(p)
  {
    var n := |procs| - 1;
    if i == n {
      assert procs[i := p][..n] == procs[..n];
    } else {
      assert procs[i := p][..n] == procs[..n][i := p];
      NeedsUpdate(procs[..n], i, p);
    }
  }

  lemma {:induction false} NeedsPositive(procs: seq<Proc>, i: nat)
    requires forall j :: 0 <= j < |procs| ==> Need(procs[j]) >= 0
    requires i < |procs| && Need(procs[i]) == 1
    ensures Needs(procs) >= 1
    decreases |procs|
  {
    var n := |procs| - 1;
    if i < n {
      NeedsPositive(procs[..n], i);
    } else if n > 0 {
      NeedsNonNegative(procs[..n]);
    }
  }

  lemma {:induction false} NeedsNonNegative(procs: seq<Proc>)
    requires forall j :: 0 <= j < |procs| ==> Need(procs[j]) >= 0
    ensures Needs(procs) >= 0
    decreases |procs|
  {
    if procs != [] {
      NeedsNonNegative(procs[..|procs| - 1]);
    }
  }

  /** Every waiter has its own token and its time has come. */
  ghost predicate Supplied(s: State) {
    && Inv(s)
    && Quiet(s)
    && s.barrier == Needs(s.procs)
    && (forall j :: 0 <= j < |s.procs| && Waiting(s.procs[j]) ==> s.procs[j].nextTime <= s.curr)
  }

  lemma NeedsStep(s: State, step: Step)
    requires Inv(s) && Quiet(s) && Enabled(s, step) && s.barrier == Needs(s.procs)
    requires step.Check? ==> s.procs[step.i].want <= s.curr
    ensures Next(s, step).barrier == Needs(Next(s, step).procs)
  {
    var s' := Next(s, step);
    if step.Join? {
      assert s'.procs[..|s.procs|] == s.procs;
    } else {
      if step.Publish? {
        QuietScan(s, step.i, step.t);
      } else if step.Exit? {
        QuietScan(s, step.i, s.curr);
      }
      assert s'.procs == s.procs[step.i := s'.procs[step.i]];
      NeedsUpdate(s.procs, step.i, s'.procs[step.i]);
    }
  }

  lemma SuppliedStep(s: State, step: Step)
    requires Supplied(s) && Enabled(s, step) && (step.Publish? ==> s.curr <= step.t)
    ensures Supplied(Next(s, step))
    ensures step.Check? ==> Resumes(s, step)
  {
    StepKeepsInv(s, step);
    QuietStep(s, step);
    NeedsStep(s, step);
    if step.Publish? {
      QuietScan(s, step.i, step.t);
    }
  }

  lemma {:induction false} SuppliedForever(s: State, run: seq<Step>)
    requires Supplied(s) && Executable(s, run) && Considerate(s, run)
    ensures Supplied(Exec(s, run))
    decreases |run|
  {
    if run != [] {
      SuppliedStep(s, run[0]);
      SuppliedForever(Next(s, run[0]), run[1..]);
    }
  }

  /** No deadlock as long as nobody publishes a time in the past: while a process is left, somebody
      already in the system can move, and nobody let through the barrier is ever sent back to it. */
  lemma ConsiderateRunsDoNotStall(now: int, run: seq<Step>, i: nat) returns (step: Step)
    requires Executable(Init(now), run) && Considerate(Init(now), run)
    requires i < |Exec(Init(now), run).procs| && Exec(Init(now), run).procs[i].live
    ensures !step.Join? && Enabled(Exec(Init(now), run), step)
    ensures forall j :: Enabled(Exec(Init(now), run), Check(j)) ==> Resumes(Exec(Init(now), run), Check(j))
  {
    var s := Exec(Init(now), run);
    SuppliedForever(Init(now), run);
    forall j | Enabled(s, Check(j)) ensures Resumes(s, Check(j)) {
      SuppliedStep(s, Check(j));
    }
    if j :| 0 <= j < |s.procs| && Owns(s.procs[j]) {
      match s.procs[j].phase
      case Turn => step := Exit(j);
      case Posting(left) => step := if left > 0 then Post(j) else Release(j);
      case ExitPosting(left) => step := if left > 0 then Post(j) else Release(j);
      case _ => step := Check(j);
    } else {
      NobodyOwns(s.procs);
      assert RowAgrees(s.procs[i], s.curr);
      if s.procs[i].phase.PastBarrier? {
        step := Take(i);
      } else {
        NeedsPositive(s.procs, i);
        step := Pass(i);
      }
    }
  }

  lemma {:induction false} NobodyOwns(procs: seq<Proc>)
    requires forall j :: 0 <= j < |procs| ==> !Owns(procs[j])
    ensures Owners(procs) == 0
  {
    if procs != [] {
      NobodyOwns(procs[..|procs| - 1]);
    }
  }

  // ---------------------------------------------------------------- when the system can stall

  /** Nobody in the system can move. */
  ghost predicate Stalled(s: State) {
    forall step :: Enabled(s, step) ==> step.Join?
  }

  /** The steps of processes that wait. */
  predicate OfWaiters(run: seq<Step>) {
    forall k :: 0 <= k < |run| ==> run[k].Pass? || run[k].Take? || run[k].Check?
  }

  /** The waiters alone can bring the system to a stall. */
  ghost predicate CanStall(s: State) {
    exists run :: Executable(s, run) && OfWaiters(run) && Stalled(Exec(s, run))
  }

  predicate DueAt(p: Proc, curr: int) {
    p.want <= curr
  }

  /** Nobody whose time has come is past the barrier, and the tokens, if there are any, can be spent by a
      process whose time has not come. */
  ghost predicate Doomed(s: State) {
    && (forall j :: 0 <= j < |s.procs| && s.procs[j].phase.PastBarrier? ==> !DueAt(s.procs[j], s.curr))
    && (s.barrier == 0 || exists j :: 0 <= j < |s.procs| && s.procs[j].live && !DueAt(s.procs[j], s.curr))
  }

  /** Between turns, whenever nobody owns the mutex and somebody is left: the waiters can come to a stall
      among themselves, over some interleaving, if and only if nobody past the barrier is due and either no
      token is left or the time of some process has not come. */
  lemma StallIff(now: int, run: seq<Step>, i: nat)
    requires Executable(Init(now), run)
    requires var s := Exec(Init(now), run); s.mutex == 1 && i < |s.procs| && s.procs[i].live
    ensures CanStall(Exec(Init(now), run)) <==> Doomed(Exec(Init(now), run))
  {
    var s := Exec(Init(now), run);
    InitInv(now);
    RunKeepsInv(Init(now), run);
    Unowned(s);
    if Doomed(s) {
      var waste := SpendTokens(s);
    } else {
      NotDoomed(s, i);
      forall rest | Executable(s, rest) && OfWaiters(rest) ensures !Stalled(Exec(s, rest)) {
        HopefulRun(s, rest);
        HopefulMoves(Exec(s, rest));
      }
    }
  }

  lemma Unowned(s: State)
    requires Inv(s) && s.mutex == 1
    ensures forall j :: 0 <= j < |s.procs| ==> !Owns(s.procs[j])
  {
    forall j | 0 <= j < |s.procs| ensures !Owns(s.procs[j]) {
      if Owns(s.procs[j]) {
        SoleOwner(s, j);
      }
    }
  }

  function Past(procs: seq<Proc>): nat {
    if procs == [] then 0 else Past(procs[..|procs| - 1]) + Bit(procs[|procs| - 1].phase.PastBarrier?)
  }

  lemma {:induction false} PastUpdate(procs: seq<Proc>, i: nat, p: Proc)
    requires i < |procs|
    ensures Past(procs[i := p]) == Past(procs) - Bit(procs[i].phase.PastBarrier?) + Bit(p.phase.PastBarrier?)
  {
    var n := |procs| - 1;
    if i == n {
      assert procs[i := p][..n] == procs[..n];
    } else {
      assert procs[i := p][..n] == procs[..n][i := p];
      PastUpdate(procs[..n], i, p);
    }
  }

  /** Process `j`, past the barrier before its time, is sent back to it. */
  lemma SentBack(s: State, j: nat) returns (t: State)
    requires Inv(s) && s.mutex == 1 && Doomed(s) && j < |s.procs| && s.procs[j].phase.PastBarrier?
    ensures Enabled(s, Take(j)) && Enabled(Next(s, Take(j)), Check(j)) && Next(Next(s, Take(j)), Check(j)) == t
    ensures Inv(t) && t.mutex == 1 && Doomed(t) && t.barrier == s.barrier && Past(t.procs) == Past(s.procs) - 1
  {
    var s1 := Next(s, Take(j));
    StepKeepsInv(s, Take(j));
    StepKeepsInv(s1, Check(j));
    t := Next(s1, Check(j));
    assert t.procs == s.procs[j := t.procs[j]];
    PastUpdate(s.procs, j, t.procs[j]);
  }

  /** Process `j`, whose time has not come, takes a token. */
  lemma Wasted(s: State, j: nat) returns (t: State)
    requires Inv(s) && s.mutex == 1 && Doomed(s) && s.barrier > 0
    requires j < |s.procs| && s.procs[j].phase.AtBarrier? && !DueAt(s.procs[j], s.curr)
    ensures Enabled(s, Pass(j)) && Next(s, Pass(j)) == t
    ensures Inv(t) && t.mutex == 1 && Doomed(t) && t.barrier == s.barrier - 1 && Past(t.procs) == Past(s.procs) + 1
  {
    t := Next(s, Pass(j));
    StepKeepsInv(s, Pass(j));
    PastUpdate(s.procs, j, t.procs[j]);
    assert s.procs[j].live && t.procs[j].live;
  }

  /** The tokens are spent by processes that are sent back. */
  lemma {:induction false} SpendTokens(s: State) returns (run: seq<Step>)
    requires Inv(s) && s.mutex == 1 && Doomed(s)
    ensures Executable(s, run) && OfWaiters(run) && Stalled(Exec(s, run))
    decreases 2 * s.barrier + Past(s.procs)
  {
    Unowned(s);
    if j :| 0 <= j < |s.procs| && s.procs[j].phase.PastBarrier? {
      var t := SentBack(s, j);
      var rest := SpendTokens(t);
      run := [Take(j)] + ([Check(j)] + rest);
      assert run[1..] == [Check(j)] + rest && run[1..][1..] == rest;
    } else if s.barrier == 0 {
      run := [];
    } else {
      var j :| 0 <= j < |s.procs| && s.procs[j].live && !DueAt(s.procs[j], s.curr);
      var t := Wasted(s, j);
      var rest := SpendTokens(t);
      run := [Pass(j)] + rest;
      assert run[1..] == rest;
    }
  }

  /** Its time has come, and it is on its way to its turn. */
  predicate OnItsWay(p: Proc, curr: int) {
    p.phase.Turn? || ((p.phase.PastBarrier? || p.phase.Checking?) && DueAt(p, curr))
  }

  /** Somebody will get a turn: one is on its way, or there are tokens and all who wait are due. */
  ghost predicate Hopeful(s: State) {
    || (exists j :: 0 <= j < |s.procs| && OnItsWay(s.procs[j], s.curr))
    || (&& s.barrier > 0 && (exists j :: 0 <= j < |s.procs| && s.procs[j].phase.AtBarrier?)
        && forall j :: 0 <= j < |s.procs| && Waiting(s.procs[j]) ==> DueAt(s.procs[j], s.curr))
  }

  lemma NotDoomed(s: State, i: nat)
    requires Inv(s) && s.mutex == 1 && !Doomed(s) && i < |s.procs| && s.procs[i].live
    ensures Hopeful(s)
  {
    Unowned(s);
    if j :| 0 <= j < |s.procs| && s.procs[j].phase.PastBarrier? && DueAt(s.procs[j], s.curr) {
      assert OnItsWay(s.procs[j], s.curr);
    } else {
      assert RowAgrees(s.procs[i], s.curr);
      assert s.procs[i].phase.AtBarrier?;
    }
  }

  lemma HopefulStep(s: State, step: Step)
    requires Inv(s) && Hopeful(s) && Enabled(s, step) && (step.Pass? || step.Take? || step.Check?)
    ensures Hopeful(Next(s, step))
  {
    var t := Next(s, step);
    if j :| 0 <= j < |s.procs| && OnItsWay(s.procs[j], s.curr) {
      assert OnItsWay(t.procs[j], t.curr);
    } else {
      assert Waiting(s.procs[step.i]);
      assert OnItsWay(t.procs[step.i], t.curr);
    }
  }

  lemma {:induction false} HopefulRun(s: State, run: seq<Step>)
    requires Inv(s) && Hopeful(s) && Executable(s, run) && OfWaiters(run)
    ensures Inv(Exec(s, run)) && Hopeful(Exec(s, run))
    decreases |run|
  {
    if run != [] {
      StepKeepsInv(s, run[0]);
      HopefulStep(s, run[0]);
      HopefulRun(Next(s, run[0]), run[1..]);
    }
  }

  /** An owner of the mutex can always move. */
  lemma OwnerMoves(s: State, j: nat)
    requires j < |s.procs| && Owns(s.procs[j])
    ensures !Stalled(s)
  {
    if s.procs[j].phase.Turn? {
      assert Enabled(s, Exit(j));
    } else if s.procs[j].phase.Checking? {
      assert Enabled(s, Check(j));
    } else {
      assert Enabled(s, Post(j)) || Enabled(s, Release(j));
    }
  }

  lemma HopefulMoves(s: State)
    requires Inv(s) && Hopeful(s)
    ensures !Stalled(s)
  {
    if j :| 0 <= j < |s.procs| && Owns(s.procs[j]) {
      OwnerMoves(s, j);
    } else {
      NobodyOwns(s.procs);
      if j :| 0 <= j < |s.procs| && OnItsWay(s.procs[j], s.curr) {
        assert Enabled(s, Take(j));
      } else {
        var j :| 0 <= j < |s.procs| && s.procs[j].phase.AtBarrier?;
        assert Enabled(s, Pass(j));
      }
    }
  }

  // ---------------------------------------------------------------- witnesses

  /** `run` leads from a fresh region at time `now` to `s`. */
  ghost predicate Leads(now: int, run: seq<Step>, s: State) {
    Executable(Init(now), run) && Exec(Init(now), run) == s
  }

  /** The times published in `run`, in order. */
  function Published(run: seq<Step>): seq<int> {
    if run == [] then [] else
      var last := run[|run| - 1];
      Published(run[..|run| - 1]) + if last.Publish? then [last.t] else []
  }

  lemma {:induction false} ExecAppend(s: State, run: seq<Step>, step: Step)
    requires Executable(s, run) && Enabled(Exec(s, run), step)
    ensures Executable(s, run + [step]) && Exec(s, run + [step]) == Next(Exec(s, run), step)
    decreases |run|
  {
    if run != [] {
      assert (run + [step])[1..] == run[1..] + [step];
      ExecAppend(Next(s, run[0]), run[1..], step);
    } else {
      assert (run + [step])[1..] == [];
    }
  }

  lemma Extend(now: int, run: seq<Step>, s: State, step: Step) returns (run': seq<Step>, s': State)
    requires Leads(now, run, s) && Enabled(s, step)
    ensures Leads(now, run', s') && s' == Next(s, step)
    ensures Published(run') == Published(run) + if step.Publish? then [step.t] else []
  {
    ExecAppend(Init(now), run, step);
    assert (run + [step])[..|run|] == run;
    run', s' := run + [step], Next(s, step);
  }

  /** A process joins, asks for time `t` and goes to the barrier. */
  lemma JoinAndWait(now: int, run: seq<Step>, s: State, t: int) returns (run': seq<Step>, s': State)
    requires Leads(now, run, s) && Enabled(s, Join)
    ensures Leads(now, run', s')
    ensures s' == State(s.mutex, s.barrier + 1, t, s.procs + [Proc(t, false, false, true, AtBarrier, t, 0, false)])
    ensures Published(run') == Published(run) + [t]
  {
    var i := |s.procs|;
    run', s' := Extend(now, run, s, Join);
    QuietForever(Init(now), run');
    QuietScan(s', i, t);
    run', s' := Extend(now, run', s', Publish(i, t));
    run', s' := Extend(now, run', s', Post(i));
    run', s' := Extend(now, run', s', Release(i));
  }

  /** Process `i` takes a token and the mutex, and makes its check. */
  lemma TryTurn(now: int, run: seq<Step>, s: State, i: nat) returns (run': seq<Step>, s': State)
    requires Leads(now, run, s) && Enabled(s, Pass(i)) && s.mutex > 0
    ensures Leads(now, run', s') && Published(run') == Published(run)
    ensures |s'.procs| == |s.procs| && forall j :: 0 <= j < |s.procs| && j != i ==> s'.procs[j] == s.procs[j]
    ensures s'.barrier == s.barrier - 1 && s'.procs[i].clock == s'.curr == s.curr
    ensures s'.procs[i].want == s.procs[i].want && s'.procs[i].live == s.procs[i].live
    ensures if s.procs[i].want <= s.curr then s'.procs[i].phase.Turn?
            else s'.procs[i].phase.AtBarrier? && s'.mutex == s.mutex
  {
    run', s' := Extend(now, run, s, Pass(i));
    run', s' := Extend(now, run', s', Take(i));
    run', s' := Extend(now, run', s', Check(i));
  }

  /** Two processes that publish `now + 10` and then `now + 20`, each distinct from and later than all
      before it: the first is woken with its clock at `now + 20`. */
  lemma LateWakeUp(now: int) returns (run: seq<Step>, s: State)
    ensures Leads(now, run, s) && Published(run) == [now + 10, now + 20]
    ensures |s.procs| == 2 && s.procs[0].phase.Turn? && s.procs[0].want == now + 10 && s.procs[0].clock == now + 20
  {
    run, s := JoinAndWait(now, [], Init(now), now + 10);
    run, s := JoinAndWait(now, run, s, now + 20);
    run, s := TryTurn(now, run, s, 0);
  }

  /** One process waits at the barrier for a token that is there; another joins and leaves, counts nobody,
      and so destroys the semaphores. */
  lemma AbandonedWaiter(now: int) returns (run: seq<Step>, s: State)
    ensures Leads(now, run, s)
    ensures |s.procs| == 2 && s.procs[0].live && s.procs[0].phase.AtBarrier? && s.procs[1].phase == ExitPosting(0)
  {
    run, s := JoinAndWait(now, [], Init(now), now + 10);
    run, s := Extend(now, run, s, Join);
    LeaverCountsNobody(now, run, 1);
    run, s := Extend(now, run, s, Exit(1));
  }

  /** A joiner's clock starts at zero, so its first wake time can lie in the shared past.  The other
      process then spends both tokens without getting a turn, and nobody in the system can move. */
  lemma StalledByJoiner(now: int) returns (run: seq<Step>, s: State)
    ensures Leads(now, run, s)
    ensures |s.procs| == 2 && s.procs[0].live && s.procs[1].live
    ensures Stalled(s)
  {
    run, s := JoinAndWait(now, [], Init(now), now + 100);
    run, s := JoinAndWait(now, run, s, now + 5);
    run, s := TryTurn(now, run, s, 0);
    run, s := TryTurn(now, run, s, 0);
  }

  // ---------------------------------------------------------------- the code over shared memory

  /** The shared region, changed in place under the mutex. */
  class SharedMemory {
    var mutex: nat
    var barrier: nat
    var curr: int
    var procs: seq<Proc>

    ghost function View(): State
      reads this
    {
      State(mutex, barrier, curr, procs)
    }

    constructor (now: int)
      ensures View() == Init(now)
    {
      mutex, barrier, curr, procs := 1, 0, now, [];
    }

    /** setup_shared_state, from the wait on the mutex on. */
    method SetupSharedState() returns (me: nat)
      requires Enabled(View(), Join)
      modifies this
      ensures View() == Next(old(View()), Join) && me == |old(procs)|
    {
      mutex := mutex - 1;
      me := |procs|;
      procs := procs + [Proc(curr, true, true, true, Turn, curr, 0, false)];
    }

    /** The scan loop of ET_gvirt_block. */
    method ScanTable() returns (smallest: int, procCnt: nat)
      ensures smallest == Smallest(procs, |procs|) && procCnt == ActiveCount(procs, |procs|)
    {
      smallest, procCnt := -1, 0;
      for i := 0 to |procs|
        invariant smallest == Smallest(procs, i) && procCnt == ActiveCount(procs, i)
      {
        if procs[i].live && procs[i].active {
          procCnt := procCnt + 1;
          if smallest < 0 || procs[i].nextTime < procs[smallest].nextTime {
            smallest := i;
          }
        }
      }
    }

    /** ET_gvirt_block up to the point where the tokens are posted. */
    method PublishTime(me: nat, nextAwake: int)
      requires Inv(View()) && Enabled(View(), Publish(me, nextAwake))
      modifies this
      ensures View() == Next(old(View()), Publish(me, nextAwake))
    {
      PublishKeepsInv(View(), me, nextAwake);
      procs := procs[me := procs[me].(nextTime := nextAwake, want := nextAwake)];
      var smallest, procCnt := ScanTable();
      curr := procs[smallest].nextTime;
      procs := procs[smallest := procs[smallest].(active := false)];
      procs := procs[me := procs[me].(phase := Posting(procCnt))];
    }

    /** cleanup_shared_state up to the point where the tokens are posted. */
    method CleanupSharedState(me: nat)
      requires Enabled(View(), Exit(me))
      modifies this
      ensures View() == Next(old(View()), Exit(me))
    {
      procs := procs[me := procs[me].(active := false, live := false)];
      var cnt := 0;
      for i := 0 to |procs|
        invariant cnt == ActiveCount(procs, i) && View() == old(View()).(procs := Resigned(old(procs), me))
      {
        if procs[i].live && procs[i].active {
          cnt := cnt + 1;
        }
      }
      procs := procs[me := procs[me].(phase := ExitPosting(cnt))];
    }

    /** The check made with the mutex in hand after a pass through the barrier. */
    method CheckTurn(me: nat) returns (turn: bool)
      requires Inv(View()) && Enabled(View(), Check(me))
      modifies this
      ensures View() == Next(old(View()), Check(me))
      ensures turn == Resumes(old(View()), Check(me))
    {
      procs := procs[me := procs[me].(clock := curr)];
      turn := procs[me].want <= curr;
      if turn {
        procs := procs[me := procs[me].(active := true, holdsMutex := true, phase := Turn, synced := true)];
      } else {
        procs := procs[me := procs[me].(phase := AtBarrier)];
        mutex := mutex + 1;
      }
    }
  }
}
