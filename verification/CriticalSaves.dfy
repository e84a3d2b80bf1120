/**
 What a whole save, boot and shutdown of module Critical leave behind, step by step failures included:
 which families hold the entry, what is acknowledged, and which old files are gone.
 */
module CriticalSaves {
  import opened Common
  import opened Critical

  // ---------------------------------------------------------------- saves with failures

  /** The steps of a save or a cleanup on its way: no crash, no rot, and nothing new begun. */
  predicate Working(step: Step) {
    || step.Create? || step.CreateFails? || step.Write? || step.WriteFails? || step.Unlink? || step.Close?
    || step.OpenDir? || step.SweepOne? || step.SweepEnd?
  }

  predicate AllWorking(run: seq<Step>) {
    forall i :: 0 <= i < |run| ==> Working(run[i])
  }

  /** The family that is being written has failed: its file is about to be unlinked. */
  predicate Failing(s: State, f: nat) {
    s.pc.Unlinking? && s.pc.f == f
  }

  /** Some file of family `f` cannot be created, or is unlinked after a bad write, in the run. */
  ghost predicate Fails(s: State, run: seq<Step>, f: nat)
    requires Executable(s, run)
    decreases |run|
  {
    || Failing(s, f)
    || (run != [] && ((run[0].CreateFails? && s.pc.f == f) || Fails(Next(s, run[0]), run[1..], f)))
  }

  /** The current file of family `f` is new since `s0`, and is four intact copies of `e`. */
  ghost predicate Saved(s0: State, s: State, f: nat, e: Entry)
    requires f < |s0.disk| && f < |s.disk| && f < |s.curr|
  {
    && s.curr[f].Some? && s.curr[f].value !in s0.disk[f] && s.curr[f].value in s.disk[f]
    && s.disk[f][s.curr[f].value] == [Good(e), Good(e), Good(e), Good(e)]
  }

  /** Every save.  A save that ends without a crash or rot is acknowledged if and only if a file of the
      first family could be written; then that family's current file is four copies of the caller's
      bytes, and the copy in memory is that entry.  So is the second family's, unless it could not be written:
      then its current file is the old one, and the state is dirty. */
  lemma SaveOutcome(s: State, data: seq<Byte>, run: seq<Step>)
    requires Enabled(s, BeginSave(data)) && AllWorking(run)
    requires Executable(Next(s, BeginSave(data)), run) && Exec(Next(s, BeginSave(data)), run).pc.Idle?
    ensures var s1 := Next(s, BeginSave(data));
            var t, e := Exec(s1, run), Entry(s.version + 1, Pad(data));
            && Shape(t) && t.version == s.version + 1 && s1.attempts == s.attempts + {e}
            && |e.data| == 224 && data <= e.data && (forall i :: |data| <= i < 224 ==> e.data[i] == 0)
            && Ended(s, t, e, Fails(s1, run, 0), Fails(s1, run, 1))
  {
    SaveRun(s, Next(s, BeginSave(data)), Entry(s.version + 1, Pad(data)), run);
  }

  ghost predicate Ended(s0: State, t: State, e: Entry, fail0: bool, fail1: bool)
    requires Shape(s0) && Shape(t)
  {
    if fail0 then t.acked == s0.acked && t.cache == s0.cache && t.dirty == s0.dirty && t.curr == s0.curr
    else
      && t.acked == e && t.cache == Sound(e) && Saved(s0, t, 0, e)
      && t.dirty == (s0.dirty || fail1)
      && (if fail1 then t.curr[1] == s0.curr[1] else Saved(s0, t, 1, e))
  }

  /** In the middle of the save of `e` that began in `s0`. */
  ghost predicate Midway(s0: State, s: State, e: Entry) {
    && Shape(s0) && Shape(s) && Current(s.pc) == Some(e)
    && s.version == e.ver && s.acked == s0.acked && s.cache == s0.cache && s.dirty == s0.dirty
    && (s.pc.f == 0 ==> s.curr[1] == s0.curr[1] && s.disk[1] == s0.disk[1])
    && (s.pc.f == 1 ==> Saved(s0, s, 0, e))
    && (s.pc.Creating? || s.pc.Writing? || s.pc.Unlinking? ==> s.curr[s.pc.f] == s0.curr[s.pc.f])
    && (s.pc.Creating? ==> s.disk[s.pc.f] == s0.disk[s.pc.f])
    && (s.pc.Writing? ==>
          && s.pc.name !in s0.disk[s.pc.f] && s.pc.copies <= 4
          && s.disk[s.pc.f][s.pc.name] == seq(s.pc.copies, _ => Good(e)))
    && (s.pc.Opening? || s.pc.Sweeping? ==> Saved(s0, s, s.pc.f, e))
    && (s.pc.Sweeping? ==> s.curr[s.pc.f].value !in s.pc.todo)
  }

  lemma FourCopies(e: Entry)
    ensures seq(4, _ => Good(e)) == [Good(e), Good(e), Good(e), Good(e)]
  {}

  lemma WrittenMidway(s0: State, s: State, e: Entry)
    requires Midway(s0, s, e) && Enabled(s, Write)
    ensures Midway(s0, Next(s, Write), e)
  {
    assert seq(s.pc.copies, _ => Good(e)) + [Good(e)] == seq(s.pc.copies + 1, _ => Good(e));
  }

  lemma ClosedMidway(s0: State, s: State, e: Entry)
    requires Midway(s0, s, e) && Enabled(s, Close)
    ensures var t := Next(s, Close); if t.pc.Idle? then Ended(s0, t, e, false, false) else Midway(s0, t, e)
  {
    FourCopies(e);
  }

  /** One step goes on with the save, or ends it as it should. */
  lemma MidwayStep(s0: State, s: State, e: Entry, step: Step)
    requires Midway(s0, s, e) && Enabled(s, step) && Working(step)
    ensures var t := Next(s, step);
            if t.pc.Idle? then
              && Shape(t) && t.version == e.ver && s.pc.f < 2
              && var fails := step.CreateFails? || Failing(s, s.pc.f);
                 Ended(s0, t, e, fails && s.pc.f == 0, fails && s.pc.f == 1)
            else Midway(s0, t, e) && s.pc.f <= t.pc.f && !Failing(s, s.pc.f) && !step.CreateFails?
  {
    if step.Write? {
      WrittenMidway(s0, s, e);
    } else if step.Close? {
      ClosedMidway(s0, s, e);
    }
  }

  lemma {:induction false} SaveRun(s0: State, s: State, e: Entry, run: seq<Step>)
    requires Midway(s0, s, e) && Executable(s, run) && AllWorking(run) && Exec(s, run).pc.Idle?
    ensures Shape(Exec(s, run)) && Exec(s, run).version == e.ver
    ensures Ended(s0, Exec(s, run), e, Fails(s, run, 0), Fails(s, run, 1))
    ensures s.pc.f == 1 ==> !Fails(s, run, 0)
    decreases |run|
  {
    hide Ended;
    hide Next;
    hide Enabled;
    var t := Next(s, run[0]);
    MidwayStep(s0, s, e, run[0]);
    if t.pc.Idle? {
      IdleEnds(t, run[1..]);
    } else {
      SaveRun(s0, t, e, run[1..]);
    }
  }

  lemma IdleEnds(t: State, run: seq<Step>)
    requires t.pc.Idle? && Executable(t, run) && AllWorking(run)
    ensures run == []
  {}

  // ---------------------------------------------------------------- the whole disk

  /** Directories can be opened and files unlinked. */
  predicate Tidy(step: Step) {
    step.OpenDir? || step.SweepOne? || step.Unlink? ==> step.ok
  }

  predicate AllTidy(run: seq<Step>) {
    forall i :: 0 <= i < |run| ==> Working(run[i]) && Tidy(run[i])
  }

  ghost predicate Untouched(s0: State, s: State, f: nat)
    requires Shape(s0) && Shape(s) && f < 2
  {
    s.disk[f] == s0.disk[f] && s.curr[f] == s0.curr[f] && s.gen[f] == s0.gen[f]
  }

  /** Family `f` has one new file, four copies of `e`, which is current; every seventh time the old files
      are gone. */
  ghost predicate Renewed(s0: State, s: State, f: nat, e: Entry)
    requires Shape(s0) && Shape(s) && f < 2
  {
    && s.curr[f].Some? && s.curr[f].value !in s0.disk[f]
    && var n, four := s.curr[f].value, [Good(e), Good(e), Good(e), Good(e)];
       if s0.gen[f] < 6 then s.disk[f] == s0.disk[f][n := four] && s.gen[f] == s0.gen[f] + 1
       else s.disk[f] == map[n := four] && s.gen[f] == 0
  }

  /** Every save, when directories can be opened and files unlinked: the whole disk afterwards.  A family
      that could not be written is as it was before, and so is the second if the first failed. */
  lemma SaveLeaves(s: State, data: seq<Byte>, run: seq<Step>)
    requires Enabled(s, BeginSave(data)) && AllTidy(run)
    requires Executable(Next(s, BeginSave(data)), run) && Exec(Next(s, BeginSave(data)), run).pc.Idle?
    ensures Shape(Exec(Next(s, BeginSave(data)), run))
    ensures var s1 := Next(s, BeginSave(data));
            var t, e := Exec(s1, run), Entry(s.version + 1, Pad(data));
            NeatEnd(s, t, e, Fails(s1, run, 0), Fails(s1, run, 1))
  {
    var s1, e := Next(s, BeginSave(data)), Entry(s.version + 1, Pad(data));
    SaveRun(s, s1, e, run);
    NeatRun(s, s1, e, run);
  }

  /** Midway, and nothing else on the disk has changed. */
  ghost predicate Neat(s0: State, s: State, e: Entry) {
    && Midway(s0, s, e)
    && (s.pc.f == 0 ==> Untouched(s0, s, 1))
    && (s.pc.f == 1 ==> Renewed(s0, s, 0, e))
    && (s.pc.Creating? ==> Untouched(s0, s, s.pc.f))
    && (s.pc.Writing? || s.pc.Unlinking? ==>
          && s.gen[s.pc.f] == s0.gen[s.pc.f] && s.pc.name !in s0.disk[s.pc.f]
          && s.disk[s.pc.f] == s0.disk[s.pc.f][s.pc.name := s.disk[s.pc.f][s.pc.name]])
    && (s.pc.Opening? ==>
          && s.gen[s.pc.f] == s0.gen[s.pc.f] + 1 >= 7
          && s.disk[s.pc.f].Keys == s0.disk[s.pc.f].Keys + {s.curr[s.pc.f].value})
    && (s.pc.Sweeping? ==> s0.gen[s.pc.f] >= 6 && s.disk[s.pc.f].Keys == {s.curr[s.pc.f].value} + s.pc.todo)
  }

  ghost predicate NeatEnd(s0: State, t: State, e: Entry, fail0: bool, fail1: bool)
    requires Shape(s0) && Shape(t)
  {
    if fail0 then Untouched(s0, t, 0) && Untouched(s0, t, 1)
    else Renewed(s0, t, 0, e) && if fail1 then Untouched(s0, t, 1) else Renewed(s0, t, 1, e)
  }

  ghost predicate NeatAfter(s0: State, s: State, e: Entry, step: Step)
    requires Shape(s0) && Enabled(s, step) && Current(s.pc).Some?
  {
    var t := Next(s, step);
    if t.pc.Idle? then
      && Shape(t)
      && var fails := step.CreateFails? || Failing(s, s.pc.f);
         NeatEnd(s0, t, e, fails && s.pc.f == 0, fails && s.pc.f == 1)
    else Neat(s0, t, e)
  }

  lemma NeatWriting(s0: State, s: State, e: Entry, step: Step)
    requires Neat(s0, s, e) && Enabled(s, step) && (step.Create? || step.Write? || step.WriteFails?)
    ensures NeatAfter(s0, s, e, step)
  {
    MidwayStep(s0, s, e, step);
  }

  lemma NeatClosing(s0: State, s: State, e: Entry)
    requires Neat(s0, s, e) && Enabled(s, Close)
    ensures NeatAfter(s0, s, e, Close)
  {
    MidwayStep(s0, s, e, Close);
    FourCopies(e);
  }

  lemma NeatFailing(s0: State, s: State, e: Entry, step: Step)
    requires Neat(s0, s, e) && Enabled(s, step) && (step.CreateFails? || step == Unlink(true))
    ensures NeatAfter(s0, s, e, step)
  {
    if step.Unlink? {
      assert s.disk[s.pc.f] - {s.pc.name} == s0.disk[s.pc.f];
    }
  }

  lemma NeatSweeping(s0: State, s: State, e: Entry, step: Step)
    requires Neat(s0, s, e) && Enabled(s, step) && Tidy(step) && (step.OpenDir? || step.SweepOne? || step.SweepEnd?)
    ensures NeatAfter(s0, s, e, step)
  {
    MidwayStep(s0, s, e, step);
    if step.SweepEnd? {
      assert s.disk[s.pc.f] == map[s.curr[s.pc.f].value := s.disk[s.pc.f][s.curr[s.pc.f].value]];
    }
  }

  lemma NeatStep(s0: State, s: State, e: Entry, step: Step)
    requires Neat(s0, s, e) && Enabled(s, step) && Working(step) && Tidy(step)
    ensures NeatAfter(s0, s, e, step)
  {
    hide NeatAfter;
    hide Neat;
    hide Enabled;
    if step.Create? || step.Write? || step.WriteFails? {
      NeatWriting(s0, s, e, step);
    } else if step.Close? {
      NeatClosing(s0, s, e);
    } else if step.CreateFails? || step.Unlink? {
      NeatFailing(s0, s, e, step);
    } else {
      NeatSweeping(s0, s, e, step);
    }
  }

  lemma {:induction false} NeatRun(s0: State, s: State, e: Entry, run: seq<Step>)
    requires Neat(s0, s, e) && Executable(s, run) && AllTidy(run) && Exec(s, run).pc.Idle?
    ensures Shape(Exec(s, run)) && NeatEnd(s0, Exec(s, run), e, Fails(s, run, 0), Fails(s, run, 1))
    ensures s.pc.f == 1 ==> !Fails(s, run, 0)
    decreases |run|
  {
    hide NeatEnd;
    hide Next;
    hide Enabled;
    var t := Next(s, run[0]);
    MidwayStep(s0, s, e, run[0]);
    NeatStep(s0, s, e, run[0]);
    if t.pc.Idle? {
      IdleEnds(t, run[1..]);
    } else {
      NeatRun(s0, t, e, run[1..]);
    }
  }

  // ---------------------------------------------------------------- boot and shutdown

  /** Of the family only the current file is left; nothing is touched if there is none. */
  ghost predicate Swept(s0: State, s: State, f: nat)
    requires Shape(s0) && Shape(s) && f < 2
  {
    && s.curr[f] == s0.curr[f]
    && if s0.curr[f].None? then s.disk[f] == s0.disk[f] && s.gen[f] == s0.gen[f]
       else
         && s.disk[f].Keys == s0.disk[f].Keys * {s0.curr[f].value} && s.gen[f] == 0
         && (forall n :: n in s.disk[f] ==> s.disk[f][n] == s0.disk[f][n])
  }

  /** In the middle of the cleanup that began in `s0`. */
  ghost predicate Cleaning(s0: State, s: State, why: Why) {
    && Shape(s0) && Shape(s) && (s.pc.Opening? || s.pc.Sweeping?) && s.pc.why == why
    && s.(pc := s0.pc, disk := s0.disk, gen := s0.gen) == s0
    && (s.pc.f == 0 ==> s.disk[1] == s0.disk[1] && s.gen[1] == s0.gen[1])
    && (s.pc.f == 1 ==> Swept(s0, s, 0))
    && (s.pc.Opening? ==> s.disk[s.pc.f] == s0.disk[s.pc.f] && s.gen[s.pc.f] == s0.gen[s.pc.f])
    && (s.pc.Sweeping? ==>
          && s.curr[s.pc.f].Some?
          && s.disk[s.pc.f].Keys == s0.disk[s.pc.f].Keys * {s.curr[s.pc.f].value} + s.pc.todo
          && s.curr[s.pc.f].value !in s.pc.todo
          && (forall n :: n in s.disk[s.pc.f] ==> n in s0.disk[s.pc.f] && s.disk[s.pc.f][n] == s0.disk[s.pc.f][n]))
  }

  ghost predicate Cleaned(s0: State, t: State) {
    && Shape(s0) && Shape(t) && t.(pc := s0.pc, disk := s0.disk, gen := s0.gen) == s0
    && Swept(s0, t, 0) && Swept(s0, t, 1)
  }

  predicate Through(pc: Pc, why: Why) {
    if why.AtBoot? then pc.Idle? else pc.Down?
  }

  lemma CleaningStep(s0: State, s: State, why: Why, step: Step)
    requires Cleaning(s0, s, why) && !why.InSave? && Enabled(s, step) && Working(step) && Tidy(step)
    ensures var t := Next(s, step); if Through(t.pc, why) then Cleaned(s0, t) else Cleaning(s0, t, why)
  {}

  lemma {:induction false} CleaningRun(s0: State, s: State, why: Why, run: seq<Step>)
    requires Cleaning(s0, s, why) && !why.InSave? && Executable(s, run) && AllTidy(run) && Through(Exec(s, run).pc, why)
    ensures Cleaned(s0, Exec(s, run))
    decreases |run|
  {
    hide Cleaned;
    hide Next;
    hide Enabled;
    var t := Next(s, run[0]);
    CleaningStep(s0, s, why, run[0]);
    if Through(t.pc, why) {
      ThroughEnds(t, why, run[1..]);
    } else {
      CleaningRun(s0, t, why, run[1..]);
    }
  }

  lemma ThroughEnds(t: State, why: Why, run: seq<Step>)
    requires Through(t.pc, why) && Executable(t, run) && AllTidy(run)
    ensures run == []
  {}

  /** A boot: the newest entry of the disk is in memory with its version, the state is not dirty, and of
      each family only the file that showed it is left. */
  lemma BootLeaves(s: State, orders: seq<seq<Name>>, run: seq<Step>)
    requires Enabled(s, Boot(orders)) && AllTidy(run) && (forall e :: On(s.disk, e) ==> e.ver > 0)
    requires Executable(Next(s, Boot(orders)), run) && Exec(Next(s, Boot(orders)), run).pc.Idle?
    ensures var t := Exec(Next(s, Boot(orders)), run);
            var (a, curr) := Load(Blank().data, [None, None], s.disk, orders);
            && t.version == a.ver && !t.dirty && t.curr == curr && t.acked == s.acked
            && (forall e :: On(s.disk, e) ==> e.ver <= t.version)
            && (t.version == 0 <==> forall e :: !On(s.disk, e))
            && t.cache == (if a.ver == 0 then Rotten(seq(224, _ => 0)) else Sound(a)) && (a.ver > 0 ==> On(s.disk, a))
            && Shape(t) && Swept(s.(curr := curr, gen := [0, 0]), t, 0) && Swept(s.(curr := curr, gen := [0, 0]), t, 1)
  {
    var s1 := Next(s, Boot(orders));
    LoadFinds(s.disk, [None, None], Blank().data, orders, 0);
    CleaningRun(s1, s1, AtBoot, run);
  }

  /** A shutdown leaves only the current files. */
  lemma ShutdownLeaves(s: State, run: seq<Step>)
    requires Enabled(s, Shutdown) && AllTidy(run)
    requires Executable(Next(s, Shutdown), run) && Exec(Next(s, Shutdown), run).pc.Down?
    ensures var t := Exec(Next(s, Shutdown), run);
            Shape(t) && t.acked == s.acked && Swept(s, t, 0) && Swept(s, t, 1)
  {
    var s1 := Next(s, Shutdown);
    CleaningRun(s1, s1, AtShutdown, run);
  }

  // ---------------------------------------------------------------- which file is current

  /** The file shows an entry of this version. */
  ghost predicate ShowsVersion(files: Files, n: Name, ver: nat) {
    n in files && exists e :: Shows(files[n], e) && e.ver == ver
  }

  /** After a load the current file is the last one listed that shows the newest version; if none does it
      is the one of before. */
  lemma {:induction false} LastHit(a: Entry, curr: Option<Name>, files: Files, order: seq<Name>)
    ensures var (a', curr') := LoadDirectory(a, curr, files, order);
            if exists k :: 0 <= k < |order| && ShowsVersion(files, order[k], a'.ver) then
              exists k :: 0 <= k < |order| && curr' == Some(order[k]) && ShowsVersion(files, order[k], a'.ver)
                          && forall m :: k < m < |order| ==> !ShowsVersion(files, order[m], a'.ver)
            else curr' == curr
    decreases |order|
  {
    if order != [] {
      var n, rest := order[0], order[1..];
      var (a1, hit) := if n in files then LoadFile(a, files[n]) else (a, false);
      var curr1 := if hit then Some(n) else curr;
      if n in files {
        LoadFileMeaning(a, files[n]);
      }
      LoadDirectoryMeaning(a1, curr1, files, rest);
      LastHit(a1, curr1, files, rest);
      var (a', curr') := LoadDirectory(a1, curr1, files, rest);
      if k :| 0 <= k < |rest| && ShowsVersion(files, rest[k], a'.ver) {
        var k' :| 0 <= k' < |rest| && curr' == Some(rest[k']) && ShowsVersion(files, rest[k'], a'.ver)
                  && forall m :: k' < m < |rest| ==> !ShowsVersion(files, rest[m], a'.ver);
        assert order[k' + 1] == rest[k'];
        forall m | k' + 1 < m < |order| ensures !ShowsVersion(files, order[m], a'.ver) {
          assert order[m] == rest[m - 1];
        }
      } else {
        assert curr' == curr1 && a' == a1;
        forall m | 0 < m < |order| ensures !ShowsVersion(files, order[m], a'.ver) {
          assert order[m] == rest[m - 1];
        }
        assert ShowsVersion(files, order[0], a'.ver) <==> hit;
      }
    }
  }

  // ---------------------------------------------------------------- what is read back

  /** A save that was acknowledged is read back: right after it, over every earlier run, with the second
      family written or not, and whatever happens to the copy in memory meanwhile. */
  lemma SavedIsRead(before: seq<Step>, data: seq<Byte>, run: seq<Step>, orders: seq<seq<Name>>, rotten: bool,
                    bad: seq<Byte>)
    requires Executable(Fresh(), before) && Enabled(Exec(Fresh(), before), BeginSave(data)) && AllWorking(run)
    requires var s1 := Next(Exec(Fresh(), before), BeginSave(data));
             Executable(s1, run) && Exec(s1, run).pc.Idle? && !Fails(s1, run, 0) && Listings(orders, Exec(s1, run).disk)
    ensures var s := Exec(Fresh(), before);
            var t := Exec(Next(s, BeginSave(data)), run);
            && Shape(t)
            && var t' := AfterRead(if rotten then t.(cache := Rotten(bad)) else t, orders);
               t'.cache == Sound(Entry(s.version + 1, Pad(data))) && !t'.dirty && t'.version == s.version + 1
  {
    hide Inv;
    hide AfterRead;
    hide Next;
    hide Enabled;
    var s := Exec(Fresh(), before);
    var s1 := Next(s, BeginSave(data));
    FreshInv();
    RunInv(Fresh(), before);
    StepInv(s, BeginSave(data));
    RunInv(s1, run);
    SaveOutcome(s, data, run);
    ReadsAcked(Exec(s1, run), orders, rotten, bad);
  }

  /** Reading gives the last acknowledged entry back, when it is the newest there is. */
  lemma ReadsAcked(t: State, orders: seq<seq<Name>>, rotten: bool, bad: seq<Byte>)
    requires Inv(t) && t.pc.Idle? && t.acked.ver == t.version > 0 && t.cache == Sound(t.acked)
    requires Listings(orders, t.disk)
    ensures var t' := AfterRead(if rotten then t.(cache := Rotten(bad)) else t, orders);
            t'.cache == Sound(t.acked) && !t'.dirty && t'.version == t.version
  {
    var u := if rotten then t.(cache := Rotten(bad)) else t;
    if rotten {
      RotCacheInv(t, bad);
    }
    LoadsAcked(u, CacheData(u.cache), orders);
  }

  /** With the last acknowledged entry the newest there is, loading takes it. */
  lemma LoadsAcked(s: State, data: seq<Byte>, orders: seq<seq<Name>>)
    requires Inv(s) && s.pc.Idle? && s.acked.ver == s.version > 0 && Listings(orders, s.disk)
    ensures var t := AfterLoad(s, s.curr, data, orders);
            t.cache == Sound(s.acked) && t.version == s.version && !t.dirty
  {
    KeptSomewhere(s);
    LoadFinds(s.disk, s.curr, data, orders, s.acked.ver);
  }
}
