/**
 The crash-tolerant critical state of critical.c: versioned, checksummed entries, written as four
 copies in one file of each of two families, reloaded and cleaned up after a crash at any point.

 The checksum is abstract: a full-size record on disk either is an entry exactly as some save wrote
 it (`Good`), or fails the checksum (`Damaged`); a record cut short by a failed write or a crash is
 `Partial`, and reading a file stops there.
 */
module Critical {
  import opened Common

  const NUM_COPIES: nat := 4
  const CLEANUP_INTERVAL: nat := 6
  const NUM_FILES: nat := 2
  const MAX_LEN: nat := 224

  datatype Entry = Entry(ver: nat, data: seq<Byte>)
  datatype Chunk = Good(e: Entry) | Damaged | Partial

  type File = seq<Chunk>
  type Name = int
  type Files = map<Name, File>

  // ---------------------------------------------------------------- reading

  /** What a reader of the file sees: everything before the first short record. */
  function Visible(file: File): seq<Chunk> {
    if file == [] || file[0].Partial? then [] else [file[0]] + Visible(file[1..])
  }

  /** process_critical_entry: the entry to hold from now on, and whether the record was current. */
  function ProcessEntry(a: Entry, c: Chunk): (Entry, bool) {
    if !c.Good? || c.e.ver < a.ver then (a, false)
    else if c.e.ver == a.ver then (a, true)
    else (c.e, true)
  }

  function LoadFile(a: Entry, file: File): (Entry, bool)
    decreases |file|
  {
    if file == [] || file[0].Partial? then (a, false) else
      var (a1, h1) := ProcessEntry(a, file[0]);
      var (a2, h2) := LoadFile(a1, file[1..]);
      (a2, h1 || h2)
  }

  function LoadDirectory(a: Entry, curr: Option<Name>, files: Files, order: seq<Name>): (Entry, Option<Name>)
    decreases |order|
  {
    if order == [] then (a, curr)
    else if order[0] !in files then LoadDirectory(a, curr, files, order[1..])
    else
      var (a1, hit) := LoadFile(a, files[order[0]]);
      LoadDirectory(a1, if hit then Some(order[0]) else curr, files, order[1..])
  }

  /** load_critical_state: both directories in turn, the version found in the first carried into the second. */
  function Load(data: seq<Byte>, curr: seq<Option<Name>>, disk: seq<Files>,
                orders: seq<seq<Name>>): (Entry, seq<Option<Name>>)
    requires |curr| == |disk| == |orders| == NUM_FILES
  {
    var (a0, c0) := LoadDirectory(Entry(0, data), curr[0], disk[0], orders[0]);
    var (a1, c1) := LoadDirectory(a0, curr[1], disk[1], orders[1]);
    (a1, [c0, c1])
  }

  ghost predicate Shows(file: File, e: Entry) {
    Good(e) in Visible(file)
  }

  lemma {:induction false} LoadFileMeaning(a: Entry, file: File)
    ensures var (a', hit) := LoadFile(a, file);
            && (forall e :: Shows(file, e) ==> e.ver <= a'.ver)
            && (hit ==> a.ver <= a'.ver && exists e :: Shows(file, e) && e.ver == a'.ver)
            && (!hit ==> a' == a && forall e :: Shows(file, e) ==> e.ver < a.ver)
            && (a' == a || (a.ver < a'.ver && Shows(file, a')))
    decreases |file|
  {
    if file != [] && !file[0].Partial? {
      var (a1, h1) := ProcessEntry(a, file[0]);
      LoadFileMeaning(a1, file[1..]);
      forall e ensures Shows(file, e) <==> file[0] == Good(e) || Shows(file[1..], e) {}
    }
  }

  /** Every readable entry of the listed files is at most the one held in the end; the current file
      holds that version, unless the directory had nothing as new as what was already known. */
  ghost predicate Loaded(a: Entry, curr: Option<Name>, files: Files, order: seq<Name>, a': Entry, curr': Option<Name>) {
    && (forall n, e :: n in order && n in files && Shows(files[n], e) ==> e.ver <= a'.ver)
    && (a' == a || (a.ver < a'.ver && exists n :: n in order && n in files && Shows(files[n], a')))
    && ((curr' == curr && a' == a && forall n, e :: n in order && n in files && Shows(files[n], e) ==> e.ver < a.ver)
        || (&& curr'.Some? && curr'.value in order && curr'.value in files
            && exists e :: Shows(files[curr'.value], e) && e.ver == a'.ver))
  }

  lemma {:induction false} LoadDirectoryMeaning(a: Entry, curr: Option<Name>, files: Files, order: seq<Name>)
    ensures var (a', curr') := LoadDirectory(a, curr, files, order);
            Loaded(a, curr, files, order, a', curr')
    decreases |order|
  {
    if order != [] {
      var n, rest := order[0], order[1..];
      assert forall m :: m in order <==> m == n || m in rest;
      if n !in files {
        LoadDirectoryMeaning(a, curr, files, rest);
      } else {
        LoadFileMeaning(a, files[n]);
        var (a1, hit) := LoadFile(a, files[n]);
        LoadDirectoryMeaning(a1, if hit then Some(n) else curr, files, rest);
      }
    }
  }

  // ---------------------------------------------------------------- the process and its disk

  /** Why a directory is being cleaned up. */
  datatype Why = InSave(e: Entry) | AtBoot | AtShutdown

  /** What the process is in the middle of; `f` is the file family it works on. */
  datatype Pc =
    | Down
    | Idle
    | Creating(f: nat, e: Entry)
    | Writing(f: nat, e: Entry, name: Name, copies: nat)
    | Unlinking(f: nat, e: Entry, name: Name)
    | Opening(f: nat, why: Why)
    | Sweeping(f: nat, why: Why, todo: set<Name>)

  /** The cached copy of the state, with the version it came from; `Rotten` fails its checksum. */
  datatype Cache = Sound(e: Entry) | Rotten(data: seq<Byte>)

  /** CSState, the disk, and the history: every entry a save set out to write, the last of them under
      each version, and the entry of the last save that returned success (version 0 if none did). */
  datatype State = State(version: nat, dirty: bool, curr: seq<Option<Name>>, gen: seq<nat>, cache: Cache,
                         pc: Pc, disk: seq<Files>, attempts: set<Entry>, book: map<int, Entry>, acked: Entry)

  datatype Step =
    | Boot(orders: seq<seq<Name>>)
    | BeginSave(data: seq<Byte>)
    | Create(name: Name)
    | CreateFails
    | Write
    | WriteFails(torn: bool)
    | Unlink(ok: bool)
    | Close
    | OpenDir(ok: bool)
    | SweepOne(n: Name, ok: bool)
    | SweepEnd
    | Reload(orders: seq<seq<Name>>)
    | Shutdown
    | Crash(torn: bool)
    | Rot(rf: nat, rn: Name, k: nat)
    | RotCache(bad: seq<Byte>)

  /** The caller's bytes in a zeroed record. */
  function Pad(data: seq<Byte>): (r: seq<Byte>)
    requires |data| <= MAX_LEN
    ensures |r| == MAX_LEN && data <= r && forall i :: |data| <= i < MAX_LEN ==> r[i] == 0
  {
    data + seq(MAX_LEN - |data|, _ => 0)
  }

  function Blank(): Entry {
    Entry(0, seq(MAX_LEN, _ => 0))
  }

  function Fresh(): State {
    State(0, false, [None, None], [0, 0], Rotten(Blank().data), Down, [map[], map[]], {}, map[], Blank())
  }

  // ---------------------------------------------------------------- steps

  ghost predicate Listing(order: seq<Name>, files: Files) {
    forall n :: n in files <==> n in order
  }

  ghost predicate Listings(orders: seq<seq<Name>>, disk: seq<Files>) {
    |disk| == |orders| == NUM_FILES && Listing(orders[0], disk[0]) && Listing(orders[1], disk[1])
  }

  /** A save is past its first family: its entry is as good as saved. */
  predicate Committed(pc: Pc) {
    ((pc.Opening? || pc.Sweeping?) && pc.why.InSave?) || ((pc.Creating? || pc.Writing? || pc.Unlinking?) && pc.f > 0)
  }

  function SaveEntry(pc: Pc): Entry
    requires Committed(pc)
  {
    if pc.Opening? || pc.Sweeping? then pc.why.e else pc.e
  }

  /** The version that must survive: the last acknowledged one, or the one about to be. */
  function Floor(s: State): nat {
    if Committed(s.pc) && s.acked.ver <= SaveEntry(s.pc).ver then SaveEntry(s.pc).ver else s.acked.ver
  }

  ghost predicate KeptIn(files: Files, curr: Option<Name>, floor: nat) {
    curr.Some? && curr.value in files && exists e :: Shows(files[curr.value], e) && floor <= e.ver
  }

  ghost predicate KeptAnywhere(files: Files, floor: nat) {
    exists n, e :: n in files && Shows(files[n], e) && floor <= e.ver
  }

  /** Some intact copy at least as new as `Floor` is left: in a current file of a live process, in any
      file of a dead one. */
  ghost predicate Kept(s: State)
    requires |s.disk| == |s.curr| == NUM_FILES
  {
    || Floor(s) == 0
    || KeptIn(s.disk[0], s.curr[0], Floor(s)) || KeptIn(s.disk[1], s.curr[1], Floor(s))
    || (s.pc.Down? && (KeptAnywhere(s.disk[0], Floor(s)) || KeptAnywhere(s.disk[1], Floor(s))))
  }

  ghost predicate Shape(s: State) {
    && |s.disk| == |s.curr| == |s.gen| == NUM_FILES
    && (!s.pc.Down? && !s.pc.Idle? ==> s.pc.f < NUM_FILES)
    && (s.pc.Writing? || s.pc.Unlinking? ==> s.pc.name in s.disk[s.pc.f])
  }

  /** The file being written has an intact copy, unless the first family holds one already. */
  ghost predicate WriterSafe(s: State)
    requires Shape(s)
  {
    s.pc.Writing? && s.pc.copies > 0 ==>
      || Good(s.pc.e) in s.disk[s.pc.f][s.pc.name]
      || (s.pc.f > 0 && KeptIn(s.disk[0], s.curr[0], s.pc.e.ver))
  }

  function Rotted(s: State, f: nat, n: Name, k: nat): State
    requires f < |s.disk| && n in s.disk[f] && k < |s.disk[f][n]|
  {
    s.(disk := s.disk[f := s.disk[f][n := s.disk[f][n][k := Damaged]]])
  }

  ghost predicate Enabled(s: State, step: Step) {
    && Shape(s)
    && match step
       case Boot(orders) => s.pc.Down? && Listings(orders, s.disk)
       case BeginSave(data) => s.pc.Idle? && 0 < |data| <= MAX_LEN
       case Create(name) => s.pc.Creating? && name !in s.disk[s.pc.f]
       case CreateFails => s.pc.Creating?
       case Write => s.pc.Writing? && s.pc.copies < NUM_COPIES
       case WriteFails(_) => s.pc.Writing? && s.pc.copies < NUM_COPIES
       case Unlink(_) => s.pc.Unlinking?
       case Close => s.pc.Writing? && s.pc.copies == NUM_COPIES
       case OpenDir(_) => s.pc.Opening?
       case SweepOne(n, _) => s.pc.Sweeping? && n in s.pc.todo
       case SweepEnd => s.pc.Sweeping? && s.pc.todo == {}
       case Reload(orders) => s.pc.Idle? && Listings(orders, s.disk)
       case Shutdown => s.pc.Idle?
       case Crash(_) => !s.pc.Down?
       case RotCache(_) => !s.pc.Down?
       // bit rot may hit anything but the last intact copy of the newest entry
       case Rot(f, n, k) =>
         && f < NUM_FILES && n in s.disk[f] && k < |s.disk[f][n]| && !s.disk[f][n][k].Partial?
         && Kept(Rotted(s, f, n, k)) && WriterSafe(Rotted(s, f, n, k))
  }

  function Append(s: State, c: Chunk): seq<Files>
    requires s.pc.Writing? && s.pc.f < |s.disk| && s.pc.name in s.disk[s.pc.f]
  {
    s.disk[s.pc.f := s.disk[s.pc.f][s.pc.name := s.disk[s.pc.f][s.pc.name] + [c]]]
  }

  function Remove(disk: seq<Files>, f: nat, n: Name): seq<Files>
    requires f < |disk|
  {
    disk[f := disk[f] - {n}]
  }

  /** What follows once family `f` of a save is dealt with: the other family, or the acknowledgement. */
  function NextFamily(s: State, f: nat, e: Entry): State {
    if f + 1 < NUM_FILES then s.(pc := Creating(f + 1, e)) else s.(pc := Idle, cache := Sound(e), acked := e)
  }

  /** A family that could not be written: fatal for the save if it is the first one. */
  function FamilyFailed(s: State, f: nat, e: Entry): State {
    if f == 0 then s.(pc := Idle) else NextFamily(s.(dirty := true), f, e)
  }

  function AfterSweep(s: State, f: nat, why: Why): State {
    match why
    case InSave(e) => NextFamily(s, f, e)
    case AtBoot => if f + 1 < NUM_FILES then s.(pc := Opening(f + 1, AtBoot)) else s.(pc := Idle)
    case AtShutdown => if f + 1 < NUM_FILES then s.(pc := Opening(f + 1, AtShutdown)) else s.(pc := Down)
  }

  function AfterClose(s: State): State
    requires s.pc.Writing? && s.pc.f < |s.curr| == |s.gen|
  {
    var Writing(f, e, name, _) := s.pc;
    var s1 := s.(curr := s.curr[f := Some(name)], gen := s.gen[f := s.gen[f] + 1]);
    if s1.gen[f] > CLEANUP_INTERVAL then s1.(pc := Opening(f, InSave(e))) else NextFamily(s1, f, e)
  }

  function AfterLoad(s: State, curr: seq<Option<Name>>, data: seq<Byte>, orders: seq<seq<Name>>): State
    requires |curr| == |s.disk| == |orders| == NUM_FILES
  {
    var (a, curr') := Load(data, curr, s.disk, orders);
    s.(version := a.ver, dirty := false, curr := curr', cache := if a.ver == 0 then s.cache else Sound(a))
  }

  function AfterCreate(s: State, name: Name): State
    requires s.pc.Creating? && s.pc.f < |s.disk|
  {
    s.(disk := s.disk[s.pc.f := s.disk[s.pc.f][name := []]], pc := Writing(s.pc.f, s.pc.e, name, 0))
  }

  function AfterWrite(s: State): State
    requires s.pc.Writing? && s.pc.f < |s.disk| && s.pc.name in s.disk[s.pc.f]
  {
    s.(disk := Append(s, Good(s.pc.e)), pc := s.pc.(copies := s.pc.copies + 1))
  }

  function AfterWriteFails(s: State, torn: bool): State
    requires s.pc.Writing? && s.pc.f < |s.disk| && s.pc.name in s.disk[s.pc.f]
  {
    s.(disk := if torn then Append(s, Partial) else s.disk, pc := Unlinking(s.pc.f, s.pc.e, s.pc.name))
  }

  function AfterUnlink(s: State, ok: bool): State
    requires s.pc.Unlinking? && s.pc.f < |s.disk|
  {
    FamilyFailed(s.(disk := if ok then Remove(s.disk, s.pc.f, s.pc.name) else s.disk), s.pc.f, s.pc.e)
  }

  function AfterOpenDir(s: State, ok: bool): State
    requires s.pc.Opening? && s.pc.f < |s.disk| == |s.curr|
  {
    var Opening(f, why) := s.pc;
    if ok && s.curr[f].Some? then s.(pc := Sweeping(f, why, s.disk[f].Keys - {s.curr[f].value}))
    else AfterSweep(s, f, why)
  }

  function AfterSweepOne(s: State, n: Name, ok: bool): State
    requires s.pc.Sweeping? && s.pc.f < |s.disk|
  {
    s.(disk := if ok then Remove(s.disk, s.pc.f, n) else s.disk, pc := s.pc.(todo := s.pc.todo - {n}))
  }

  function AfterCrash(s: State, torn: bool): State
    requires s.pc.Writing? ==> s.pc.f < |s.disk| && s.pc.name in s.disk[s.pc.f]
  {
    s.(pc := Down, disk := if torn && s.pc.Writing? && s.pc.copies < NUM_COPIES then Append(s, Partial) else s.disk)
  }

  function CacheData(c: Cache): seq<Byte> {
    if c.Sound? then c.e.data else c.data
  }

  function Next(s: State, step: Step): State
    requires Enabled(s, step)
  {
    match step
    case Boot(orders) =>
      var zeroed := s.(gen := [0, 0], cache := Rotten(Blank().data));
      AfterLoad(zeroed, [None, None], Blank().data, orders).(pc := Opening(0, AtBoot))
    case BeginSave(data) =>
      var e := Entry(s.version + 1, Pad(data));
      s.(version := e.ver, pc := Creating(0, e), attempts := s.attempts + {e}, book := s.book[e.ver := e])
    case Create(name) => AfterCreate(s, name)
    case CreateFails => FamilyFailed(s, s.pc.f, s.pc.e)
    case Write => AfterWrite(s)
    case WriteFails(torn) => AfterWriteFails(s, torn)
    case Unlink(ok) => AfterUnlink(s, ok)
    case Close => AfterClose(s)
    case OpenDir(ok) => AfterOpenDir(s, ok)
    case SweepOne(n, ok) => AfterSweepOne(s, n, ok)
    case SweepEnd => AfterSweep(s.(gen := s.gen[s.pc.f := 0]), s.pc.f, s.pc.why)
    case Reload(orders) => AfterLoad(s, s.curr, CacheData(s.cache), orders)
    case Shutdown => s.(pc := Opening(0, AtShutdown))
    case Crash(torn) => AfterCrash(s, torn)
    case Rot(f, n, k) => Rotted(s, f, n, k)
    case RotCache(bad) => s.(cache := Rotten(bad))
  }

  // ---------------------------------------------------------------- invariant

  ghost predicate OnIn(files: Files, e: Entry) {
    exists n :: n in files && Shows(files[n], e)
  }

  /** A reader of the disk comes across an intact copy of `e`. */
  ghost predicate On(disk: seq<Files>, e: Entry)
    requires |disk| == NUM_FILES
  {
    OnIn(disk[0], e) || OnIn(disk[1], e)
  }

  /** The entry a save in progress is writing, if any. */
  function Current(pc: Pc): Option<Entry> {
    if pc.Creating? || pc.Writing? || pc.Unlinking? then Some(pc.e)
    else if (pc.Opening? || pc.Sweeping?) && pc.why.InSave? then Some(pc.why.e)
    else None
  }

  /** Intact entries on disk are what the book says about their versions, and were all attempted. */
  ghost predicate Honest(disk: seq<Files>, attempts: set<Entry>, book: map<int, Entry>)
    requires |disk| == NUM_FILES
  {
    forall e :: On(disk, e) ==> e.ver > 0 && e in attempts && e.ver in book && book[e.ver] == e
  }

  /** The version counter of a live process is ahead of the disk. */
  ghost predicate Ahead(disk: seq<Files>, version: nat)
    requires |disk| == NUM_FILES
  {
    forall e :: On(disk, e) ==> e.ver <= version
  }

  ghost predicate Booked(e: Entry, attempts: set<Entry>, book: map<int, Entry>) {
    e in attempts && e.ver in book && book[e.ver] == e
  }

  ghost predicate WritingInv(s: State)
    requires Shape(s)
  {
    && (s.pc.Writing? ==>
          && s.curr[s.pc.f] != Some(s.pc.name)
          && Partial !in s.disk[s.pc.f][s.pc.name])
    && WriterSafe(s)
    && (s.pc.Unlinking? ==> s.curr[s.pc.f] != Some(s.pc.name))
    && (s.pc.Sweeping? && s.curr[s.pc.f].Some? ==> s.curr[s.pc.f].value !in s.pc.todo)
    && (s.curr[0].Some? ==> s.curr[0].value in s.disk[0])
    && (s.curr[1].Some? ==> s.curr[1].value in s.disk[1])
  }

  ghost predicate Inv(s: State) {
    && Shape(s)
    && Honest(s.disk, s.attempts, s.book)
    && Kept(s)
    && (s.acked.ver > 0 ==> Booked(s.acked, s.attempts, s.book))
    && (!s.pc.Down? ==> WritingInv(s) && Ahead(s.disk, s.version) && s.acked.ver <= s.version)
    && (Current(s.pc).Some? ==>
          s.acked.ver < s.version == Current(s.pc).value.ver && Booked(Current(s.pc).value, s.attempts, s.book))
    && (!s.pc.Down? && s.cache.Sound? ==>
          && s.acked.ver <= s.cache.e.ver
          && (s.cache.e.ver > 0 ==> s.cache.e in s.attempts)
          && (s.cache.e.ver == s.acked.ver > 0 ==> s.cache.e == s.acked))
  }

  lemma FreshInv()
    ensures Inv(Fresh())
  {}

  lemma OnAfterPut(disk: seq<Files>, f: nat, n: Name, file: File, e: Entry)
    requires |disk| == NUM_FILES && f < NUM_FILES
    requires On(disk[f := disk[f][n := file]], e)
    ensures Shows(file, e) || On(disk, e)
  {
    var files := disk[f][n := file];
    if OnIn(files, e) && !Shows(file, e) {
      var m :| m in files && Shows(files[m], e);
      assert m in disk[f] && Shows(disk[f][m], e);
    }
  }

  lemma OnAfterRemove(disk: seq<Files>, f: nat, n: Name, e: Entry)
    requires |disk| == NUM_FILES && f < NUM_FILES
    requires On(Remove(disk, f, n), e)
    ensures On(disk, e)
  {
    var files := disk[f] - {n};
    if OnIn(files, e) {
      var m :| m in files && Shows(files[m], e);
      assert m in disk[f] && Shows(disk[f][m], e);
    }
  }

  lemma {:induction false} ShowsAppend(file: File, c: Chunk, e: Entry)
    requires Shows(file + [c], e)
    ensures Shows(file, e) || c == Good(e)
  {
    if file != [] {
      assert (file + [c])[1..] == file[1..] + [c];
      if file[0] != Good(e) {
        ShowsAppend(file[1..], c, e);
      }
    } else {
      assert (file + [c])[1..] == [];
    }
  }

  lemma {:induction false} ShowsRotted(file: File, k: nat, e: Entry)
    requires k < |file| && !file[k].Partial? && Shows(file[k := Damaged], e)
    ensures Shows(file, e)
  {
    if k == 0 {
      assert file[k := Damaged][1..] == file[1..];
    } else {
      assert file[k := Damaged][1..] == file[1..][k - 1 := Damaged];
      if file[0] != Good(e) {
        ShowsRotted(file[1..], k - 1, e);
      }
    }
  }

  lemma {:induction false} ShowsIn(file: File, e: Entry)
    ensures Shows(file, e) ==> Good(e) in file
    ensures Partial !in file && Good(e) in file ==> Shows(file, e)
  {
    if file != [] && !file[0].Partial? {
      ShowsIn(file[1..], e);
    }
  }

  ghost predicate SameCurrent(curr: Option<Name>, files: Files, files': Files) {
    curr.Some? && curr.value in files ==> curr.value in files' && files'[curr.value] == files[curr.value]
  }

  lemma KeptFrame(s: State, s': State)
    requires Shape(s) && |s'.disk| == |s'.curr| == NUM_FILES && !s.pc.Down? && Kept(s)
    requires s'.curr == s.curr && Floor(s') <= Floor(s)
    requires SameCurrent(s.curr[0], s.disk[0], s'.disk[0]) && SameCurrent(s.curr[1], s.disk[1], s'.disk[1])
    ensures Kept(s')
  {
    if KeptIn(s.disk[0], s.curr[0], Floor(s)) {
      assert KeptIn(s'.disk[0], s'.curr[0], Floor(s'));
    } else if KeptIn(s.disk[1], s.curr[1], Floor(s)) {
      assert KeptIn(s'.disk[1], s'.curr[1], Floor(s'));
    }
  }

  /** Moving on after a family: the disk is the same, the save's entry is committed or given up. */
  lemma NextFamilyInv(s: State, f: nat, e: Entry)
    requires Inv(s) && Committed(s.pc) && SaveEntry(s.pc) == e && Current(s.pc) == Some(e) && f < NUM_FILES
    ensures Inv(NextFamily(s, f, e))
  {
    var s' := NextFamily(s, f, e);
    assert Floor(s') == Floor(s) == e.ver;
    KeptFrame(s, s');
  }

  lemma BeginSaveInv(s: State, data: seq<Byte>)
    requires Inv(s) && Enabled(s, BeginSave(data))
    ensures Inv(Next(s, BeginSave(data)))
  {
    KeptFrame(s, Next(s, BeginSave(data)));
  }

  lemma CreateInv(s: State, name: Name)
    requires Inv(s) && s.pc.Creating? && name !in s.disk[s.pc.f]
    ensures Inv(AfterCreate(s, name))
  {
    var s' := AfterCreate(s, name);
    forall e | On(s'.disk, e) ensures On(s.disk, e) {
      OnAfterPut(s.disk, s.pc.f, name, [], e);
    }
    KeptFrame(s, s');
  }

  lemma WriteInv(s: State)
    requires Inv(s) && s.pc.Writing?
    ensures Inv(AfterWrite(s))
  {
    var s' := AfterWrite(s);
    var file := s.disk[s.pc.f][s.pc.name];
    forall e | On(s'.disk, e) ensures On(s.disk, e) || e == s.pc.e {
      OnAfterPut(s.disk, s.pc.f, s.pc.name, file + [Good(s.pc.e)], e);
      if Shows(file + [Good(s.pc.e)], e) { ShowsAppend(file, Good(s.pc.e), e); }
    }
    KeptFrame(s, s');
  }

  /** Appending a short record puts nothing new on disk. */
  lemma TornAppend(s: State)
    requires Inv(s) && s.pc.Writing?
    ensures forall e :: On(Append(s, Partial), e) ==> On(s.disk, e)
  {
    var file := s.disk[s.pc.f][s.pc.name];
    forall e | On(Append(s, Partial), e) ensures On(s.disk, e) {
      OnAfterPut(s.disk, s.pc.f, s.pc.name, file + [Partial], e);
      if Shows(file + [Partial], e) { ShowsAppend(file, Partial, e); }
    }
  }

  lemma WriteFailsInv(s: State, torn: bool)
    requires Inv(s) && s.pc.Writing?
    ensures Inv(AfterWriteFails(s, torn))
  {
    var s' := AfterWriteFails(s, torn);
    TornAppend(s);
    KeptFrame(s, s');
  }

  lemma CrashInv(s: State, torn: bool)
    requires Inv(s) && !s.pc.Down?
    ensures Inv(AfterCrash(s, torn))
  {
    var s' := AfterCrash(s, torn);
    if s.pc.Writing? {
      TornAppend(s);
    }
    KeptFrame(s, s');
  }

  lemma FamilyFailedInv(s: State, f: nat, e: Entry)
    requires Inv(s) && (s.pc.Creating? || s.pc.Unlinking?) && s.pc.f == f && s.pc.e == e
    ensures Inv(FamilyFailed(s, f, e))
  {
    if f == 0 {
      KeptFrame(s, FamilyFailed(s, f, e));
    } else {
      KeptFrame(s, s.(dirty := true));
      NextFamilyInv(s.(dirty := true), f, e);
    }
  }

  lemma UnlinkInv(s: State, ok: bool)
    requires Inv(s) && s.pc.Unlinking?
    ensures Inv(AfterUnlink(s, ok))
  {
    var Unlinking(f, e, name) := s.pc;
    var s1 := s.(disk := if ok then Remove(s.disk, f, name) else s.disk, pc := Creating(f, e));
    forall x | On(s1.disk, x) ensures On(s.disk, x) {
      if ok { OnAfterRemove(s.disk, f, name, x); }
    }
    KeptFrame(s, s1);
    FamilyFailedInv(s1, f, e);
  }

  /** A finished file becomes the current one of its family; it shows the save's entry. */
  lemma FinishedFile(s: State, gen: seq<nat>) returns (s1: State)
    requires Inv(s) && s.pc.Writing? && s.pc.copies > 0 && |gen| == NUM_FILES
    ensures s1 == s.(curr := s.curr[s.pc.f := Some(s.pc.name)], gen := gen, pc := Opening(s.pc.f, InSave(s.pc.e)))
    ensures Inv(s1)
  {
    var Writing(f, e, name, _) := s.pc;
    if Good(e) in s.disk[f][name] {
      ShowsIn(s.disk[f][name], e);
    }
    s1 := s.(curr := s.curr[f := Some(name)], gen := gen, pc := Opening(f, InSave(e)));
    assert Floor(s1) == e.ver;
    assert KeptIn(s1.disk[f], s1.curr[f], e.ver) || (f > 0 && KeptIn(s1.disk[0], s1.curr[0], e.ver));
    assert WritingInv(s1);
  }

  lemma CloseInv(s: State)
    requires Inv(s) && s.pc.Writing? && s.pc.copies == NUM_COPIES
    ensures Inv(AfterClose(s))
  {
    var gen := s.gen[s.pc.f := s.gen[s.pc.f] + 1];
    var s1 := FinishedFile(s, gen);
    NextFamilyInv(s1, s.pc.f, s.pc.e);
    assert AfterClose(s) == if gen[s.pc.f] > CLEANUP_INTERVAL then s1 else NextFamily(s1, s.pc.f, s.pc.e);
  }

  lemma AfterSweepInv(s: State, f: nat, why: Why)
    requires Inv(s) && s.pc.Opening? && s.pc.f == f && s.pc.why == why
    ensures Inv(AfterSweep(s, f, why))
  {
    if why.InSave? {
      NextFamilyInv(s, f, why.e);
    } else {
      KeptFrame(s, AfterSweep(s, f, why));
    }
  }

  lemma OpenDirInv(s: State, ok: bool)
    requires Inv(s) && s.pc.Opening?
    ensures Inv(AfterOpenDir(s, ok))
  {
    if ok && s.curr[s.pc.f].Some? {
      KeptFrame(s, AfterOpenDir(s, ok));
    } else {
      AfterSweepInv(s, s.pc.f, s.pc.why);
    }
  }

  lemma SweepEndInv(s: State)
    requires Inv(s) && s.pc.Sweeping?
    ensures Inv(AfterSweep(s.(gen := s.gen[s.pc.f := 0]), s.pc.f, s.pc.why))
  {
    var s1 := s.(gen := s.gen[s.pc.f := 0], pc := Opening(s.pc.f, s.pc.why));
    KeptFrame(s, s1);
    AfterSweepInv(s1, s.pc.f, s.pc.why);
    assert AfterSweep(s1, s.pc.f, s.pc.why) == AfterSweep(s.(gen := s1.gen), s.pc.f, s.pc.why);
  }

  lemma SweepOneInv(s: State, n: Name, ok: bool)
    requires Inv(s) && s.pc.Sweeping? && n in s.pc.todo
    ensures Inv(AfterSweepOne(s, n, ok))
  {
    var s' := AfterSweepOne(s, n, ok);
    forall e | On(s'.disk, e) ensures On(s.disk, e) {
      if ok { OnAfterRemove(s.disk, s.pc.f, n, e); }
    }
    KeptFrame(s, s');
  }

  lemma RotInv(s: State, f: nat, n: Name, k: nat)
    requires Inv(s) && Enabled(s, Rot(f, n, k))
    ensures Inv(Next(s, Rot(f, n, k)))
  {
    var s' := Next(s, Rot(f, n, k));
    var file := s.disk[f][n];
    forall e | On(s'.disk, e) ensures On(s.disk, e) {
      OnAfterPut(s.disk, f, n, file[k := Damaged], e);
      if Shows(file[k := Damaged], e) { ShowsRotted(file, k, e); }
    }
    assert Partial in file[k := Damaged] ==> Partial in file;
  }

  // ---------------------------------------------------------------- reloading

  /** Loading an honest disk that keeps something at `floor` finds an attempted entry at least that new,
      and leaves it in a current file. */
  lemma LoadFinds(disk: seq<Files>, curr: seq<Option<Name>>, data: seq<Byte>, orders: seq<seq<Name>>, floor: nat)
    requires |disk| == |curr| == NUM_FILES && Listings(orders, disk)
    requires floor > 0 ==> KeptAnywhere(disk[0], floor) || KeptAnywhere(disk[1], floor)
    ensures var (a, curr') := Load(data, curr, disk, orders);
            && floor <= a.ver
            && (a.ver == 0 ==> a.data == data)
            && (a.ver > 0 ==> On(disk, a) && (KeptIn(disk[0], curr'[0], a.ver) || KeptIn(disk[1], curr'[1], a.ver)))
            && (forall e :: On(disk, e) ==> e.ver <= a.ver)
            && (curr'[0] == curr[0] || (curr'[0].Some? && curr'[0].value in disk[0]))
            && (curr'[1] == curr[1] || (curr'[1].Some? && curr'[1].value in disk[1]))
  {
    var b := Entry(0, data);
    LoadDirectoryMeaning(b, curr[0], disk[0], orders[0]);
    var (a0, c0) := LoadDirectory(b, curr[0], disk[0], orders[0]);
    LoadDirectoryMeaning(a0, curr[1], disk[1], orders[1]);
    var (a1, c1) := LoadDirectory(a0, curr[1], disk[1], orders[1]);
  }

  lemma KeptInAnywhere(files: Files, curr: Option<Name>, floor: nat, low: nat)
    requires KeptIn(files, curr, floor) && low <= floor
    ensures KeptAnywhere(files, low)
  {
    var n := curr.value;
    var e :| Shows(files[n], e) && floor <= e.ver;
    assert n in files && Shows(files[n], e) && low <= e.ver;
  }

  lemma KeptSomewhere(s: State)
    requires Inv(s)
    ensures s.acked.ver > 0 ==> KeptAnywhere(s.disk[0], s.acked.ver) || KeptAnywhere(s.disk[1], s.acked.ver)
  {
    if KeptIn(s.disk[0], s.curr[0], Floor(s)) {
      KeptInAnywhere(s.disk[0], s.curr[0], Floor(s), s.acked.ver);
    } else if KeptIn(s.disk[1], s.curr[1], Floor(s)) {
      KeptInAnywhere(s.disk[1], s.curr[1], Floor(s), s.acked.ver);
    }
  }

  lemma LoadInv(s: State, curr: seq<Option<Name>>, orders: seq<seq<Name>>, data: seq<Byte>, pc: Pc)
    requires Inv(s) && |curr| == NUM_FILES && Listings(orders, s.disk)
    requires curr[0].Some? ==> curr[0].value in s.disk[0]
    requires curr[1].Some? ==> curr[1].value in s.disk[1]
    requires (s.pc.Down? && pc == Opening(0, AtBoot) && s.cache.Rotten?) || (s.pc.Idle? && pc == Idle)
    ensures Inv(AfterLoad(s, curr, data, orders).(pc := pc))
  {
    KeptSomewhere(s);
    LoadFinds(s.disk, curr, data, orders, s.acked.ver);
    var s' := AfterLoad(s, curr, data, orders).(pc := pc);
    assert Floor(s') == s.acked.ver;
    assert Kept(s');
    assert WritingInv(s');
  }

  lemma BootInv(s: State, orders: seq<seq<Name>>)
    requires Inv(s) && Enabled(s, Boot(orders))
    ensures Inv(Next(s, Boot(orders)))
  {
    LoadInv(s.(gen := [0, 0], cache := Rotten(Blank().data)), [None, None], orders, Blank().data, Opening(0, AtBoot));
  }

  lemma ReloadInv(s: State, orders: seq<seq<Name>>)
    requires Inv(s) && Enabled(s, Reload(orders))
    ensures Inv(Next(s, Reload(orders)))
  {
    LoadInv(s, s.curr, orders, CacheData(s.cache), Idle);
  }

  lemma ShutdownInv(s: State)
    requires Inv(s) && Enabled(s, Shutdown)
    ensures Inv(Next(s, Shutdown))
  {
    KeptFrame(s, Next(s, Shutdown));
  }

  lemma RotCacheInv(s: State, bad: seq<Byte>)
    requires Inv(s) && Enabled(s, RotCache(bad))
    ensures Inv(Next(s, RotCache(bad)))
  {
    KeptFrame(s, Next(s, RotCache(bad)));
  }

  lemma StepInv(s: State, step: Step)
    requires Inv(s) && Enabled(s, step)
    ensures Inv(Next(s, step))
  {
    hide Inv;
    match step
    case Boot(orders) => BootInv(s, orders);
    case BeginSave(data) => BeginSaveInv(s, data);
    case Create(name) => CreateInv(s, name);
    case CreateFails => FamilyFailedInv(s, s.pc.f, s.pc.e);
    case Write => WriteInv(s);
    case WriteFails(torn) => WriteFailsInv(s, torn);
    case Unlink(ok) => UnlinkInv(s, ok);
    case Close => CloseInv(s);
    case OpenDir(ok) => OpenDirInv(s, ok);
    case SweepOne(n, ok) => SweepOneInv(s, n, ok);
    case SweepEnd => SweepEndInv(s);
    case Reload(orders) => ReloadInv(s, orders);
    case Shutdown => ShutdownInv(s);
    case Crash(torn) => CrashInv(s, torn);
    case Rot(f, n, k) => RotInv(s, f, n, k);
    case RotCache(bad) => RotCacheInv(s, bad);
  }

  ghost predicate Executable(s: State, run: seq<Step>)
    decreases |run|
  {
    run == [] || (Enabled(s, run[0]) && Executable(Next(s, run[0]), run[1..]))
  }

  ghost function Exec(s: State, run: seq<Step>): State
    requires Executable(s, run)
    decreases |run|
  {
    if run == [] then s else Exec(Next(s, run[0]), run[1..])
  }

  lemma {:induction false} RunInv(s: State, run: seq<Step>)
    requires Inv(s) && Executable(s, run)
    ensures Inv(Exec(s, run))
    decreases |run|
  {
    if run != [] {
      StepInv(s, run[0]);
      RunInv(Next(s, run[0]), run[1..]);
    }
  }

  /** Crash atomicity.  After any run of saves, failed writes, cleanups, crashes, reloads and bit rot,
      and in whatever order the directories are listed, loading the disk yields an entry that some save
      set out to write, no older than the last acknowledged save, and if it has that save's version it
      has that save's bytes. */
  lemma CrashAtomicity(run: seq<Step>, orders: seq<seq<Name>>, curr: seq<Option<Name>>, data: seq<Byte>)
    requires Executable(Fresh(), run) && |curr| == NUM_FILES && Listings(orders, Exec(Fresh(), run).disk)
    ensures var s := Exec(Fresh(), run);
            var (a, _) := Load(data, curr, s.disk, orders);
            && s.acked.ver <= a.ver
            && (a.ver > 0 ==> a in s.attempts)
            && (a.ver == s.acked.ver && a.ver > 0 ==> a == s.acked)
  {
    FreshInv();
    RunInv(Fresh(), run);
    var s := Exec(Fresh(), run);
    KeptSomewhere(s);
    LoadFinds(s.disk, curr, data, orders, s.acked.ver);
  }

  // ---------------------------------------------------------------- reading the state back

  /** What PROC_read_critical_state leaves in memory: reload if dirty, reload again if the checksum of
      the cached copy fails. */
  function AfterRead(s: State, orders: seq<seq<Name>>): State
    requires |s.curr| == |s.disk| == |orders| == NUM_FILES
  {
    var s1 := if s.dirty then AfterLoad(s, s.curr, CacheData(s.cache), orders) else s;
    if s1.cache.Rotten? then AfterLoad(s1, s1.curr, CacheData(s1.cache), orders) else s1
  }

  /** Loading takes an entry if and only if the disk shows one. */
  lemma LoadTakes(s: State, curr: seq<Option<Name>>, data: seq<Byte>, orders: seq<seq<Name>>)
    requires |curr| == NUM_FILES && Listings(orders, s.disk) && Honest(s.disk, s.attempts, s.book)
    ensures AfterLoad(s, curr, data, orders).cache == s.cache || AfterLoad(s, curr, data, orders).cache.Sound?
    ensures AfterLoad(s, curr, data, orders).version > 0 <==> exists e :: On(s.disk, e)
    ensures AfterLoad(s, curr, data, orders).cache.Rotten? <==> s.cache.Rotten? && forall e :: !On(s.disk, e)
  {
    LoadFinds(s.disk, curr, data, orders, 0);
  }

  /** Reading fails if and only if the cached copy does not pass its checksum, as it does not after a
      boot that found nothing, and the disk shows no intact entry, which is only so when no save was ever
      acknowledged.  Otherwise it returns the bytes of an attempted save no older than the last
      acknowledged one. */
  lemma ReadBack(run: seq<Step>, orders: seq<seq<Name>>)
    requires Executable(Fresh(), run) && Exec(Fresh(), run).pc.Idle? && Listings(orders, Exec(Fresh(), run).disk)
    ensures |Exec(Fresh(), run).curr| == NUM_FILES
    ensures var s := Exec(Fresh(), run);
            var c := AfterRead(s, orders).cache;
            && (c.Rotten? <==> s.cache.Rotten? && forall e :: !On(s.disk, e))
            && (c.Rotten? ==> s.acked.ver == 0)
            && (c.Sound? ==> s.acked.ver <= c.e.ver && (c.e.ver > 0 ==> c.e in s.attempts)
                             && (c.e.ver == s.acked.ver > 0 ==> c.e == s.acked))
  {
    FreshInv();
    RunInv(Fresh(), run);
    var s := Exec(Fresh(), run);
    var s1 := if s.dirty then AfterLoad(s, s.curr, CacheData(s.cache), orders) else s;
    if s.dirty {
      StepInv(s, Reload(orders));
      LoadTakes(s, s.curr, CacheData(s.cache), orders);
    }
    if s1.cache.Rotten? {
      StepInv(s1, Reload(orders));
      LoadTakes(s1, s1.curr, CacheData(s1.cache), orders);
      KeptSomewhere(s1);
    }
  }

  /** The first read after a boot on an empty disk fails. */
  lemma FirstReadFails()
    ensures var run := [Boot([[], []]), OpenDir(true), OpenDir(true)];
            && Executable(Fresh(), run) && Exec(Fresh(), run).pc.Idle?
            && |Exec(Fresh(), run).curr| == |Exec(Fresh(), run).disk| == NUM_FILES
            && AfterRead(Exec(Fresh(), run), [[], []]).cache.Rotten?
  {
    var none: seq<seq<Name>> := [[], []];
    var s1 := Next(Fresh(), Boot(none));
    var s2 := Next(s1, OpenDir(true));
    var s3 := Next(s2, OpenDir(true));
    var r0 := [Boot(none), OpenDir(true), OpenDir(true)];
    assert r0[1..] == [OpenDir(true), OpenDir(true)] && r0[1..][1..] == [OpenDir(true)] && r0[1..][1..][1..] == [];
    assert Executable(s3, []) && Executable(s2, r0[1..][1..]) && Executable(s1, r0[1..]);
    assert Exec(s2, r0[1..][1..]) == s3 && Exec(s1, r0[1..]) == s3;
  }

  // ---------------------------------------------------------------- the loading code

  /** CSState as the loading loops change it. */
  class CSState {
    var version: nat
    var data: seq<Byte>
    var dirty: bool
    var curr: seq<Option<Name>>

    ghost function Held(): Entry
      reads this
    {
      Entry(version, data)
    }

    method ProcessCriticalEntry(c: Chunk) returns (hit: bool)
      modifies this`version, this`data
      ensures (Held(), hit) == ProcessEntry(old(Held()), c)
    {
      if !c.Good? || c.e.ver < version {
        return false;
      }
      if c.e.ver == version {
        return true;
      }
      version, data := c.e.ver, c.e.data;
      hit := true;
    }

    method LoadCriticalStateFile(file: File) returns (hit: bool)
      modifies this`version, this`data
      ensures (Held(), hit) == LoadFile(old(Held()), file)
    {
      hit := false;
      var i := 0;
      while i < |file| && !file[i].Partial?
        invariant 0 <= i <= |file|
        invariant var (a, h) := LoadFile(Held(), file[i..]); LoadFile(old(Held()), file) == (a, hit || h)
      {
        assert file[i..][1..] == file[i + 1..];
        var h := ProcessCriticalEntry(file[i]);
        hit := hit || h;
        i := i + 1;
      }
    }

    method LoadCriticalStateDirectory(f: nat, files: Files, order: seq<Name>)
      requires f < |curr|
      modifies this`version, this`data, this`curr
      ensures |curr| == |old(curr)| && forall g :: 0 <= g < |curr| && g != f ==> curr[g] == old(curr[g])
      ensures (Held(), curr[f]) == LoadDirectory(old(Held()), old(curr[f]), files, order)
    {
      var i := 0;
      while i < |order|
        invariant 0 <= i <= |order|
        invariant |curr| == |old(curr)| && forall g :: 0 <= g < |curr| && g != f ==> curr[g] == old(curr[g])
        invariant LoadDirectory(old(Held()), old(curr[f]), files, order) ==
                  LoadDirectory(Held(), curr[f], files, order[i..])
      {
        assert order[i..][1..] == order[i + 1..];
        if order[i] in files {
          var hit := LoadCriticalStateFile(files[order[i]]);
          if hit {
            curr := curr[f := Some(order[i])];
          }
        }
        i := i + 1;
      }
    }

    method LoadCriticalState(disk: seq<Files>, orders: seq<seq<Name>>)
      requires |curr| == |disk| == |orders| == NUM_FILES
      modifies this
      ensures (Held(), curr) == Load(old(data), old(curr), disk, orders) && !dirty
    {
      version := 0;
      for f := 0 to NUM_FILES
        invariant |curr| == NUM_FILES
        invariant f == 0 ==> Held() == Entry(0, old(data)) && curr == old(curr)
        invariant f == 1 ==>
          && (Held(), curr[0]) == LoadDirectory(Entry(0, old(data)), old(curr)[0], disk[0], orders[0])
          && curr[1] == old(curr)[1]
        invariant f == 2 ==> (Held(), curr) == Load(old(data), old(curr), disk, orders)
      {
        LoadCriticalStateDirectory(f, disk[f], orders[f]);
        assert curr == [curr[0], curr[1]];
      }
      dirty := false;
    }
  }
}
