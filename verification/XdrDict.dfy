/**
 The string-keyed dictionary of xdr.c: a table of 29 sorted collision lists, its operations, and the
 encoder and decoder over it, for any encoding of the values.
 */
module XdrDict {
  import opened Common
  import opened Xdr
  import XdrCode

  /** A C string, without its terminator. */
  type Key = s: seq<Byte> | NoZero(s)

  datatype Node = Node(key: Key, data: Value)

  type Table = seq<seq<Node>>

  const HASH_LEN := 29

  // ---------------------------------------------------------------- keys

  /** Exclusive or of two unsigned integers. */
  function Xor(a: nat, b: nat): nat
    decreases a
  {
    if a == 0 then b else (a % 2 + b % 2) % 2 + 2 * Xor(a / 2, b / 2)
  }

  /** MurmurOAAT32 in 32-bit arithmetic. */
  function Murmur(h: nat, key: seq<Byte>): nat
    decreases |key|, 1
  {
    if key == [] then h else MurmurRound(h, key)
  }

  function MurmurRound(h: nat, key: seq<Byte>): nat
    requires key != []
    decreases |key|, 0
  {
    var m := Xor(h, key[0]) * 0x5bd1_e995 % M32;
    Murmur(Xor(m, m / 0x8000), key[1..])
  }

  function Bucket(key: Key): (b: nat)
    ensures b < HASH_LEN
  {
    Murmur(3323198485, key) % HASH_LEN
  }

  /** XDR_dict_bucket. */
  method DictBucket(key: Key) returns (b: nat)
    ensures b == Bucket(key)
  {
    hide Xor;
    var h := 3323198485;
    for i := 0 to |key|
      invariant h >= 0 && Murmur(h, key[i..]) == Murmur(3323198485, key)
    {
      assert key[i..][0] == key[i] && key[i..][1..] == key[i + 1..];
      h := Xor(h, key[i]);
      h := h * 0x5bd1_e995 % M32;
      h := Xor(h, h / 0x8000);
    }
    b := h % HASH_LEN;
  }

  /** strcmp. */
  function Compare(a: seq<Byte>, b: seq<Byte>): int
    decreases |a|
  {
    if a == [] && b == [] then 0
    else if a == [] then -1
    else if b == [] then 1
    else if a[0] != b[0] then a[0] as int - b[0] as int
    else Compare(a[1..], b[1..])
  }

  lemma {:induction false} CompareIsEquality(a: seq<Byte>, b: seq<Byte>)
    ensures Compare(a, b) == 0 <==> a == b
    decreases |a|
  {
    if a != [] && b != [] && a[0] == b[0] {
      CompareIsEquality(a[1..], b[1..]);
      assert a == [a[0]] + a[1..] && b == [b[0]] + b[1..];
    }
  }

  lemma {:induction false} CompareFlips(a: seq<Byte>, b: seq<Byte>)
    ensures Compare(a, b) < 0 <==> Compare(b, a) > 0
    decreases |a|
  {
    if a != [] && b != [] {
      CompareFlips(a[1..], b[1..]);
    }
  }

  lemma {:induction false} CompareChains(a: seq<Byte>, b: seq<Byte>, c: seq<Byte>)
    requires Compare(a, b) < 0 && Compare(b, c) < 0
    ensures Compare(a, c) < 0
    decreases |a|
  {
    if a != [] && a[0] == b[0] && b[0] == c[0] {
      CompareChains(a[1..], b[1..], c[1..]);
    }
  }

  // ---------------------------------------------------------------- one collision list

  function FindIn(b: seq<Node>, k: Key): Option<Value>
    decreases |b|
  {
    if b == [] then None else if b[0].key == k then Some(b[0].data) else FindIn(b[1..], k)
  }

  /** Before the first node with a greater key. */
  function Insert(b: seq<Node>, n: Node): seq<Node>
    decreases |b|
  {
    if b == [] || Compare(n.key, b[0].key) < 0 then [n] + b else [b[0]] + Insert(b[1..], n)
  }

  function Delete(b: seq<Node>, k: Key): seq<Node>
    decreases |b|
  {
    if b == [] then [] else if b[0].key == k then b[1..] else [b[0]] + Delete(b[1..], k)
  }

  ghost predicate Above(k: Key, b: seq<Node>) {
    forall i :: 0 <= i < |b| ==> Compare(k, b[i].key) < 0
  }

  ghost predicate Sorted(b: seq<Node>)
    decreases |b|
  {
    b == [] || (Above(b[0].key, b[1..]) && Sorted(b[1..]))
  }

  /** A key below a sorted list's first is below all, and is not in it. */
  lemma BelowAll(k: Key, b: seq<Node>)
    requires Sorted(b) && b != [] && Compare(k, b[0].key) < 0
    ensures Above(k, b)
  {
    forall i | 0 <= i < |b| ensures Compare(k, b[i].key) < 0 {
      if i > 0 {
        assert b[i] == b[1..][i - 1];
        CompareChains(k, b[0].key, b[i].key);
      }
    }
  }

  lemma {:induction false} AbsentBelow(k: Key, b: seq<Node>)
    requires Above(k, b)
    ensures FindIn(b, k) == None
    decreases |b|
  {
    if b != [] {
      CompareIsEquality(k, b[0].key);
      AbsentBelow(k, b[1..]);
    }
  }

  lemma {:induction false} FoundIsThere(b: seq<Node>, k: Key)
    ensures FindIn(b, k).Some? <==> exists i :: 0 <= i < |b| && b[i].key == k
    decreases |b|
  {
    if b != [] {
      FoundIsThere(b[1..], k);
      if i :| 0 <= i < |b| && b[i].key == k {
        if i > 0 {
          assert b[1..][i - 1].key == k;
        }
      }
    }
  }

  lemma AboveCons(k: Key, n: Node, b: seq<Node>)
    requires Compare(k, n.key) < 0 && Above(k, b)
    ensures Above(k, [n] + b)
  {}

  lemma {:induction false} InsertAbove(k: Key, b: seq<Node>, n: Node)
    requires Above(k, b) && Compare(k, n.key) < 0
    ensures Above(k, Insert(b, n))
    decreases |b|
  {
    if b == [] || Compare(n.key, b[0].key) < 0 {
      AboveCons(k, n, b);
    } else {
      InsertAbove(k, b[1..], n);
      AboveCons(k, b[0], Insert(b[1..], n));
    }
  }

  /** Insertion keeps the list sorted, binds the new key, and touches no other key. */
  lemma {:induction false} InsertMeans(b: seq<Node>, n: Node)
    requires Sorted(b) && FindIn(b, n.key) == None
    ensures Sorted(Insert(b, n)) && |Insert(b, n)| == |b| + 1
    ensures forall k :: FindIn(Insert(b, n), k) == if k == n.key then Some(n.data) else FindIn(b, k)
    decreases |b|
  {
    var r := Insert(b, n);
    if b == [] || Compare(n.key, b[0].key) < 0 {
      if b != [] {
        BelowAll(n.key, b);
      }
      assert r[1..] == b;
    } else {
      InsertMeans(b[1..], n);
      assert r[1..] == Insert(b[1..], n);
      CompareIsEquality(n.key, b[0].key);
      CompareFlips(b[0].key, n.key);
      InsertAbove(b[0].key, b[1..], n);
    }
  }

  lemma {:induction false} DeleteAbove(k: Key, b: seq<Node>, gone: Key)
    requires Above(k, b)
    ensures Above(k, Delete(b, gone))
    decreases |b|
  {
    if b != [] {
      DeleteAbove(k, b[1..], gone);
    }
  }

  /** Deletion keeps the list sorted, unbinds the key, and touches no other key. */
  lemma {:induction false} DeleteMeans(b: seq<Node>, gone: Key)
    requires Sorted(b)
    ensures Sorted(Delete(b, gone)) && |Delete(b, gone)| == if FindIn(b, gone).Some? then |b| - 1 else |b|
    ensures forall k :: FindIn(Delete(b, gone), k) == if k == gone then None else FindIn(b, k)
    decreases |b|
  {
    if b != [] {
      DeleteMeans(b[1..], gone);
      if b[0].key == gone {
        AbsentBelow(gone, b[1..]);
      } else {
        assert Delete(b, gone)[1..] == Delete(b[1..], gone);
        DeleteAbove(b[0].key, b[1..], gone);
      }
    }
  }

  /** The first nodes of two sorted lists that bind the same keys have the same key. */
  lemma SameFirst(a: seq<Node>, b: seq<Node>)
    requires Sorted(a) && Sorted(b) && a != []
    requires forall k :: FindIn(a, k) == FindIn(b, k)
    ensures b != [] && a[0] == b[0]
  {
    assert FindIn(b, a[0].key) == Some(a[0].data);
    if Compare(a[0].key, b[0].key) < 0 {
      BelowAll(a[0].key, b);
      AbsentBelow(a[0].key, b);
    } else if Compare(b[0].key, a[0].key) < 0 {
      assert FindIn(a, b[0].key) == Some(b[0].data);
      BelowAll(b[0].key, a);
      AbsentBelow(b[0].key, a);
    } else {
      CompareFlips(b[0].key, a[0].key);
      CompareIsEquality(a[0].key, b[0].key);
    }
  }

  /** A sorted list is determined by what it binds. */
  lemma {:induction false} SortedIsCanonical(a: seq<Node>, b: seq<Node>)
    requires Sorted(a) && Sorted(b)
    requires forall k :: FindIn(a, k) == FindIn(b, k)
    ensures a == b
    decreases |a|
  {
    if a == [] {
      if b != [] {
        SameFirst(b, a);
      }
    } else {
      SameFirst(a, b);
      forall k ensures FindIn(a[1..], k) == FindIn(b[1..], k) {
        assert FindIn(a, k) == FindIn(b, k);
        if k == a[0].key {
          AbsentBelow(k, a[1..]);
          AbsentBelow(k, b[1..]);
        }
      }
      SortedIsCanonical(a[1..], b[1..]);
      assert a == [a[0]] + a[1..] && b == [b[0]] + b[1..];
    }
  }

  // ---------------------------------------------------------------- the table

  /** All lists sorted, and every key in the list it hashes to. */
  ghost predicate Good(t: Table) {
    && |t| == HASH_LEN
    && (forall i :: 0 <= i < HASH_LEN ==> Sorted(t[i]))
    && (forall i :: 0 <= i < HASH_LEN ==> Homed(t[i], i))
  }

  ghost predicate Homed(b: seq<Node>, i: nat) {
    forall j :: 0 <= j < |b| ==> Bucket(b[j].key) == i
  }

  function Find(t: Table, k: Key): Option<Value>
    requires |t| == HASH_LEN
  {
    FindIn(t[Bucket(k)], k)
  }

  function AddTo(t: Table, n: Node): Table
    requires |t| == HASH_LEN
  {
    if Find(t, n.key).Some? then t else t[Bucket(n.key) := Insert(t[Bucket(n.key)], n)]
  }

  function RemoveFrom(t: Table, k: Key): Table
    requires |t| == HASH_LEN
  {
    t[Bucket(k) := Delete(t[Bucket(k)], k)]
  }

  function Nothing(): (t: Table) {
    seq(HASH_LEN, _ => [])
  }

  lemma HomedCons(n: Node, b: seq<Node>, i: nat)
    requires Bucket(n.key) == i && Homed(b, i)
    ensures Homed([n] + b, i)
  {}

  lemma {:induction false} InsertHomed(b: seq<Node>, n: Node, i: nat)
    requires Homed(b, i) && Bucket(n.key) == i
    ensures Homed(Insert(b, n), i)
    decreases |b|
  {
    if b == [] || Compare(n.key, b[0].key) < 0 {
      HomedCons(n, b, i);
    } else {
      InsertHomed(b[1..], n, i);
      HomedCons(b[0], Insert(b[1..], n), i);
    }
  }

  lemma {:induction false} DeleteHomed(b: seq<Node>, k: Key, i: nat)
    requires Homed(b, i)
    ensures Homed(Delete(b, k), i)
    decreases |b|
  {
    if b != [] && b[0].key != k {
      DeleteHomed(b[1..], k, i);
      HomedCons(b[0], Delete(b[1..], k), i);
    }
  }

  /** Adding binds the key if it was free, and changes nothing else. */
  lemma AddMeans(t: Table, n: Node)
    requires Good(t)
    ensures Good(AddTo(t, n))
    ensures forall k :: Find(AddTo(t, n), k) == if k == n.key && Find(t, k) == None then Some(n.data) else Find(t, k)
  {
    if Find(t, n.key) == None {
      var i := Bucket(n.key);
      InsertMeans(t[i], n);
      InsertHomed(t[i], n, i);
    }
  }

  /** Removing unbinds the key, and changes nothing else. */
  lemma RemoveMeans(t: Table, gone: Key)
    requires Good(t)
    ensures Good(RemoveFrom(t, gone))
    ensures forall k :: Find(RemoveFrom(t, gone), k) == if k == gone then None else Find(t, k)
  {
    var i := Bucket(gone);
    DeleteMeans(t[i], gone);
    DeleteHomed(t[i], gone, i);
  }

  lemma ElsewhereAbsent(t: Table, i: nat, k: Key)
    requires Good(t) && i < HASH_LEN && Bucket(k) != i
    ensures FindIn(t[i], k) == None
  {
    FoundIsThere(t[i], k);
  }

  /** A good table is determined by its mapping. */
  lemma TableIsCanonical(t: Table, u: Table)
    requires Good(t) && Good(u) && forall k :: Find(t, k) == Find(u, k)
    ensures t == u
  {
    forall i | 0 <= i < HASH_LEN ensures t[i] == u[i] {
      forall k ensures FindIn(t[i], k) == FindIn(u[i], k) {
        assert Find(t, k) == Find(u, k);
        if Bucket(k) != i {
          ElsewhereAbsent(t, i, k);
          ElsewhereAbsent(u, i, k);
        }
      }
      SortedIsCanonical(t[i], u[i]);
    }
  }

  // ---------------------------------------------------------------- histories

  datatype Op = Add(n: Node) | Remove(k: Key)

  function Apply(t: Table, op: Op): (r: Table)
    requires |t| == HASH_LEN
    ensures |r| == HASH_LEN
  {
    match op
    case Add(n) => AddTo(t, n)
    case Remove(k) => RemoveFrom(t, k)
  }

  function Run(ops: seq<Op>): (r: Table)
    ensures |r| == HASH_LEN
  {
    if ops == [] then Nothing() else Apply(Run(ops[..|ops| - 1]), ops[|ops| - 1])
  }

  /** What the history has bound to `k`: the first add after the last remove. */
  ghost function Bound(ops: seq<Op>, k: Key): Option<Value> {
    if ops == [] then None else
      var was := Bound(ops[..|ops| - 1], k);
      match ops[|ops| - 1]
      case Add(n) => if n.key == k && was == None then Some(n.data) else was
      case Remove(gone) => if gone == k then None else was
  }

  lemma {:induction false} RunMeans(ops: seq<Op>)
    ensures Good(Run(ops)) && forall k :: Find(Run(ops), k) == Bound(ops, k)
    decreases |ops|
  {
    if ops != [] {
      var before := Run(ops[..|ops| - 1]);
      RunMeans(ops[..|ops| - 1]);
      match ops[|ops| - 1]
      case Add(n) => AddMeans(before, n);
      case Remove(k) => RemoveMeans(before, k);
    }
  }

  // ---------------------------------------------------------------- encoding

  function Entries(t: Table): seq<Node>
    decreases |t|
  {
    if t == [] then [] else t[0] + Entries(t[1..])
  }

  function EntryBytes(enc: Value -> seq<Byte>, n: Node): seq<Byte> {
    TextBytes(n.key) + enc(n.data)
  }

  function EntriesBytes(enc: Value -> seq<Byte>, es: seq<Node>): seq<Byte>
    decreases |es|
  {
    if es == [] then [] else EntryBytes(enc, es[0]) + EntriesBytes(enc, es[1..])
  }

  function TableBytes(enc: Value -> seq<Byte>, t: Table): seq<Byte> {
    WordBytes(|Entries(t)|) + EntriesBytes(enc, Entries(t))
  }

  /** Canonicity: two histories that leave the same mapping encode to identical bytes. */
  lemma Canonicity(enc: Value -> seq<Byte>, ops: seq<Op>, ops': seq<Op>)
    requires forall k :: Bound(ops, k) == Bound(ops', k)
    ensures Run(ops) == Run(ops') && TableBytes(enc, Run(ops)) == TableBytes(enc, Run(ops'))
  {
    RunMeans(ops);
    RunMeans(ops');
    TableIsCanonical(Run(ops), Run(ops'));
  }

  // ---------------------------------------------------------------- decoding

  /** The bytes up to the first zero, which is what the string functions see of a decoded key. */
  function CString(s: seq<Byte>): Key
    decreases |s|
  {
    if s == [] || s[0] == 0 then [] else [s[0]] + CString(s[1..])
  }

  lemma {:induction false} CStringOfKey(k: Key)
    ensures CString(k) == k
    decreases |k|
  {
    if k != [] {
      CStringOfKey(k[1..]);
      assert k == [k[0]] + k[1..];
    }
  }

  /** What the decoder leaves behind: the table, whether it succeeded, the bytes taken. */
  datatype Decoded = Decoded(t: Table, ok: bool, used: nat)

  type Decoder = seq<Byte> -> Read<Value>

  ghost predicate Bounded(dec: Decoder) {
    forall s :: dec(s).Read? ==> dec(s).used <= |s|
  }

  /** One entry: nothing if the key or the value cannot be decoded. */
  function DecodeEntry(dec: Decoder, src: seq<Byte>): (r: Read<Node>)
    requires Bounded(dec)
    ensures r.Read? ==> r.used <= |src|
  {
    var k := DecodeText(src);
    if k.Fail? then Fail else
      var v := dec(src[k.used..]);
      if v.Fail? then Fail else Read(Node(CString(k.value), v.value), k.used + v.used)
  }

  /** `n` entries added to `t`; those already added stay when a later one fails. */
  function DecodeEntries(dec: Decoder, t: Table, n: nat, src: seq<Byte>): Decoded
    requires |t| == HASH_LEN && Bounded(dec)
    decreases n
  {
    if n == 0 then Decoded(t, true, 0) else
      var e := DecodeEntry(dec, src);
      if e.Fail? then Decoded(t, false, 0) else
        var r := DecodeEntries(dec, AddTo(t, e.value), n - 1, src[e.used..]);
        Decoded(r.t, r.ok, e.used + r.used)
  }

  function DecodeTable(dec: Decoder, t: Table, src: seq<Byte>): Decoded
    requires |t| == HASH_LEN && Bounded(dec)
  {
    if |src| < 4 then Decoded(t, false, 0) else
      var r := DecodeEntries(dec, t, Word(src), src[4..]);
      Decoded(r.t, r.ok, 4 + r.used)
  }

  /** Decoding what was encoded gives the value back, whatever follows. */
  ghost predicate Recovers(enc: Value -> seq<Byte>, dec: Decoder, v: Value) {
    forall more :: dec(enc(v) + more) == Read(v, |enc(v)|)
  }

  ghost predicate RecoversAll(enc: Value -> seq<Byte>, dec: Decoder, es: seq<Node>) {
    forall i :: 0 <= i < |es| ==> Recovers(enc, dec, es[i].data) && |es[i].key| <= MAX_TEXT
  }

  lemma EntryRoundTrip(enc: Value -> seq<Byte>, dec: Decoder, n: Node, more: seq<Byte>)
    requires Bounded(dec) && Recovers(enc, dec, n.data) && |n.key| <= MAX_TEXT
    ensures DecodeEntry(dec, EntryBytes(enc, n) + more) == Read(n, |EntryBytes(enc, n)|)
  {
    var k, v := TextBytes(n.key), enc(n.data);
    Assoc(k, v, more);
    TextRoundTrip(n.key, v + more);
    assert (k + (v + more))[|k|..] == v + more;
    CStringOfKey(n.key);
  }

  function AddAll(t: Table, es: seq<Node>): (r: Table)
    requires |t| == HASH_LEN
    ensures |r| == HASH_LEN
    decreases |es|
  {
    if es == [] then t else AddAll(AddTo(t, es[0]), es[1..])
  }

  lemma {:induction false} EntriesRoundTrip(enc: Value -> seq<Byte>, dec: Decoder, t: Table, es: seq<Node>,
                                            more: seq<Byte>)
    requires |t| == HASH_LEN && Bounded(dec) && RecoversAll(enc, dec, es)
    ensures DecodeEntries(dec, t, |es|, EntriesBytes(enc, es) + more) ==
            Decoded(AddAll(t, es), true, |EntriesBytes(enc, es)|)
    decreases |es|
  {
    if es != [] {
      var b, rest := EntryBytes(enc, es[0]), EntriesBytes(enc, es[1..]);
      Assoc(b, rest, more);
      EntryRoundTrip(enc, dec, es[0], rest + more);
      assert (b + (rest + more))[|b|..] == rest + more;
      EntriesRoundTrip(enc, dec, AddTo(t, es[0]), es[1..], more);
    }
  }

  /** Adding a list of nodes binds each free key to its first occurrence in the list. */
  lemma {:induction false} AddAllMeans(t: Table, es: seq<Node>)
    requires Good(t)
    ensures Good(AddAll(t, es))
    ensures forall k :: Find(AddAll(t, es), k) == if Find(t, k).Some? then Find(t, k) else FindIn(es, k)
    decreases |es|
  {
    if es != [] {
      AddMeans(t, es[0]);
      AddAllMeans(AddTo(t, es[0]), es[1..]);
    }
  }

  lemma {:induction false} FindInConcat(a: seq<Node>, b: seq<Node>, k: Key)
    ensures FindIn(a + b, k) == if FindIn(a, k).Some? then FindIn(a, k) else FindIn(b, k)
    decreases |a|
  {
    if a == [] {
      assert a + b == b;
    } else {
      FindInConcat(a[1..], b, k);
      assert (a + b)[1..] == a[1..] + b;
    }
  }

  lemma {:induction false} FindInEntries(t: Table, n: nat, k: Key)
    requires Good(t) && n <= HASH_LEN
    ensures FindIn(Entries(t[n..]), k) == if n <= Bucket(k) then Find(t, k) else None
    decreases HASH_LEN - n
  {
    if n < HASH_LEN {
      assert t[n..][0] == t[n] && t[n..][1..] == t[n + 1..];
      FindInConcat(t[n], Entries(t[n + 1..]), k);
      FindInEntries(t, n + 1, k);
      if Bucket(k) != n {
        ElsewhereAbsent(t, n, k);
      }
    }
  }

  /** Decoding the encoding of `u` into `t` consumes exactly its bytes, whatever follows, and merges
      the mapping of `u` under that of `t`. */
  lemma DecodeMerges(enc: Value -> seq<Byte>, dec: Decoder, t: Table, u: Table, more: seq<Byte>)
    requires Good(t) && Good(u) && Bounded(dec) && |Entries(u)| < M32 && RecoversAll(enc, dec, Entries(u))
    ensures var r := DecodeTable(dec, t, TableBytes(enc, u) + more);
            && r.ok && r.used == |TableBytes(enc, u)| && Good(r.t)
            && forall k :: Find(r.t, k) == if Find(t, k).Some? then Find(t, k) else Find(u, k)
  {
    var es := Entries(u);
    var head, b := WordBytes(|es|), EntriesBytes(enc, es);
    Assoc(head, b, more);
    WordRoundTrip(|es|, b + more);
    Split32(|es|, 0, |es|);
    assert (head + (b + more))[4..] == b + more;
    EntriesRoundTrip(enc, dec, t, es, more);
    AddAllMeans(t, es);
    assert u[0..] == u;
    forall k ensures FindIn(es, k) == Find(u, k) {
      FindInEntries(u, 0, k);
    }
  }

  /** Decoding into an empty dictionary recovers the very table that was encoded. */
  lemma DecodeRecovers(enc: Value -> seq<Byte>, dec: Decoder, ops: seq<Op>, more: seq<Byte>)
    requires Bounded(dec) && |Entries(Run(ops))| < M32 && RecoversAll(enc, dec, Entries(Run(ops)))
    ensures DecodeTable(dec, Nothing(), TableBytes(enc, Run(ops)) + more) ==
            Decoded(Run(ops), true, |TableBytes(enc, Run(ops))|)
  {
    RunMeans(ops);
    DecodeMerges(enc, dec, Nothing(), Run(ops), more);
    TableIsCanonical(DecodeTable(dec, Nothing(), TableBytes(enc, Run(ops)) + more).t, Run(ops));
  }

  /** The union coder is one that recovers its values. */
  lemma UnionsRecover(reg: Registry, v: Value)
    requires Typed(reg, Union, v)
    ensures Bounded(src => Decode(reg, Union, src)) && Recovers(Bytes, src => Decode(reg, Union, src), v)
  {
    forall more ensures Decode(reg, Union, Bytes(v) + more) == Read(v, |Bytes(v)|) {
      RoundTrip(reg, Union, v, more);
    }
  }

  // ---------------------------------------------------------------- encoding into a buffer

  type Encoder = Value -> seq<Byte>

  /** One entry into what is left of `max` bytes.  After a failure the next key goes to
      XDR_encode_string, which stops the program (`fault`). */
  function EncodeEntry(enc: Encoder, w: Wrote, n: Node, max: nat): Wrote {
    var used := w.used + |EntryBytes(enc, n)|;
    if w.fault then w
    else if !w.ok then w.(fault := true)
    else if max < used then Wrote(false, false, used, [])
    else Wrote(true, false, used, w.bytes + EntryBytes(enc, n))
  }

  function EncodeEntries(enc: Encoder, w: Wrote, es: seq<Node>, max: nat): Wrote
    decreases |es|
  {
    if es == [] then w else EncodeEntries(enc, EncodeEntry(enc, w, es[0], max), es[1..], max)
  }

  function EncodeTable(enc: Encoder, t: Table, max: nat): Wrote {
    EncodeEntries(enc, Place(WordBytes(|Entries(t)|), 4, true, max), Entries(t), max)
  }

  lemma {:induction false} EntriesBytesLast(enc: Encoder, es: seq<Node>)
    requires es != []
    ensures EntriesBytes(enc, es) == EntriesBytes(enc, es[..|es| - 1]) + EntryBytes(enc, es[|es| - 1])
    decreases |es|
  {
    if |es| > 1 {
      EntriesBytesLast(enc, es[1..]);
      assert es[..|es| - 1][1..] == es[1..][..|es| - 2];
      Assoc(EntryBytes(enc, es[0]), EntriesBytes(enc, es[1..][..|es| - 2]), EntryBytes(enc, es[|es| - 1]));
    }
  }

  lemma {:induction false} StoppedStays(enc: Encoder, w: Wrote, es: seq<Node>, max: nat)
    requires w.fault
    ensures EncodeEntries(enc, w, es, max) == w
    decreases |es|
  {
    if es != [] {
      StoppedStays(enc, w, es[1..], max);
    }
  }

  /** After a failure any further entry stops the program. */
  lemma FailedStops(enc: Encoder, w: Wrote, es: seq<Node>, max: nat)
    requires !w.ok && !w.fault
    ensures EncodeEntries(enc, w, es, max) == if es == [] then w else w.(fault := true)
  {
    if es != [] {
      StoppedStays(enc, w.(fault := true), es[1..], max);
    }
  }

  lemma {:induction false} EntriesOutcome(enc: Encoder, w: Wrote, es: seq<Node>, max: nat)
    requires w.ok && !w.fault && w.used <= max && w.used == |w.bytes|
    ensures var r, total := EncodeEntries(enc, w, es, max), w.used + |EntriesBytes(enc, es)|;
            && (r.fault <==> es != [] && max < w.used + |EntriesBytes(enc, es[..|es| - 1])|)
            && (!r.fault ==> r.used == total && (r.ok <==> total <= max))
            && (!r.fault && r.ok ==> r.bytes == w.bytes + EntriesBytes(enc, es))
    decreases |es|
  {
    if es == [] {
      assert w.bytes + [] == w.bytes;
    } else {
      var w1, rest := EncodeEntry(enc, w, es[0], max), es[1..];
      Assoc(w.bytes, EntryBytes(enc, es[0]), EntriesBytes(enc, rest));
      if rest != [] {
        assert es[..|es| - 1][1..] == rest[..|rest| - 1];
        assert EntriesBytes(enc, es[..|es| - 1]) == EntryBytes(enc, es[0]) + EntriesBytes(enc, rest[..|rest| - 1]);
      }
      if w1.ok {
        EntriesOutcome(enc, w1, rest, max);
      } else {
        FailedStops(enc, w1, rest, max);
      }
    }
  }

  /** The encoder succeeds, with the table's bytes, if and only if they fit; it stops the program if and
      only if the table without its last entry overflows; in between it reports the size needed. */
  lemma TableOutcome(enc: Encoder, t: Table, max: nat)
    ensures var r, b, es := EncodeTable(enc, t, max), TableBytes(enc, t), Entries(t);
            && (r.fault <==> es != [] && max < 4 + |EntriesBytes(enc, es[..|es| - 1])|)
            && (!r.fault ==> r.used == |b| && (r.ok <==> |b| <= max))
            && (!r.fault && r.ok ==> r.bytes == b)
  {
    var es := Entries(t);
    var w := Place(WordBytes(|es|), 4, true, max);
    if w.ok {
      EntriesOutcome(enc, w, es, max);
    } else {
      FailedStops(enc, w, es, max);
    }
  }

  lemma {:induction false} EncodeConcat(enc: Encoder, w: Wrote, a: seq<Node>, b: seq<Node>, max: nat)
    ensures EncodeEntries(enc, w, a + b, max) == EncodeEntries(enc, EncodeEntries(enc, w, a, max), b, max)
    decreases |a|
  {
    if a == [] {
      assert a + b == b;
    } else {
      assert (a + b)[1..] == a[1..] + b;
      EncodeConcat(enc, EncodeEntry(enc, w, a[0], max), a[1..], b, max);
    }
  }

  // ---------------------------------------------------------------- the dictionary object

  lemma {:induction false} EntriesUpdated(t: Table, i: nat, b: seq<Node>)
    requires i < |t|
    ensures |Entries(t[i := b])| == |Entries(t)| - |t[i]| + |b|
    decreases |t|
  {
    if i > 0 {
      EntriesUpdated(t[1..], i - 1, b);
      assert t[i := b][1..] == t[1..][i - 1 := b];
    } else {
      assert t[i := b][1..] == t[1..];
    }
  }

  lemma {:induction false} NoEntries(t: Table)
    requires forall i :: 0 <= i < |t| ==> t[i] == []
    ensures Entries(t) == []
    decreases |t|
  {
    if t != [] {
      NoEntries(t[1..]);
    }
  }

  /** The position the insertion loop stops at. */
  lemma {:induction false} InsertAt(b: seq<Node>, n: Node, i: nat)
    requires i <= |b| && (i == |b| || Compare(n.key, b[i].key) < 0)
    requires forall j :: 0 <= j < i ==> Compare(n.key, b[j].key) >= 0
    ensures Insert(b, n) == b[..i] + [n] + b[i..]
    decreases i
  {
    if i > 0 {
      InsertAt(b[1..], n, i - 1);
      assert b[..i] == [b[0]] + b[1..][..i - 1] && b[i..] == b[1..][i - 1..];
    }
  }

  lemma {:induction false} DeleteAt(b: seq<Node>, k: Key, i: nat)
    requires i < |b| && b[i].key == k && forall j :: 0 <= j < i ==> b[j].key != k
    ensures Delete(b, k) == b[..i] + b[i + 1..] && FindIn(b, k) == Some(b[i].data)
    decreases i
  {
    if i > 0 {
      DeleteAt(b[1..], k, i - 1);
      assert b[..i] == [b[0]] + b[1..][..i - 1] && b[i + 1..] == b[1..][i..];
    }
  }

  lemma {:induction false} DeleteAbsent(b: seq<Node>, k: Key)
    requires FindIn(b, k) == None
    ensures Delete(b, k) == b
    decreases |b|
  {
    if b != [] {
      DeleteAbsent(b[1..], k);
    }
  }

  /** Where `k` is in the list, if it is. */
  ghost predicate At(b: seq<Node>, k: Key, at: Option<nat>) {
    match at
    case Some(i) => i < |b| && b[i].key == k && forall j :: 0 <= j < i ==> b[j].key != k
    case None => FindIn(b, k) == None
  }

  method IndexOf(b: seq<Node>, key: Key) returns (at: Option<nat>)
    ensures At(b, key, at)
  {
    for i := 0 to |b|
      invariant forall j :: 0 <= j < i ==> b[j].key != key
    {
      CompareIsEquality(b[i].key, key);
      if Compare(b[i].key, key) == 0 {
        return Some(i);
      }
    }
    FoundIsThere(b, key);
    at := None;
  }

  /** The insertion loop of XDR_dict_add. */
  method InsertSorted(b: seq<Node>, n: Node) returns (r: seq<Node>)
    ensures r == Insert(b, n)
  {
    var at := 0;
    while at < |b| && Compare(n.key, b[at].key) >= 0
      invariant at <= |b| && forall j :: 0 <= j < at ==> Compare(n.key, b[j].key) >= 0
    {
      at := at + 1;
    }
    InsertAt(b, n, at);
    r := b[..at] + [n] + b[at..];
  }

  lemma AddedCount(t: Table, n: Node)
    requires Good(t) && Find(t, n.key) == None
    ensures |Entries(AddTo(t, n))| == |Entries(t)| + 1
  {
    InsertMeans(t[Bucket(n.key)], n);
    EntriesUpdated(t, Bucket(n.key), Insert(t[Bucket(n.key)], n));
  }

  lemma RemovedCount(t: Table, k: Key)
    requires Good(t) && Find(t, k).Some?
    ensures |Entries(RemoveFrom(t, k))| == |Entries(t)| - 1
  {
    DeleteMeans(t[Bucket(k)], k);
    EntriesUpdated(t, Bucket(k), Delete(t[Bucket(k)], k));
  }

  lemma CounterFollows(length: nat, n: nat)
    requires length == n % M32
    ensures (length + 1) % M32 == (n + 1) % M32 && (length + M32 - 1) % M32 == (n - 1) % M32
  {
    var q := n / M32;
    assert n == M32 * q + length;
    var up, down := if length + 1 == M32 then 0 else length + 1, if length == 0 then M32 - 1 else length - 1;
    Split32(n + 1, if up == 0 then q + 1 else q, up);
    Split32(length + 1, if up == 0 then 1 else 0, up);
    Split32(n - 1, if length == 0 then q - 1 else q, down);
    Split32(length + M32 - 1, if length == 0 then 0 else 1, down);
  }

  /** Two entries with different keys, and room for their number: the first value does not fit, and the
      second key stops the program. */
  lemma SecondKeyStops(enc: Encoder, a: Node, b: Node)
    requires a.key != b.key
    ensures EncodeTable(enc, Run([Add(a), Add(b)]), 4).fault
  {
    hide Entries;
    hide EncodeTable;
    hide Run;
    TwoEntries(a, b);
    TableOutcome(enc, Run([Add(a), Add(b)]), 4);
    assert |EntriesBytes(enc, Entries(Run([Add(a), Add(b)]))[..1])| >= 4;
  }

  lemma TwoEntries(a: Node, b: Node)
    requires a.key != b.key
    ensures |Entries(Run([Add(a), Add(b)]))| == 2
  {
    hide AddTo;
    hide Find;
    hide Good;
    assert [Add(a)][..0] == [] && [Add(a), Add(b)][..1] == [Add(a)];
    RunMeans([]);
    RunMeans([Add(a)]);
    NothingIsGood();
    assert Find(Run([]), a.key) == Bound([], a.key) == None;
    AddedCount(Nothing(), a);
    assert Find(Run([Add(a)]), b.key) == Bound([Add(a)], b.key) == None;
    AddedCount(Run([Add(a)]), b);
  }

  lemma AllCleared(t: Table)
    requires |t| == HASH_LEN && forall i :: 0 <= i < HASH_LEN ==> t[i] == []
    ensures t == Nothing()
  {}

  lemma NothingIsGood()
    ensures Good(Nothing()) && Entries(Nothing()) == []
  {
    NoEntries(Nothing());
  }

  class Dictionary {
    var node: Table
    var length: nat

    /** `length` is a 32-bit counter. */
    ghost predicate Valid()
      reads this
    {
      Good(node) && length == |Entries(node)| % M32
    }

    constructor ()
      ensures Valid() && node == Nothing()
    {
      node, length := Nothing(), 0;
      NothingIsGood();
    }

    method LookupNode(key: Key) returns (at: Option<nat>)
      requires Valid()
      ensures At(node[Bucket(key)], key, at)
    {
      var bucket := DictBucket(key);
      at := IndexOf(node[bucket], key);
    }

    method Lookup(key: Key) returns (v: Option<Value>)
      requires Valid()
      ensures v == Find(node, key)
    {
      var at := LookupNode(key);
      if at.None? {
        return None;
      }
      v := Some(node[Bucket(key)][at.value].data);
      DeleteAt(node[Bucket(key)], key, at.value);
    }

    /** XDR_dict_add: refused if the key is bound already. */
    method Add(key: Key, value: Value) returns (ok: bool)
      requires Valid()
      modifies this
      ensures Valid() && node == AddTo(old(node), Node(key, value)) && (ok <==> Find(old(node), key) == None)
    {
      var found := LookupNode(key);
      if found.Some? {
        DeleteAt(node[Bucket(key)], key, found.value);
        return false;
      }
      var b := InsertSorted(node[Bucket(key)], Node(key, value));
      AddMeans(node, Node(key, value));
      AddedCount(node, Node(key, value));
      CounterFollows(length, |Entries(node)|);
      node, length := node[Bucket(key) := b], (length + 1) % M32;
      ok := true;
    }

    /** XDR_dict_remove. */
    method Remove(key: Key) returns (v: Option<Value>)
      requires Valid()
      modifies this
      ensures Valid() && node == RemoveFrom(old(node), key) && v == Find(old(node), key)
    {
      var found := LookupNode(key);
      var b := node[Bucket(key)];
      if found.None? {
        DeleteAbsent(b, key);
        return None;
      }
      var at := found.value;
      DeleteAt(b, key, at);
      RemoveMeans(node, key);
      RemovedCount(node, key);
      CounterFollows(length, |Entries(node)|);
      v := Some(b[at].data);
      node, length := node[Bucket(key) := b[..at] + b[at + 1..]], (length + M32 - 1) % M32;
    }

    /** XDR_dict_remove_all. */
    method RemoveAll()
      requires Valid()
      modifies this
      ensures Valid() && node == Nothing()
    {
      for i := 0 to HASH_LEN
        invariant |node| == HASH_LEN && forall j :: 0 <= j < i ==> node[j] == []
      {
        RemoveBucket(i);
      }
      length := 0;
      AllCleared(node);
      NothingIsGood();
    }

    method RemoveBucket(i: nat)
      requires i < |node|
      modifies this`node
      ensures node == old(node)[i := []]
    {
      while node[i] != []
        invariant |node| == |old(node)| && node == old(node)[i := node[i]]
        decreases |node[i]|
      {
        node := node[i := node[i][1..]];
      }
    }

    /** XDR_dictionary_encoder with the iteration it hands to XDR_dict_iterate. */
    method Encode(enc: Encoder, dst: array<Byte>, at: nat, max: nat) returns (ok: bool, fault: bool, used: nat)
      requires Valid() && at + max <= dst.Length
      modifies dst
      ensures var w := EncodeTable(enc, node, max);
              ok == w.ok && fault == w.fault && used == w.used && XdrCode.After(old(dst[..]), dst[..], at, max, w)
    {
      ghost var was, w := dst[..], Place(WordBytes(|Entries(node)|), 4, true, max);
      WordOfCount(|Entries(node)|);
      ok, used := XdrCode.EncodeInt(KU32, length, dst, at, max);
      fault := false;
      assert node[0..] == node;
      for i := 0 to HASH_LEN
        invariant EncodeEntries(enc, w, Entries(node[i..]), max) == EncodeTable(enc, node, max)
        invariant ok == w.ok && fault == w.fault && used == w.used && XdrCode.After(was, dst[..], at, max, w)
      {
        assert node[i..][0] == node[i] && node[i..][1..] == node[i + 1..];
        EncodeConcat(enc, w, node[i], Entries(node[i + 1..]), max);
        ok, fault, used := EncodeBucket(enc, node[i], w, was, dst, at, max, ok, fault, used);
        w := EncodeEntries(enc, w, node[i], max);
      }
    }

    /** XDR_dictionary_decoder: entries are added as they are read. */
    method Decode(dec: Decoder, src: seq<Byte>) returns (ok: bool, used: nat)
      requires Valid() && Bounded(dec)
      modifies this
      ensures Valid() && var r := DecodeTable(dec, old(node), src); node == r.t && ok == r.ok && (ok ==> used == r.used)
    {
      if |src| < 4 {
        return false, 0;
      }
      ghost var goal := DecodeTable(dec, node, src);
      var entries: nat := Word(src);
      used := Width(KU32);
      TableStarts(dec, node, entries, src, used);
      while entries > 0
        invariant Valid() && Leads(dec, node, entries, src, used, goal)
      {
        var e := DecodeEntry(dec, src[used..]);
        var left, next := entries - 1, used + if e.Fail? then 0 else e.used;
        EntriesTurn(dec, node, entries, src, used, e, goal, left, next);
        if e.Fail? {
          return false, used;
        }
        AddNode(e.value);
        entries, used := left, next;
      }
      ok := true;
    }

    /** The add of the decoder, which ignores its result. */
    method AddNode(n: Node)
      requires Valid()
      modifies this
      ensures Valid() && node == AddTo(old(node), n)
    {
      var _ := Add(n.key, n.data);
    }
  }

  /** Decoding `n` entries at `used` into `t` ends in `goal`. */
  ghost predicate Leads(dec: Decoder, t: Table, n: nat, src: seq<Byte>, used: nat, goal: Decoded)
    requires |t| == HASH_LEN && Bounded(dec)
  {
    used <= |src| && var r := DecodeEntries(dec, t, n, src[used..]); Decoded(r.t, r.ok, used + r.used) == goal
  }

  lemma TableStarts(dec: Decoder, t: Table, n: nat, src: seq<Byte>, used: nat)
    requires |t| == HASH_LEN && Bounded(dec) && used == 4 <= |src| && n == Word(src)
    ensures Leads(dec, t, n, src, used, DecodeTable(dec, t, src))
  {}

  lemma EntryRead(dec: Decoder, t: Table, left: nat, src: seq<Byte>, e: Read<Node>)
    requires |t| == HASH_LEN && Bounded(dec) && e == DecodeEntry(dec, src) && e.Read?
    ensures var r := DecodeEntries(dec, AddTo(t, e.value), left, src[e.used..]);
            DecodeEntries(dec, t, left + 1, src) == Decoded(r.t, r.ok, e.used + r.used)
  {}

  lemma EntriesTurn(dec: Decoder, t: Table, n: nat, src: seq<Byte>, used: nat, e: Read<Node>, goal: Decoded, left: nat,
                    next: nat)
    requires |t| == HASH_LEN && Bounded(dec) && n == left + 1 && Leads(dec, t, n, src, used, goal)
    requires e == DecodeEntry(dec, src[used..])
    ensures e.Fail? ==> goal.t == t && !goal.ok
    ensures e.Read? && next == used + e.used ==> Leads(dec, AddTo(t, e.value), left, src, next, goal)
  {
    if e.Read? && next == used + e.used {
      EntryRead(dec, t, left, src[used..], e);
      assert src[used..][e.used..] == src[next..];
    }
  }

  lemma WordOfCount(n: nat)
    ensures WordBytes(n % M32) == WordBytes(n) == IntBytes(KU32, n % M32)
  {}

  /** One collision list. */
  method EncodeBucket(enc: Encoder, b: seq<Node>, ghost w0: Wrote, ghost was: seq<Byte>, dst: array<Byte>, at: nat,
                      max: nat, ok0: bool, fault0: bool, used0: nat)
    returns (ok: bool, fault: bool, used: nat)
    requires at + max <= dst.Length && ok0 == w0.ok && fault0 == w0.fault && used0 == w0.used
    requires XdrCode.After(was, dst[..], at, max, w0)
    modifies dst
    ensures var w := EncodeEntries(enc, w0, b, max);
            ok == w.ok && fault == w.fault && used == w.used && XdrCode.After(was, dst[..], at, max, w)
  {
    ghost var w := w0;
    ok, fault, used := ok0, fault0, used0;
    for j := 0 to |b|
      invariant EncodeEntries(enc, w, b[j..], max) == EncodeEntries(enc, w0, b, max)
      invariant ok == w.ok && fault == w.fault && used == w.used && XdrCode.After(was, dst[..], at, max, w)
    {
      assert b[j..][1..] == b[j + 1..];
      ok, fault, used := EncodeNode(enc, b[j], w, was, dst, at, max, ok, fault, used);
      w := EncodeEntry(enc, w, b[j], max);
    }
  }

  /** XDR_dictionary_encoder_itr: the key, then the value. */
  method EncodeNode(enc: Encoder, n: Node, ghost w: Wrote, ghost was: seq<Byte>, dst: array<Byte>, at: nat, max: nat,
                    ok0: bool, fault0: bool, used0: nat)
    returns (ok: bool, fault: bool, used: nat)
    requires at + max <= dst.Length && ok0 == w.ok && fault0 == w.fault && used0 == w.used
    requires XdrCode.After(was, dst[..], at, max, w)
    modifies dst
    ensures var r := EncodeEntry(enc, w, n, max);
            ok == r.ok && fault == r.fault && used == r.used && XdrCode.After(was, dst[..], at, max, r)
  {
    if fault0 || !ok0 {
      return ok0, true, used0;
    }
    var k, v := TextBytes(n.key), enc(n.data);
    used, fault := used0 + |k|, false;
    if max < used {
      return false, false, used + |v|;
    }
    ghost var w1 := PutPiece(k, w, was, dst, at, max, used0);
    if max < used + |v| {
      XdrCode.AfterFailed(was, dst[..], at, max, w1, EncodeEntry(enc, w, n, max));
      return false, false, used + |v|;
    }
    ghost var w2 := PutPiece(v, w1, was, dst, at, max, used);
    Assoc(w.bytes, k, v);
    ok, used := true, used + |v|;
  }

  /** Writes `b` behind what is there, where it fits. */
  method PutPiece(b: seq<Byte>, ghost w: Wrote, ghost was: seq<Byte>, dst: array<Byte>, at: nat, max: nat, used: nat)
    returns (ghost w': Wrote)
    requires at + max <= dst.Length && w.ok && !w.fault && used == w.used && used + |b| <= max
    requires XdrCode.After(was, dst[..], at, max, w)
    modifies dst
    ensures w' == Wrote(true, false, used + |b|, w.bytes + b) && XdrCode.After(was, dst[..], at, max, w')
  {
    ghost var before := dst[..];
    CopyInto(dst, at + used, b);
    XdrCode.PutIs(before, dst[..], at + used, max - used, b);
    XdrCode.AfterBoth(was, before, dst[..], at, max, w, Wrote(true, false, |b|, b));
    w' := Wrote(true, false, used + |b|, w.bytes + b);
  }
}
