/**
 The coders of xdr.c as loops over field tables and buffers, against the functions of module Xdr, and
 the callers that retry with a bigger buffer (ipc.c, cmd.c).
 */
module XdrCode {
  import opened Common
  import opened Xdr

  // ---------------------------------------------------------------- what an encoder does to the buffer

  /** The buffer changed from `was` to `now` within the `max` bytes at `at`, and if the encoder reported
      success in `w` its bytes are there. */
  ghost predicate After(was: seq<Byte>, now: seq<Byte>, at: nat, max: nat, w: Wrote) {
    && |now| == |was| && at + max <= |was|
    && now[..at] == was[..at] && now[at + max..] == was[at + max..]
    && (w.ok && !w.fault ==> w.used <= max && now[at..at + w.used] == w.bytes)
  }

  /** Two encoders one behind the other. */
  lemma AfterBoth(s0: seq<Byte>, s1: seq<Byte>, s2: seq<Byte>, at: nat, max: nat, w1: Wrote, w2: Wrote)
    requires w1.ok && !w1.fault && After(s0, s1, at, max, w1) && w1.used <= max
    requires After(s1, s2, at + w1.used, max - w1.used, w2)
    ensures After(s0, s2, at, max, Wrote(w2.ok, w2.fault, w1.used + w2.used, w1.bytes + w2.bytes))
  {
    var m := at + w1.used;
    assert s2[..at] == s2[..m][..at] == s1[..m][..at] == s1[..at];
    assert s2[at..m] == s2[..m][at..] == s1[..m][at..] == s1[at..m];
    if w2.ok && !w2.fault {
      assert s2[at..m + w2.used] == s2[at..m] + s2[m..m + w2.used];
    }
  }

  lemma AfterFailed(s0: seq<Byte>, s1: seq<Byte>, at: nat, max: nat, w: Wrote, w': Wrote)
    requires After(s0, s1, at, max, w) && (!w'.ok || w'.fault)
    ensures After(s0, s1, at, max, w')
  {}

  // ---------------------------------------------------------------- leaf encoders

  lemma PutIs(was: seq<Byte>, now: seq<Byte>, at: nat, max: nat, b: seq<Byte>)
    requires at + max <= |was| && |b| <= max && now == was[..at] + b + was[at + |b|..]
    ensures After(was, now, at, max, Wrote(true, false, |b|, b))
  {}

  method EncodeInt(k: Kind, n: int, dst: array?<Byte>, at: nat, max: nat) returns (ok: bool, used: nat)
    requires dst != null ==> at + max <= dst.Length
    modifies dst
    ensures var w := Place(IntBytes(k, n), Width(k), dst != null, max);
            ok == w.ok && used == w.used && (dst != null ==> After(old(dst[..]), dst[..], at, max, w))
  {
    used := Width(k);
    if dst == null {
      return true, used;
    }
    if max < used {
      return false, used;
    }
    ghost var was := dst[..];
    CopyInto(dst, at, IntBytes(k, n));
    PutIs(was, dst[..], at, max, IntBytes(k, n));
    ok := true;
  }

  /** XDR_encode_string_array: the length word, the bytes, the padding. */
  method EncodeText(s: seq<Byte>, dst: array?<Byte>, at: nat, max: nat) returns (ok: bool, fault: bool, used: nat)
    requires dst != null ==> at + max <= dst.Length
    modifies dst
    ensures var w := Encode(map[], Text(s), dst != null, max);
            && ok == w.ok && fault == w.fault && used == w.used
            && (dst != null ==> After(old(dst[..]), dst[..], at, max, w))
  {
    used := 4 + |s| + PadTo4(|s|);
    if max < used {
      return false, false, used;
    }
    if dst == null {
      return true, s != [], used;
    }
    ghost var was := dst[..];
    CopyInto(dst, at, TextBytes(s));
    PutIs(was, dst[..], at, max, TextBytes(s));
    ok, fault := true, false;
  }

  lemma {:induction false} NumsSnoc(k: Kind, xs: seq<int>, i: nat)
    requires i < |xs|
    ensures NumsBytes(k, xs[..i + 1]) == NumsBytes(k, xs[..i]) + IntBytes(k, xs[i])
    decreases |xs|
  {
    if i == 0 {
      assert xs[..1] == [xs[0]] && xs[..1][1..] == [];
    } else {
      var t := xs[1..];
      assert xs[..i + 1][1..] == t[..i] && xs[..i][1..] == t[..i - 1];
      NumsSnoc(k, t, i - 1);
      Assoc(IntBytes(k, xs[0]), NumsBytes(k, t[..i - 1]), IntBytes(k, xs[i]));
    }
  }

  // ---------------------------------------------------------------- loops

  /** XDR_array_encoder over an integer encoder. */
  method EncodeNums(k: Kind, xs: seq<int>, dst: array?<Byte>, at: nat, max: nat) returns (ok: bool, used: nat)
    requires dst != null ==> at + max <= dst.Length
    modifies dst
    ensures var w := Place(NumsBytes(k, xs), NumsSize(k, xs), dst != null, max);
            ok == w.ok && used == w.used && (dst != null ==> After(old(dst[..]), dst[..], at, max, w))
  {
    ok, used := true, 0;
    ghost var was := if dst == null then [] else dst[..];
    for i := 0 to |xs|
      invariant used == |NumsBytes(k, xs[..i])| && (ok <==> dst == null || used <= max)
      invariant dst != null ==> After(was, dst[..], at, max, Wrote(ok, false, used, NumsBytes(k, xs[..i])))
    {
      NumsSnoc(k, xs, i);
      ok, used := EncodeNextNum(k, xs[i], NumsBytes(k, xs[..i]), was, dst, at, max, ok, used);
    }
    assert xs[..|xs|] == xs;
    NumsLength(k, xs);
  }

  /** One turn of the loop: after a failure the rest is only counted. */
  method EncodeNextNum(k: Kind, x: int, ghost done: seq<Byte>, ghost was: seq<Byte>, dst: array?<Byte>, at: nat,
                       max: nat, ok0: bool, used0: nat)
    returns (ok: bool, used: nat)
    requires used0 == |done| && (ok0 <==> dst == null || used0 <= max)
    requires dst != null ==> at + max <= dst.Length && After(was, dst[..], at, max, Wrote(ok0, false, used0, done))
    modifies dst
    ensures used == |done + IntBytes(k, x)| && (ok <==> dst == null || used <= max)
    ensures dst != null ==> After(was, dst[..], at, max, Wrote(ok, false, used, done + IntBytes(k, x)))
  {
    if dst != null && ok0 {
      ghost var before, w1 := dst[..], Wrote(true, false, used0, done);
      var sz;
      ok, sz := EncodeInt(k, x, dst, at + used0, max - used0);
      used := used0 + sz;
      ghost var w2 := Place(IntBytes(k, x), Width(k), true, max - used0);
      AfterBoth(was, before, dst[..], at, max, w1, w2);
      if !ok {
        AfterFailed(was, dst[..], at, max, Wrote(w2.ok, w2.fault, used, done + w2.bytes),
          Wrote(ok, false, used, done + IntBytes(k, x)));
      }
    } else {
      ok, used := ok0, used0 + Width(k);
    }
  }

  /** XDR_encode_union, XDR_struct_encoder and the leaf encoders behind a field's function table. */
  method EncodeValue(reg: Registry, v: Value, dst: array?<Byte>, at: nat, max: nat)
    returns (ok: bool, fault: bool, used: nat)
    requires dst != null ==> at + max <= dst.Length
    modifies dst
    ensures var w := Encode(reg, v, dst != null, max);
            && ok == w.ok && fault == w.fault && used == w.used
            && (dst != null ==> After(old(dst[..]), dst[..], at, max, w))
    decreases v, 2
  {
    fault := false;
    match v
    case Num(k, n) => ok, used := EncodeInt(k, n, dst, at, max);
    case Text(s) => ok, fault, used := EncodeText(s, dst, at, max);
    case Nums(k, xs) => ok, used := EncodeNums(k, xs, dst, at, max);
    case Rec(fs) => ok, fault, used := EncodeFields(reg, fs, dst, at, max);
    case Tagged(tag, body) => ok, fault, used := EncodeUnion(reg, tag, body, dst, at, max);
  }

  method EncodeUnion(reg: Registry, tag: int, body: seq<Value>, dst: array?<Byte>, at: nat, max: nat)
    returns (ok: bool, fault: bool, used: nat)
    requires dst != null ==> at + max <= dst.Length
    modifies dst
    ensures var w := Encode(reg, Tagged(tag, body), dst != null, max);
            && ok == w.ok && fault == w.fault && used == w.used
            && (dst != null ==> After(old(dst[..]), dst[..], at, max, w))
    decreases body, 3
  {
    ghost var was := if dst == null then [] else dst[..];
    ghost var w1 := Place(WordBytes(tag), 4, dst != null, max);
    ok, used := EncodeInt(KU32, tag, dst, at, max);
    if tag !in reg {
      return false, false, used;
    }
    if dst != null && ok {
      ok, fault, used := FieldsBehind(reg, body, was, dst, at, max, w1, used);
    } else {
      var ok', sz;
      ok', fault, sz := EncodeFields(reg, body, null, 0, max);
      ok, used := ok && ok', used + sz;
    }
  }

  /** The fields behind what `w1` has written. */
  method FieldsBehind(reg: Registry, fs: seq<Value>, ghost was: seq<Byte>, dst: array<Byte>, at: nat, max: nat,
                      ghost w1: Wrote, used1: nat)
    returns (ok: bool, fault: bool, used: nat)
    requires at + max <= dst.Length && After(was, dst[..], at, max, w1)
    requires w1.ok && !w1.fault && used1 == w1.used <= max
    modifies dst
    ensures var w2 := EncodeTo(reg, fs, |fs|, true, max - used1);
            && ok == w2.ok && fault == w2.fault && used == used1 + w2.used
            && After(was, dst[..], at, max, Wrote(w2.ok, w2.fault, w1.used + w2.used, w1.bytes + w2.bytes))
    decreases fs, 2
  {
    ghost var before := dst[..];
    ok, fault, used := EncodeFields(reg, fs, dst, at + used1, max - used1);
    AfterBoth(was, before, dst[..], at, max, w1, EncodeTo(reg, fs, |fs|, true, max - used1));
    used := used1 + used;
  }

  /** A field behind what `w1` has written. */
  method FieldBehind(reg: Registry, v: Value, ghost was: seq<Byte>, dst: array<Byte>, at: nat, max: nat,
                     ghost w1: Wrote, used1: nat)
    returns (ok: bool, fault: bool, used: nat)
    requires at + max <= dst.Length && After(was, dst[..], at, max, w1)
    requires w1.ok && !w1.fault && used1 == w1.used <= max
    modifies dst
    ensures var w2 := Encode(reg, v, true, max - used1);
            && ok == w2.ok && fault == w2.fault && used == used1 + w2.used
            && After(was, dst[..], at, max, Wrote(w2.ok, w2.fault, w1.used + w2.used, w1.bytes + w2.bytes))
    decreases v, 3
  {
    ghost var before := dst[..];
    ok, fault, used := EncodeValue(reg, v, dst, at + used1, max - used1);
    AfterBoth(was, before, dst[..], at, max, w1, Encode(reg, v, true, max - used1));
    used := used1 + used;
  }

  /** XDR_struct_encoder's loop over the field table. */
  method EncodeFields(reg: Registry, fs: seq<Value>, dst: array?<Byte>, at: nat, max: nat)
    returns (ok: bool, fault: bool, used: nat)
    requires dst != null ==> at + max <= dst.Length
    modifies dst
    ensures var w := EncodeTo(reg, fs, |fs|, dst != null, max);
            && ok == w.ok && fault == w.fault && used == w.used
            && (dst != null ==> After(old(dst[..]), dst[..], at, max, w))
    decreases fs, 1
  {
    ok, fault, used := true, false, 0;
    ghost var was := if dst == null then [] else dst[..];
    for n := 0 to |fs|
      invariant var w := EncodeTo(reg, fs, n, dst != null, max);
                ok == w.ok && fault == w.fault && used == w.used && (dst != null ==> After(was, dst[..], at, max, w))
    {
      ok, fault, used := EncodeNext(reg, fs, n, was, dst, at, max, ok, fault, used);
    }
  }

  /** One turn of the loop.  A faulted encoder has stopped for good. */
  method EncodeNext(reg: Registry, fs: seq<Value>, n: nat, ghost was: seq<Byte>, dst: array?<Byte>, at: nat, max: nat,
                    ok0: bool, fault0: bool, used0: nat)
    returns (ok: bool, fault: bool, used: nat)
    requires n < |fs| && (dst != null ==> at + max <= dst.Length)
    requires var w := EncodeTo(reg, fs, n, dst != null, max);
             ok0 == w.ok && fault0 == w.fault && used0 == w.used && (dst != null ==> After(was, dst[..], at, max, w))
    modifies dst
    ensures var w := EncodeTo(reg, fs, n + 1, dst != null, max);
            ok == w.ok && fault == w.fault && used == w.used && (dst != null ==> After(was, dst[..], at, max, w))
    decreases fs, 0
  {
    if fault0 {
      return ok0, fault0, used0;
    }
    ghost var w1 := EncodeTo(reg, fs, n, dst != null, max);
    if dst != null && ok0 {
      ok, fault, used := FieldBehind(reg, fs[n], was, dst, at, max, w1, used0);
      FieldWritten(reg, fs, n, max, w1, Encode(reg, fs[n], true, max - used0));
    } else {
      var _, f, sz := EncodeValue(reg, fs[n], null, 0, max);
      ok, fault, used := ok0, f, used0 + sz;
      ghost var w := FieldSized(reg, fs, n, dst != null, max, w1);
      if dst != null {
        AfterFailed(was, dst[..], at, max, w1, w);
      }
    }
  }

  lemma FieldWritten(reg: Registry, fs: seq<Value>, n: nat, max: nat, w1: Wrote, w2: Wrote)
    requires n < |fs| && w1 == EncodeTo(reg, fs, n, true, max) && w1.ok && !w1.fault
    requires w2 == Encode(reg, fs[n], true, max - w1.used)
    ensures EncodeTo(reg, fs, n + 1, true, max) == Wrote(w2.ok, w2.fault, w1.used + w2.used, w1.bytes + w2.bytes)
  {}

  lemma FieldSized(reg: Registry, fs: seq<Value>, n: nat, dst: bool, max: nat, w1: Wrote) returns (w: Wrote)
    requires n < |fs| && w1 == EncodeTo(reg, fs, n, dst, max) && !(dst && w1.ok) && !w1.fault
    ensures w == EncodeTo(reg, fs, n + 1, dst, max) && w.ok == w1.ok
    ensures w.fault == Encode(reg, fs[n], false, max).fault && w.used == w1.used + Encode(reg, fs[n], false, max).used
  {
    w := EncodeTo(reg, fs, n + 1, dst, max);
  }

  // ---------------------------------------------------------------- decoders

  /** A result `used` bytes further on, behind what was decoded before. */
  function Beyond<T>(used: nat, r: Read<T>): Read<T> {
    if r.Fail? then Fail else Read(r.value, used + r.used)
  }

  /** The elements decoded so far in front of the rest. */
  function Prefixed(xs: seq<int>, used: nat, r: Read<seq<int>>): Read<seq<int>> {
    if r.Fail? then Fail else Read(xs + r.value, used + r.used)
  }

  lemma NothingBefore(r: Read<seq<int>>)
    ensures Prefixed([], 0, r) == r
  {
    assert r.Read? ==> [] + r.value == r.value;
  }

  lemma NumsTurn(k: Kind, n: nat, src: seq<Byte>, xs: seq<int>, used: nat)
    requires n > 0 && used + Width(k) <= |src|
    ensures Prefixed(xs, used, DecodeNums(k, n, src[used..]))
         == Prefixed(xs + [IntValue(k, src[used..])], used + Width(k), DecodeNums(k, n - 1, src[used + Width(k)..]))
  {
    assert src[used..][Width(k)..] == src[used + Width(k)..];
    var rest := DecodeNums(k, n - 1, src[used + Width(k)..]);
    if rest.Read? {
      assert xs + ([IntValue(k, src[used..])] + rest.value) == xs + [IntValue(k, src[used..])] + rest.value;
    }
  }

  /** XDR_array_decoder's loop over an integer decoder. */
  method DecodeArray(k: Kind, n: nat, src: seq<Byte>) returns (r: Read<seq<int>>)
    ensures r == DecodeNums(k, n, src)
  {
    var xs, used: nat := [], 0;
    NothingBefore(DecodeNums(k, n, src));
    assert src[0..] == src;
    for i := 0 to n
      invariant used <= |src| && Prefixed(xs, used, DecodeNums(k, n - i, src[used..])) == DecodeNums(k, n, src)
    {
      if |src| - used < Width(k) {
        return Fail;
      }
      NumsTurn(k, n - i, src, xs, used);
      xs, used := xs + [IntValue(k, src[used..])], used + Width(k);
    }
    r := Read(xs, used);
    assert xs + [] == xs;
  }

  method DecodeValue(reg: Registry, t: Type, src: seq<Byte>) returns (r: Read<Value>)
    ensures r == Decode(reg, t, src)
    decreases |src|, t, 0
  {
    match t
    case Int(k) =>
      r := if |src| < Width(k) then Fail else Read(Num(k, IntValue(k, src)), Width(k));
    case Str =>
      var s := DecodeText(src);
      r := if s.Fail? then Fail else Read(Text(s.value), s.used);
    case Counted(_, _) =>
      r := Fail;
    case Struct(ts) =>
      var fs := DecodeStruct(reg, ts, src);
      r := if fs.Fail? then Fail else Read(Rec(fs.value), fs.used);
    case Union =>
      if |src| < 4 || Word(src) !in reg {
        return Fail;
      }
      var fs := DecodeStruct(reg, reg[Word(src)], src[4..]);
      r := if fs.Fail? then Fail else Read(Tagged(Word(src), fs.value), 4 + fs.used);
  }

  /** Decoding the fields after `done` at `used` ends in `goal`. */
  ghost predicate Leads(reg: Registry, ts: seq<Type>, done: seq<Value>, src: seq<Byte>, used: nat,
                        goal: Read<seq<Value>>)
    requires |done| <= |ts|
  {
    used <= |src| && Beyond(used, DecodeFields(reg, ts, done, src[used..])) == goal
  }

  lemma StructTurn(reg: Registry, ts: seq<Type>, done: seq<Value>, src: seq<Byte>, used: nat, f: Read<Value>,
                   goal: Read<seq<Value>>)
    requires |done| < |ts| && Leads(reg, ts, done, src, used, goal) && f == DecodeField(reg, ts, done, src[used..])
    ensures f.Fail? ==> goal == Fail
    ensures f.Read? ==> Leads(reg, ts, done + [f.value], src, used + f.used, goal)
  {
    if f.Read? {
      assert src[used..][f.used..] == src[used + f.used..];
    }
  }

  /** XDR_struct_decoder's loop over the field table. */
  method DecodeStruct(reg: Registry, ts: seq<Type>, src: seq<Byte>) returns (r: Read<seq<Value>>)
    ensures r == DecodeFields(reg, ts, [], src)
    decreases |src|, ts, 2
  {
    ghost var goal := DecodeFields(reg, ts, [], src);
    var done, used: nat := [], 0;
    assert src[0..] == src;
    while |done| < |ts|
      invariant |done| <= |ts| && Leads(reg, ts, done, src, used, goal)
      decreases |ts| - |done|
    {
      var f := DecodeNext(reg, ts, done, src[used..]);
      StructTurn(reg, ts, done, src, used, f, goal);
      if f.Fail? {
        return Fail;
      }
      done, used := done + [f.value], used + f.used;
    }
    r := Read(done, used);
  }

  method DecodeNext(reg: Registry, ts: seq<Type>, done: seq<Value>, src: seq<Byte>) returns (r: Read<Value>)
    requires |done| < |ts|
    ensures r == DecodeField(reg, ts, done, src)
    decreases |src|, ts, 1
  {
    var t := ts[|done|];
    if t.Counted? {
      var n := CountOf(done, t.lenAt);
      if n < 0 {
        return Fail;
      }
      var xs := DecodeArray(t.k, n, src);
      r := if xs.Fail? then Fail else Read(Nums(t.k, xs.value), xs.used);
    } else {
      r := DecodeValue(reg, t, src);
    }
  }

  // ---------------------------------------------------------------- callers that retry

  /** What a caller sends: nothing, the bytes, or it has faulted. */
  datatype Sent = Nothing | Bytes(b: seq<Byte>) | Faulted

  /** Encodes into a buffer of `first` bytes and, if the size reported is larger, once more into one of
      that size plus `slack`. */
  method EncodeWithRetry(reg: Registry, v: Value, first: nat, slack: nat) returns (r: Sent)
    ensures Encodable(reg, v) ==> r == if Spills(v, first) then Faulted else Sent.Bytes(Xdr.Bytes(v))
    ensures Encodable(reg, v) && StringFree(v) ==> r == Sent.Bytes(Xdr.Bytes(v))
  {
    var buff := new Byte[first];
    var ok, fault, len := EncodeValue(reg, v, buff, 0, first);
    if Encodable(reg, v) {
      SizeReported(reg, v, first);
      if StringFree(v) {
        StringFreeIsSafe(v, first);
      }
    }
    if fault {
      return Faulted;
    }
    if !ok {
      if len <= first {
        return Nothing;
      }
      var size := len + slack;
      buff := new Byte[size];
      ok, fault, len := EncodeValue(reg, v, buff, 0, size);
      if Encodable(reg, v) {
        EncodeFits(reg, v, size);
      }
      if fault {
        return Faulted;
      }
      if !ok {
        return Nothing;
      }
    }
    r := Sent.Bytes(buff[..len]);
    assert buff[0..0 + len] == buff[..len];
  }

  /** IPC_command_internal: 1024 bytes, then exactly the size reported. */
  method EncodeCommand(reg: Registry, cmd: int, ipcref: int, paramType: int, params: seq<Value>) returns (r: Sent)
    ensures var v := Rec([Num(KU32, cmd), Num(KU32, ipcref), Tagged(paramType, params)]);
            && (Encodable(reg, v) ==> r == if Spills(v, 1024) then Faulted else Sent.Bytes(Xdr.Bytes(v)))
            && (Encodable(reg, v) && StringFree(v) ==> r == Sent.Bytes(Xdr.Bytes(v)))
  {
    r := EncodeWithRetry(reg, Rec([Num(KU32, cmd), Num(KU32, ipcref), Tagged(paramType, params)]), 1024, 0);
  }

  /** CMD_struct_to_opaque_struct: 256 bytes, then 16 more than the size reported. */
  method StructToOpaque(reg: Registry, tag: int, body: seq<Value>) returns (r: Sent)
    ensures var v := Tagged(tag, body);
            && (Encodable(reg, v) ==> r == if Spills(v, 256) then Faulted else Sent.Bytes(Xdr.Bytes(v)))
            && (Encodable(reg, v) && StringFree(v) ==> r == Sent.Bytes(Xdr.Bytes(v)))
  {
    r := EncodeWithRetry(reg, Tagged(tag, body), 256, 16);
  }

  /** A command sent by EncodeCommand and decoded by the receiver. */
  method CommandRoundTrip(reg: Registry, cmd: int, ipcref: int, paramType: int, params: seq<Value>)
    returns (r: Option<Read<Value>>)
    ensures var v := Rec([Num(KU32, cmd), Num(KU32, ipcref), Tagged(paramType, params)]);
            Typed(reg, Struct([Int(KU32), Int(KU32), Union]), v) && Encodable(reg, v) && !Spills(v, 1024) ==>
              r == Some(Read(v, |Xdr.Bytes(v)|))
  {
    ghost var v := Rec([Num(KU32, cmd), Num(KU32, ipcref), Tagged(paramType, params)]);
    var sent := EncodeCommand(reg, cmd, ipcref, paramType, params);
    if !sent.Bytes? {
      return None;
    }
    var d := DecodeValue(reg, Struct([Int(KU32), Int(KU32), Union]), sent.b);
    r := Some(d);
    if Typed(reg, Struct([Int(KU32), Int(KU32), Union]), v) {
      RoundTrip(reg, Struct([Int(KU32), Int(KU32), Union]), v, []);
      assert Xdr.Bytes(v) + [] == Xdr.Bytes(v);
    }
  }
}
