/**
 The table-driven coders of xdr.c for integers, strings, counted integer arrays, structures and
 registered unions (RFC 4506 sections 4.1, 4.2, 4.5, 4.11, 4.14 and 4.15), with the size-reporting
 behaviour on a buffer that is too small, or missing.
 */
module Xdr {
  import opened Common

  datatype Kind = KU32 | KI32 | KU64 | KI64

  /** The type of a field: `Counted` is an array whose length stands in field `lenAt` of its structure. */
  datatype Type = Int(k: Kind) | Str | Counted(k: Kind, lenAt: nat) | Struct(fields: seq<Type>) | Union

  datatype Value =
    | Num(k: Kind, n: int)
    | Text(s: seq<Byte>)
    | Nums(k: Kind, xs: seq<int>)
    | Rec(fields: seq<Value>)
    | Tagged(tag: int, body: seq<Value>)

  /** The registered structures by type number, each a field table. */
  type Registry = map<int, seq<Type>>

  /** The longest string whose padded length is below 2^32: the coders add length and padding in 32 bits. */
  const MAX_TEXT := M32 - 4

  /** What strlen can measure. */
  predicate NoZero(s: seq<Byte>) {
    forall i :: 0 <= i < |s| ==> s[i] != 0
  }

  // ---------------------------------------------------------------- integers

  function Width(k: Kind): nat {
    if k.KU32? || k.KI32? then 4 else 8
  }

  predicate Fits(k: Kind, n: int) {
    match k
    case KU32 => 0 <= n < M32
    case KI32 => -0x8000_0000 <= n < 0x8000_0000
    case KU64 => 0 <= n < M64
    case KI64 => -0x8000_0000_0000_0000 <= n < 0x8000_0000_0000_0000
  }

  /** Four bytes in network order, of the low 32 bits of `n`. */
  function WordBytes(n: int): (b: seq<Byte>)
    ensures |b| == 4
  {
    var w := n % M32;
    [w / 256 / 256 / 256, w / 256 / 256 % 256, w / 256 % 256, w % 256]
  }

  function Word(b: seq<Byte>): (w: int)
    requires |b| >= 4
    ensures 0 <= w < M32
  {
    ((b[0] as int * 256 + b[1] as int) * 256 + b[2] as int) * 256 + b[3] as int
  }

  function Signed(w: int): int {
    if w < 0x8000_0000 then w else w - M32
  }

  /** The 64-bit coders send the high word, arithmetic shift for signed ones, and then the low word. */
  function IntBytes(k: Kind, n: int): (b: seq<Byte>)
    ensures |b| == Width(k)
  {
    if Width(k) == 4 then WordBytes(n) else WordBytes(n / M32) + WordBytes(n)
  }

  function IntValue(k: Kind, b: seq<Byte>): int
    requires |b| >= Width(k)
  {
    match k
    case KU32 => Word(b)
    case KI32 => Signed(Word(b))
    case KU64 => Word(b) * M32 + Word(b[4..])
    case KI64 => Signed(Word(b)) * M32 + Word(b[4..])
  }

  lemma WordRoundTrip(n: int, more: seq<Byte>)
    ensures Word(WordBytes(n) + more) == n % M32
  {
    var w := n % M32;
    var w1, w2 := w / 256, w / 256 / 256;
    assert w == 256 * w1 + w % 256 && w1 == 256 * w2 + w1 % 256 && w2 == 256 * (w2 / 256) + w2 % 256;
    var b := WordBytes(n) + more;
    assert b[0] == w2 / 256 && b[1] == w2 % 256 && b[2] == w1 % 256 && b[3] == w % 256;
  }

  lemma IntRoundTrip(k: Kind, n: int, more: seq<Byte>)
    requires Fits(k, n)
    ensures IntValue(k, IntBytes(k, n) + more) == n
  {
    var q, r := n / M32, n % M32;
    assert n == M32 * q + r;
    if Width(k) == 4 {
      WordRoundTrip(n, more);
      Split32(n, if n < 0 then -1 else 0, if n < 0 then n + M32 else n);
    } else {
      var hi, lo := WordBytes(q), WordBytes(n);
      assert hi + lo + more == hi + (lo + more) && (hi + lo + more)[4..] == lo + more;
      WordRoundTrip(q, lo + more);
      WordRoundTrip(n, more);
      Split32(q, if q < 0 then -1 else 0, if q < 0 then q + M32 else q);
    }
  }

  // ---------------------------------------------------------------- the format

  function PadTo4(n: nat): (p: nat)
    ensures p < 4 && (n + p) % 4 == 0
  {
    (4 - n % 4) % 4
  }

  function TextBytes(s: seq<Byte>): seq<Byte> {
    WordBytes(|s|) + s + Zeros(PadTo4(|s|))
  }

  function NumsBytes(k: Kind, xs: seq<int>): seq<Byte> {
    if xs == [] then [] else IntBytes(k, xs[0]) + NumsBytes(k, xs[1..])
  }

  /** The encoding of a value. */
  function Bytes(v: Value): seq<Byte>
    decreases v, 0
  {
    match v
    case Num(k, n) => IntBytes(k, n)
    case Text(s) => TextBytes(s)
    case Nums(k, xs) => NumsBytes(k, xs)
    case Rec(fs) => BytesTo(fs, |fs|)
    case Tagged(tag, body) => WordBytes(tag) + BytesTo(body, |body|)
  }

  /** The encodings of the first `n` fields. */
  function BytesTo(fs: seq<Value>, n: nat): seq<Byte>
    requires n <= |fs|
    decreases fs, n
  {
    if n == 0 then [] else BytesTo(fs, n - 1) + Bytes(fs[n - 1])
  }

  /** The encodings of the fields from `n` on. */
  function BytesFrom(fs: seq<Value>, n: nat): seq<Byte>
    requires n <= |fs|
    decreases fs, |fs| - n
  {
    if n == |fs| then [] else Bytes(fs[n]) + BytesFrom(fs, n + 1)
  }

  lemma {:induction false} FromIsRest(fs: seq<Value>, n: nat)
    requires n <= |fs|
    ensures BytesTo(fs, |fs|) == BytesTo(fs, n) + BytesFrom(fs, n)
    decreases |fs| - n
  {
    if n < |fs| {
      FromIsRest(fs, n + 1);
      assert BytesTo(fs, n) + Bytes(fs[n]) + BytesFrom(fs, n + 1) ==
        BytesTo(fs, n) + (Bytes(fs[n]) + BytesFrom(fs, n + 1));
    }
  }

  lemma AllBytes(fs: seq<Value>)
    ensures BytesTo(fs, |fs|) == BytesFrom(fs, 0)
  {
    FromIsRest(fs, 0);
    assert [] + BytesFrom(fs, 0) == BytesFrom(fs, 0);
  }

  lemma Assoc(a: seq<Byte>, b: seq<Byte>, c: seq<Byte>)
    ensures a + b + c == a + (b + c)
  {}

  // ---------------------------------------------------------------- decoding

  /** What a decoder reports: failure, or a value and the number of bytes it took. */
  datatype Read<T> = Fail | Read(value: T, used: nat)

  function DecodeText(src: seq<Byte>): Read<seq<Byte>> {
    if |src| < 4 then Fail else
      var n := Word(src);
      if 4 + n + PadTo4(n) > |src| then Fail else Read(src[4..4 + n], 4 + n + PadTo4(n))
  }

  function DecodeNums(k: Kind, n: nat, src: seq<Byte>): (r: Read<seq<int>>)
    ensures r.Read? ==> r.used <= |src|
    decreases n
  {
    if n == 0 then Read([], 0)
    else if |src| < Width(k) then Fail
    else
      var rest := DecodeNums(k, n - 1, src[Width(k)..]);
      if rest.Fail? then Fail else Read([IntValue(k, src)] + rest.value, Width(k) + rest.used)
  }

  /** The length of a counted array: the 32-bit field `lenAt` read as a signed integer. */
  function CountOf(done: seq<Value>, lenAt: nat): int {
    if lenAt < |done| && done[lenAt].Num? && Width(done[lenAt].k) == 4 then Signed(done[lenAt].n % M32) else -1
  }

  function Decode(reg: Registry, t: Type, src: seq<Byte>): (r: Read<Value>)
    ensures r.Read? ==> r.used <= |src|
    decreases |src|, t, 0
  {
    match t
    case Int(k) => if |src| < Width(k) then Fail else Read(Num(k, IntValue(k, src)), Width(k))
    case Str =>
      var r := DecodeText(src);
      if r.Fail? then Fail else Read(Text(r.value), r.used)
    case Counted(_, _) => Fail
    case Struct(ts) =>
      var r := DecodeFields(reg, ts, [], src);
      if r.Fail? then Fail else Read(Rec(r.value), r.used)
    case Union =>
      if |src| < 4 || Word(src) !in reg then Fail else
        var r := DecodeFields(reg, reg[Word(src)], [], src[4..]);
        if r.Fail? then Fail else Read(Tagged(Word(src), r.value), 4 + r.used)
  }

  /** XDR_struct_decoder from field `|done|` of the table on. */
  function DecodeFields(reg: Registry, ts: seq<Type>, done: seq<Value>, src: seq<Byte>): (r: Read<seq<Value>>)
    requires |done| <= |ts|
    ensures r.Read? ==> r.used <= |src|
    decreases |src|, ts, |ts| - |done|
  {
    if |done| == |ts| then Read(done, 0) else
      var f := DecodeField(reg, ts, done, src);
      if f.Fail? then Fail else
        var rest := DecodeFields(reg, ts, done + [f.value], src[f.used..]);
        if rest.Fail? then Fail else Read(rest.value, f.used + rest.used)
  }

  function DecodeField(reg: Registry, ts: seq<Type>, done: seq<Value>, src: seq<Byte>): (r: Read<Value>)
    requires |done| < |ts|
    ensures r.Read? ==> r.used <= |src|
    decreases |src|, ts, 0
  {
    var t := ts[|done|];
    if t.Counted? then
      var n := CountOf(done, t.lenAt);
      if n < 0 then Fail else
        var r := DecodeNums(t.k, n, src);
        if r.Fail? then Fail else Read(Nums(t.k, r.value), r.used)
    else Decode(reg, t, src)
  }

  // ---------------------------------------------------------------- round trip

  /** `v` is a value of type `t`. */
  ghost predicate Typed(reg: Registry, t: Type, v: Value)
    decreases v, 0
  {
    match v
    case Num(k, n) => t == Int(k) && Fits(k, n)
    case Text(s) => t == Str && |s| <= MAX_TEXT && NoZero(s)
    case Nums(k, xs) => t.Counted? && t.k == k && |xs| < 0x8000_0000 && forall i :: 0 <= i < |xs| ==> Fits(k, xs[i])
    case Rec(fs) => t.Struct? && TypedFields(reg, t.fields, fs)
    case Tagged(tag, body) => t == Union && 0 <= tag < M32 && tag in reg && TypedFields(reg, reg[tag], body)
  }

  /** Every array has its length in an earlier 32-bit field. */
  ghost predicate TypedFields(reg: Registry, ts: seq<Type>, fs: seq<Value>)
    decreases fs, 0
  {
    && |ts| == |fs|
    && (forall i :: 0 <= i < |fs| ==> Typed(reg, ts[i], fs[i]))
    && (forall i :: 0 <= i < |fs| && ts[i].Counted? ==>
          && ts[i].lenAt < i && fs[i].Nums? && fs[ts[i].lenAt].Num?
          && Width(fs[ts[i].lenAt].k) == 4 && fs[ts[i].lenAt].n == |fs[i].xs|)
  }

  lemma TextRoundTrip(s: seq<Byte>, more: seq<Byte>)
    requires |s| <= MAX_TEXT
    ensures DecodeText(TextBytes(s) + more) == Read(s, |TextBytes(s)|)
  {
    var b := TextBytes(s) + more;
    assert b == WordBytes(|s|) + (s + Zeros(PadTo4(|s|)) + more);
    WordRoundTrip(|s|, s + Zeros(PadTo4(|s|)) + more);
    assert b[4..4 + |s|] == s;
  }

  /** One element decoded off the front. */
  lemma NumsStep(k: Kind, n: nat, x: int, rest: seq<Byte>, r: Read<seq<int>>)
    requires Fits(k, x) && DecodeNums(k, n, rest) == r && r.Read?
    ensures DecodeNums(k, n + 1, IntBytes(k, x) + rest) == Read([x] + r.value, Width(k) + r.used)
  {
    IntRoundTrip(k, x, rest);
    assert (IntBytes(k, x) + rest)[Width(k)..] == rest;
  }

  lemma {:induction false} NumsRoundTrip(k: Kind, xs: seq<int>, more: seq<Byte>)
    requires forall i :: 0 <= i < |xs| ==> Fits(k, xs[i])
    ensures DecodeNums(k, |xs|, NumsBytes(k, xs) + more) == Read(xs, |NumsBytes(k, xs)|)
    decreases |xs|
  {
    if xs != [] {
      var head, tail := IntBytes(k, xs[0]), NumsBytes(k, xs[1..]);
      NumsRoundTrip(k, xs[1..], more);
      calc {
        DecodeNums(k, |xs|, NumsBytes(k, xs) + more);
        { Assoc(head, tail, more); }
        DecodeNums(k, |xs|, head + (tail + more));
        { NumsStep(k, |xs| - 1, xs[0], tail + more, Read(xs[1..], |tail|)); }
        Read([xs[0]] + xs[1..], Width(k) + |tail|);
        { assert [xs[0]] + xs[1..] == xs; }
        Read(xs, |NumsBytes(k, xs)|);
      }
    }
  }

  /** Every encoding is a multiple of four bytes long. */
  lemma {:induction false} Aligned(v: Value)
    ensures |Bytes(v)| % 4 == 0
    decreases v, 0
  {
    match v
    case Num(k, n) =>
    case Text(s) => assert (4 + (|s| + PadTo4(|s|))) % 4 == 0;
    case Nums(k, xs) => NumsAligned(k, xs);
    case Rec(fs) => AlignedTo(fs, |fs|);
    case Tagged(tag, body) => AlignedTo(body, |body|);
  }

  lemma {:induction false} AlignedTo(fs: seq<Value>, n: nat)
    requires n <= |fs|
    ensures |BytesTo(fs, n)| % 4 == 0
    decreases fs, n
  {
    if n > 0 {
      AlignedTo(fs, n - 1);
      Aligned(fs[n - 1]);
    }
  }

  lemma {:induction false} NumsAligned(k: Kind, xs: seq<int>)
    ensures |NumsBytes(k, xs)| % 4 == 0
    decreases |xs|
  {
    if xs != [] {
      NumsAligned(k, xs[1..]);
    }
  }

  /** Decoding an encoding gives the value back and consumes exactly the bytes produced, whatever
      follows them. */
  lemma {:induction false} RoundTrip(reg: Registry, t: Type, v: Value, more: seq<Byte>)
    requires Typed(reg, t, v) && !v.Nums?
    ensures Decode(reg, t, Bytes(v) + more) == Read(v, |Bytes(v)|)
    decreases v, 0
  {
    match v
    case Num(k, n) => IntRoundTrip(k, n, more);
    case Text(s) => TextRoundTrip(s, more);
    case Rec(fs) =>
      FieldsRoundTrip(reg, t.fields, fs, 0, more);
      StructStep(reg, t.fields, fs, more);
    case Tagged(tag, body) =>
      FieldsRoundTrip(reg, reg[tag], body, 0, more);
      UnionStep(reg, tag, body, more);
  }

  lemma StructStep(reg: Registry, ts: seq<Type>, fs: seq<Value>, more: seq<Byte>)
    requires DecodeFields(reg, ts, fs[..0], BytesFrom(fs, 0) + more) == Read(fs, |BytesFrom(fs, 0)|)
    ensures Decode(reg, Struct(ts), Bytes(Rec(fs)) + more) == Read(Rec(fs), |Bytes(Rec(fs))|)
  {
    AllBytes(fs);
    assert fs[..0] == [];
  }

  lemma UnionStep(reg: Registry, tag: int, body: seq<Value>, more: seq<Byte>)
    requires 0 <= tag < M32 && tag in reg
    requires DecodeFields(reg, reg[tag], body[..0], BytesFrom(body, 0) + more) == Read(body, |BytesFrom(body, 0)|)
    ensures Decode(reg, Union, Bytes(Tagged(tag, body)) + more) == Read(Tagged(tag, body), |Bytes(Tagged(tag, body))|)
  {
    AllBytes(body);
    assert body[..0] == [];
    var b := BytesFrom(body, 0);
    Assoc(WordBytes(tag), b, more);
    WordRoundTrip(tag, b + more);
    Split32(tag, 0, tag);
    assert (WordBytes(tag) + (b + more))[4..] == b + more;
  }

  /** One field decoded off the front. */
  lemma FieldsStep(reg: Registry, ts: seq<Type>, fs: seq<Value>, n: nat, more: seq<Byte>)
    requires |ts| == |fs| && n < |fs|
    requires DecodeField(reg, ts, fs[..n], Bytes(fs[n]) + (BytesFrom(fs, n + 1) + more)) == Read(fs[n], |Bytes(fs[n])|)
    requires DecodeFields(reg, ts, fs[..n + 1], BytesFrom(fs, n + 1) + more) == Read(fs, |BytesFrom(fs, n + 1)|)
    ensures DecodeFields(reg, ts, fs[..n], BytesFrom(fs, n) + more) == Read(fs, |BytesFrom(fs, n)|)
  {
    var b, rest := Bytes(fs[n]), BytesFrom(fs, n + 1);
    Assoc(b, rest, more);
    assert (b + (rest + more))[|b|..] == rest + more;
    assert fs[..n] + [fs[n]] == fs[..n + 1];
  }

  lemma {:induction false} FieldsRoundTrip(reg: Registry, ts: seq<Type>, fs: seq<Value>, n: nat, more: seq<Byte>)
    requires TypedFields(reg, ts, fs) && n <= |fs|
    ensures DecodeFields(reg, ts, fs[..n], BytesFrom(fs, n) + more) == Read(fs, |BytesFrom(fs, n)|)
    decreases fs, |fs| - n
  {
    if n == |fs| {
      assert fs[..n] == fs;
    } else {
      FieldRoundTrip(reg, ts, fs, n, BytesFrom(fs, n + 1) + more);
      FieldsRoundTrip(reg, ts, fs, n + 1, more);
      FieldsStep(reg, ts, fs, n, more);
    }
  }

  lemma {:induction false} FieldRoundTrip(reg: Registry, ts: seq<Type>, fs: seq<Value>, n: nat, more: seq<Byte>)
    requires TypedFields(reg, ts, fs) && n < |fs|
    ensures DecodeField(reg, ts, fs[..n], Bytes(fs[n]) + more) == Read(fs[n], |Bytes(fs[n])|)
    decreases fs, 0
  {
    if fs[n].Nums? {
      var at := ts[n].lenAt;
      var count := fs[at].n;
      assert fs[..n][at] == fs[at];
      Split32(count, 0, count);
      assert CountOf(fs[..n], at) == |fs[n].xs|;
      NumsRoundTrip(fs[n].k, fs[n].xs, more);
    } else {
      RoundTrip(reg, ts[n], fs[n], more);
    }
  }

  // ---------------------------------------------------------------- encoding into a buffer

  /** What an encoder reports: success or not, the bytes needed, the bytes written; `fault` if it wrote
      through a null pointer. */
  datatype Wrote = Wrote(ok: bool, fault: bool, used: nat, bytes: seq<Byte>)

  function NumsSize(k: Kind, xs: seq<int>): nat {
    Width(k) * |xs|
  }

  function TextSize(s: seq<Byte>): nat {
    4 + |s| + PadTo4(|s|)
  }

  /** An encoder that needs `size` bytes, given `max` bytes of room or none at all (`dst` false). */
  function Place(b: seq<Byte>, size: nat, dst: bool, max: nat): Wrote {
    if !dst then Wrote(true, false, size, [])
    else if max < size then Wrote(false, false, size, [])
    else Wrote(true, false, size, b)
  }

  /** The encoders.  Without a destination the string encoder fails if the string does not fit into
      `max`, and otherwise copies it to the null pointer it was given. */
  function Encode(reg: Registry, v: Value, dst: bool, max: nat): (w: Wrote)
    ensures dst && w.ok && !w.fault ==> w.used <= max
    decreases v, 0
  {
    match v
    case Num(k, n) => Place(IntBytes(k, n), Width(k), dst, max)
    case Text(s) =>
      if dst then Place(TextBytes(s), TextSize(s), dst, max)
      else if max < TextSize(s) then Wrote(false, false, TextSize(s), [])
      else Wrote(true, s != [], TextSize(s), [])
    case Nums(k, xs) => Place(NumsBytes(k, xs), NumsSize(k, xs), dst, max)
    case Rec(fs) => EncodeTo(reg, fs, |fs|, dst, max)
    case Tagged(tag, body) =>
      var t := Place(WordBytes(tag), 4, dst, max);
      if tag !in reg then Wrote(false, false, 4, [])
      else if dst && t.ok then
        var w := EncodeTo(reg, body, |body|, true, max - 4);
        Wrote(w.ok, w.fault, 4 + w.used, t.bytes + w.bytes)
      else
        var w := EncodeTo(reg, body, |body|, false, max);
        Wrote(t.ok && w.ok, w.fault, 4 + w.used, [])
  }

  /** XDR_struct_encoder after `n` fields: once a field has failed, or without a destination, the rest
      is only sized, and their failures are not looked at. */
  function EncodeTo(reg: Registry, fs: seq<Value>, n: nat, dst: bool, max: nat): (w: Wrote)
    requires n <= |fs|
    ensures dst && w.ok && !w.fault ==> w.used <= max
    decreases fs, n
  {
    if n == 0 then Wrote(true, false, 0, []) else
      var p := EncodeTo(reg, fs, n - 1, dst, max);
      if p.fault then p
      else if dst && p.ok then
        var w := Encode(reg, fs[n - 1], true, max - p.used);
        Wrote(w.ok, w.fault, p.used + w.used, p.bytes + w.bytes)
      else
        var w := Encode(reg, fs[n - 1], false, max);
        Wrote(p.ok, w.fault, p.used + w.used, [])
  }

  /** All union tags in the value are registered, and its strings have a length the coders can add up. */
  ghost predicate Encodable(reg: Registry, v: Value)
    decreases v, 0
  {
    match v
    case Text(s) => |s| <= MAX_TEXT
    case Rec(fs) => EncodableAll(reg, fs)
    case Tagged(tag, body) => tag in reg && EncodableAll(reg, body)
    case _ => true
  }

  ghost predicate EncodableAll(reg: Registry, fs: seq<Value>)
    decreases fs, 0
  {
    forall i :: 0 <= i < |fs| ==> Encodable(reg, fs[i])
  }

  lemma {:induction false} NumsLength(k: Kind, xs: seq<int>)
    ensures |NumsBytes(k, xs)| == NumsSize(k, xs)
    decreases |xs|
  {
    if xs != [] {
      NumsLength(k, xs[1..]);
    }
  }

  /** With enough room the encoders write the encoding. */
  lemma {:induction false} EncodeFits(reg: Registry, v: Value, max: nat)
    requires Encodable(reg, v) && |Bytes(v)| <= max
    ensures Encode(reg, v, true, max) == Wrote(true, false, |Bytes(v)|, Bytes(v))
    decreases v, 0
  {
    match v
    case Num(k, n) =>
    case Text(s) =>
    case Nums(k, xs) => NumsLength(k, xs);
    case Rec(fs) => EncodeToFits(reg, fs, |fs|, max);
    case Tagged(tag, body) => EncodeToFits(reg, body, |body|, max - 4);
  }

  lemma {:induction false} EncodeToFits(reg: Registry, fs: seq<Value>, n: nat, max: nat)
    requires EncodableAll(reg, fs) && n <= |fs| && |BytesTo(fs, n)| <= max
    ensures EncodeTo(reg, fs, n, true, max) == Wrote(true, false, |BytesTo(fs, n)|, BytesTo(fs, n))
    decreases fs, n
  {
    if n > 0 {
      EncodeToFits(reg, fs, n - 1, max);
      EncodeFits(reg, fs[n - 1], max - |BytesTo(fs, n - 1)|);
    }
  }

  // ---------------------------------------------------------------- size reporting

  /** A string that a sizing pass with limit `max` would copy to the null pointer. */
  ghost predicate Trips(v: Value, max: nat)
    decreases v, 0
  {
    match v
    case Text(s) => s != [] && TextSize(s) <= max
    case Rec(fs) => TripsTo(fs, |fs|, max)
    case Tagged(_, body) => TripsTo(body, |body|, max)
    case _ => false
  }

  ghost predicate TripsTo(fs: seq<Value>, n: nat, max: nat)
    requires n <= |fs|
    decreases fs, n
  {
    n > 0 && (TripsTo(fs, n - 1, max) || Trips(fs[n - 1], max))
  }

  /** A sizing pass reports the length of the encoding, for every limit, and faults if and only if a
      non-empty string of the value would fit into the limit. */
  lemma {:induction false} SizingPass(reg: Registry, v: Value, max: nat)
    requires Encodable(reg, v)
    ensures Encode(reg, v, false, max).fault <==> Trips(v, max)
    ensures !Trips(v, max) ==> Encode(reg, v, false, max).used == |Bytes(v)|
    ensures !Trips(v, max) && !v.Text? ==> Encode(reg, v, false, max).ok
    decreases v, 0
  {
    match v
    case Num(k, n) =>
    case Text(s) =>
    case Nums(k, xs) => NumsLength(k, xs);
    case Rec(fs) => SizingTo(reg, fs, |fs|, max);
    case Tagged(tag, body) => SizingTo(reg, body, |body|, max);
  }

  lemma {:induction false} SizingTo(reg: Registry, fs: seq<Value>, n: nat, max: nat)
    requires EncodableAll(reg, fs) && n <= |fs|
    ensures EncodeTo(reg, fs, n, false, max).fault <==> TripsTo(fs, n, max)
    ensures !TripsTo(fs, n, max) ==> EncodeTo(reg, fs, n, false, max) == Wrote(true, false, |BytesTo(fs, n)|, [])
    decreases fs, n
  {
    if n > 0 {
      SizingTo(reg, fs, n - 1, max);
      SizingPass(reg, fs[n - 1], max);
    }
  }

  /** A string that encoding into a buffer of `max` bytes would copy to the null pointer: it stands
      behind the field that overflowed, and is short enough for the limit its structure was given. */
  ghost predicate Spills(v: Value, max: nat)
    decreases v, 0
  {
    match v
    case Rec(fs) => SpillsTo(fs, |fs|, max)
    case Tagged(_, body) => if max < 4 then TripsTo(body, |body|, max) else SpillsTo(body, |body|, max - 4)
    case _ => false
  }

  ghost predicate SpillsTo(fs: seq<Value>, n: nat, max: nat)
    requires n <= |fs|
    decreases fs, n
  {
    && n > 0
    && (|| SpillsTo(fs, n - 1, max)
        || (if |BytesTo(fs, n - 1)| <= max then Spills(fs[n - 1], max - |BytesTo(fs, n - 1)|)
            else Trips(fs[n - 1], max)))
  }

  /** Size reporting: with a buffer of any size, encoding faults if and only if a string spills, and
      otherwise reports the length of the encoding, and fails if and only if the buffer is smaller. */
  lemma {:induction false} SizeReported(reg: Registry, v: Value, max: nat)
    requires Encodable(reg, v)
    ensures var w := Encode(reg, v, true, max);
            && (w.fault <==> Spills(v, max))
            && (!w.fault ==> w.used == |Bytes(v)| && (w.ok <==> |Bytes(v)| <= max) && (w.ok ==> w.bytes == Bytes(v)))
    decreases v, 0
  {
    match v
    case Num(k, n) =>
    case Text(s) =>
    case Nums(k, xs) => NumsLength(k, xs);
    case Rec(fs) => SizeReportedTo(reg, fs, |fs|, max);
    case Tagged(tag, body) =>
      if max < 4 {
        SizingTo(reg, body, |body|, max);
      } else {
        SizeReportedTo(reg, body, |body|, max - 4);
      }
  }

  lemma {:induction false} SizeReportedTo(reg: Registry, fs: seq<Value>, n: nat, max: nat)
    requires EncodableAll(reg, fs) && n <= |fs|
    ensures var w := EncodeTo(reg, fs, n, true, max);
            && (w.fault <==> SpillsTo(fs, n, max))
            && (!w.fault ==> w.used == |BytesTo(fs, n)| && (w.ok <==> |BytesTo(fs, n)| <= max))
            && (!w.fault && w.ok ==> w.bytes == BytesTo(fs, n))
    decreases fs, n
  {
    if n > 0 {
      SizeReportedTo(reg, fs, n - 1, max);
      var p := EncodeTo(reg, fs, n - 1, true, max);
      if p.ok && !p.fault {
        SizeReported(reg, fs[n - 1], max - p.used);
      } else {
        SizingPass(reg, fs[n - 1], max);
      }
    }
  }

  lemma {:induction false} WordsLength(fs: seq<Value>, n: nat)
    requires n <= |fs| && forall i :: 0 <= i < n ==> fs[i].Num? && Width(fs[i].k) == 4
    ensures |BytesTo(fs, n)| == 4 * n
    decreases n
  {
    if n > 0 {
      WordsLength(fs, n - 1);
    }
  }

  /** Three hundred words and then a string of one byte, into the 1024 bytes a command gets first: the
      string, behind the overflow, is copied to the null pointer. */
  lemma StringBehindOverflow(reg: Registry)
    ensures var v := Rec(seq(300, _ => Num(KU32, 0)) + [Text([65])]);
            Typed(reg, Struct(seq(300, _ => Int(KU32)) + [Str]), v) && Encode(reg, v, true, 1024).fault
  {
    var fs := seq(300, _ => Num(KU32, 0)) + [Text([65])];
    WordsLength(fs, 300);
    assert SpillsTo(fs, 301, 1024);
    SizeReported(reg, Rec(fs), 1024);
  }

  /** The size the string encoder reports, added up in 32 bits, is the length of the encoding if and only
      if the string is at most MAX_TEXT long. */
  lemma TextSizeIff(s: seq<Byte>)
    requires |s| < M32
    ensures 4 + (|s| + PadTo4(|s|)) % M32 == |TextBytes(s)| <==> |s| <= MAX_TEXT
  {
    var n := |s| + PadTo4(|s|);
    Split32(n, if n < M32 then 0 else 1, if n < M32 then n else n - M32);
  }

  /** The value holds no non-empty string. */
  ghost predicate StringFree(v: Value)
    decreases v, 0
  {
    match v
    case Text(s) => s == []
    case Rec(fs) => StringFreeTo(fs, |fs|)
    case Tagged(_, body) => StringFreeTo(body, |body|)
    case _ => true
  }

  ghost predicate StringFreeTo(fs: seq<Value>, n: nat)
    requires n <= |fs|
    decreases fs, n
  {
    n == 0 || (StringFreeTo(fs, n - 1) && StringFree(fs[n - 1]))
  }

  lemma {:induction false} StringFreeIsSafe(v: Value, max: nat)
    requires StringFree(v)
    ensures !Trips(v, max) && !Spills(v, max)
    decreases v, 0
  {
    match v
    case Rec(fs) => StringFreeToIsSafe(fs, |fs|, max);
    case Tagged(_, body) =>
      StringFreeToIsSafe(body, |body|, max);
      StringFreeToIsSafe(body, |body|, if max < 4 then 0 else max - 4);
    case _ =>
  }

  lemma {:induction false} StringFreeToIsSafe(fs: seq<Value>, n: nat, max: nat)
    requires n <= |fs| && StringFreeTo(fs, n)
    ensures !TripsTo(fs, n, max) && !SpillsTo(fs, n, max)
    decreases fs, n
  {
    if n > 0 {
      StringFreeToIsSafe(fs, n - 1, max);
      StringFreeIsSafe(fs[n - 1], max);
      if |BytesTo(fs, n - 1)| <= max {
        StringFreeIsSafe(fs[n - 1], max - |BytesTo(fs, n - 1)|);
      }
    }
  }
}
