/**
 The bytes on the wire, told without the coders of module Xdr (RFC 4506): what each byte of an encoding
 is, where each part of it stands, and that input which is cut short or not known is refused.
 */
module XdrWire {
  import opened Common
  import opened Xdr

  /** The first four bytes as a number, high byte first. */
  function Number(b: seq<Byte>): int
    requires |b| >= 4
  {
    16777216 * b[0] as int + 65536 * b[1] as int + 256 * b[2] as int + b[3] as int
  }

  // ---------------------------------------------------------------- what the bytes are

  lemma WordWire(n: int)
    ensures Number(WordBytes(n)) == n % M32
  {
    var w := n % M32;
    var w1, w2 := w / 256, w / 256 / 256;
    assert w == 256 * w1 + w % 256 && w1 == 256 * w2 + w1 % 256 && w2 == 256 * (w2 / 256) + w2 % 256;
  }

  /** Integers are sent in two's complement, high byte first, in four or eight bytes. */
  lemma IntWire(k: Kind, n: int)
    requires Fits(k, n)
    ensures var b, unsigned := IntBytes(k, n), if n >= 0 then n else if k.KI32? then n + M32 else n + M64;
            if k.KU32? || k.KI32? then |b| == 4 && Number(b) == unsigned
            else |b| == 8 && Number(b) * M32 + Number(b[4..]) == unsigned
  {
    WordWire(n);
    if k.KU32? || k.KI32? {
      Split32(n, if n >= 0 then 0 else -1, if n >= 0 then n else n + M32);
    } else {
      var q := n / M32;
      WordWire(q);
      assert n == M32 * q + n % M32;
      assert IntBytes(k, n)[4..] == WordBytes(n);
      Split32(q, if q >= 0 then 0 else -1, if q >= 0 then q else q + M32);
    }
  }

  /** A string is its length, its bytes, and zeros up to a multiple of four. */
  lemma TextWire(s: seq<Byte>)
    requires |s| <= MAX_TEXT
    ensures var b := TextBytes(s);
            && |b| % 4 == 0 && 4 + |s| <= |b| < 8 + |s| && Number(b) == |s| && b[4..4 + |s|] == s
            && forall i :: 4 + |s| <= i < |b| ==> b[i] == 0
  {
    WordWire(|s|);
    Split32(|s|, 0, |s|);
    var n := |s|;
    assert (n + PadTo4(n)) % 4 == 0;
  }

  lemma Slice(a: seq<Byte>, b: seq<Byte>, i: nat, j: nat)
    requires i <= j <= |b|
    ensures (a + b)[|a| + i..|a| + j] == b[i..j]
  {}

  /** Element `i` of an array stands at its place, encoded by itself. */
  lemma {:induction false} NumsWire(k: Kind, xs: seq<int>, i: nat, at: nat)
    requires i < |xs| && at == Width(k) * i
    ensures |NumsBytes(k, xs)| == Width(k) * |xs| && at + Width(k) <= |NumsBytes(k, xs)|
    ensures NumsBytes(k, xs)[at..at + Width(k)] == IntBytes(k, xs[i])
    decreases i
  {
    hide IntBytes;
    NumsLength(k, xs);
    var w, head, tail := Width(k), IntBytes(k, xs[0]), NumsBytes(k, xs[1..]);
    if i > 0 {
      assert w * i == w * (i - 1) + w;
      NumsWire(k, xs[1..], i - 1, at - w);
      Slice(head, tail, at - w, at);
    } else {
      assert w * i == 0;
      assert (head + tail)[..w] == head;
    }
  }

  /** The encodings of the fields before field `n` take this many bytes. */
  function Offset(fs: seq<Value>, n: nat): nat
    requires n <= |fs|
  {
    if n == 0 then 0 else Offset(fs, n - 1) + |Bytes(fs[n - 1])|
  }

  lemma {:induction false} OffsetIs(fs: seq<Value>, n: nat)
    requires n <= |fs|
    ensures |BytesTo(fs, n)| == Offset(fs, n)
    decreases n
  {
    if n > 0 {
      OffsetIs(fs, n - 1);
    }
  }

  /** The fields of a structure stand one behind the other, each encoded by itself. */
  lemma {:induction false} FieldWire(fs: seq<Value>, m: nat, n: nat)
    requires n < m <= |fs|
    ensures |BytesTo(fs, m)| == Offset(fs, m) && Offset(fs, n + 1) <= Offset(fs, m)
    ensures BytesTo(fs, m)[Offset(fs, n)..Offset(fs, n + 1)] == Bytes(fs[n])
    decreases m
  {
    OffsetIs(fs, m);
    OffsetIs(fs, m - 1);
    if n < m - 1 {
      FieldWire(fs, m - 1, n);
    }
  }

  lemma StructWire(fs: seq<Value>, n: nat)
    requires n < |fs|
    ensures |Bytes(Rec(fs))| == Offset(fs, |fs|) && Offset(fs, n + 1) <= Offset(fs, |fs|)
    ensures Bytes(Rec(fs))[Offset(fs, n)..Offset(fs, n + 1)] == Bytes(fs[n])
  {
    FieldWire(fs, |fs|, n);
  }

  /** A union is its tag, and then the structure. */
  lemma UnionWire(tag: int, body: seq<Value>)
    requires 0 <= tag < M32
    ensures var b := Bytes(Tagged(tag, body)); |b| >= 4 && Number(b) == tag && b[4..] == Bytes(Rec(body))
  {
    WordWire(tag);
    Split32(tag, 0, tag);
  }

  // ---------------------------------------------------------------- input that is refused

  /** A string is taken if and only if all of its announced length is there, padding included. */
  lemma TextTaken(src: seq<Byte>)
    ensures DecodeText(src).Read? <==> |src| >= 4 && |src| >= 4 + (Number(src) + 3) / 4 * 4
    ensures DecodeText(src).Read? ==>
              var r := DecodeText(src); r.value == src[4..4 + Number(src)] && r.used == 4 + (Number(src) + 3) / 4 * 4
  {
    if |src| >= 4 {
      assert Number(src) == Word(src);
      Padded(Word(src));
    }
  }

  lemma Padded(n: nat)
    ensures n + PadTo4(n) == (n + 3) / 4 * 4
  {}

  lemma {:induction false} NumsCut(k: Kind, xs: seq<int>, cut: nat)
    requires (forall i :: 0 <= i < |xs| ==> Fits(k, xs[i])) && cut < |NumsBytes(k, xs)|
    ensures DecodeNums(k, |xs|, NumsBytes(k, xs)[..cut]).Fail?
    decreases |xs|
  {
    var b, w := NumsBytes(k, xs), Width(k);
    if cut >= w {
      NumsCut(k, xs[1..], cut - w);
      assert b[..cut][w..] == NumsBytes(k, xs[1..])[..cut - w];
    }
  }

  lemma TextCut(s: seq<Byte>, cut: nat)
    requires |s| <= MAX_TEXT && cut < |TextBytes(s)|
    ensures DecodeText(TextBytes(s)[..cut]).Fail?
  {
    if cut >= 4 {
      WordWire(|s|);
      Split32(|s|, 0, |s|);
      assert Word(TextBytes(s)[..cut]) == Number(TextBytes(s)) == |s|;
    }
  }

  /** No encoding that is cut short is taken for a value of its type. */
  lemma {:induction false} CutIsRefused(reg: Registry, t: Type, v: Value, cut: nat)
    requires Typed(reg, t, v) && !v.Nums? && cut < |Bytes(v)|
    ensures Decode(reg, t, Bytes(v)[..cut]).Fail?
    decreases v, 0
  {
    match v
    case Num(k, n) =>
    case Text(s) => TextCut(s, cut);
    case Rec(fs) =>
      AllBytes(fs);
      FieldsCut(reg, t.fields, fs, 0, cut);
      assert fs[..0] == [];
    case Tagged(tag, body) =>
      if cut >= 4 {
        AllBytes(body);
        FieldsCut(reg, reg[tag], body, 0, cut - 4);
        TagRead(tag, body, cut);
        assert body[..0] == [];
      }
  }

  lemma TagRead(tag: int, body: seq<Value>, cut: nat)
    requires 0 <= tag < M32 && 4 <= cut < |Bytes(Tagged(tag, body))|
    ensures var b := Bytes(Tagged(tag, body))[..cut];
            Word(b) == tag && b[4..] == BytesTo(body, |body|)[..cut - 4]
  {
    var b := Bytes(Tagged(tag, body));
    UnionWire(tag, body);
    assert Word(b[..cut]) == Number(b);
  }

  lemma {:induction false} FieldsCut(reg: Registry, ts: seq<Type>, fs: seq<Value>, n: nat, cut: nat)
    requires TypedFields(reg, ts, fs) && n <= |fs| && cut < |BytesFrom(fs, n)|
    ensures DecodeFields(reg, ts, fs[..n], BytesFrom(fs, n)[..cut]).Fail?
    decreases fs, |fs| - n
  {
    hide DecodeField;
    hide Bytes;
    var b, rest := Bytes(fs[n]), BytesFrom(fs, n + 1);
    var src := (b + rest)[..cut];
    if cut < |b| {
      FieldCut(reg, ts, fs, n, cut);
      assert src == b[..cut];
    } else {
      FieldRoundTrip(reg, ts, fs, n, rest[..cut - |b|]);
      FieldsCut(reg, ts, fs, n + 1, cut - |b|);
      assert src == b + rest[..cut - |b|] && src[|b|..] == rest[..cut - |b|];
      assert fs[..n] + [fs[n]] == fs[..n + 1];
    }
  }

  lemma {:induction false} FieldCut(reg: Registry, ts: seq<Type>, fs: seq<Value>, n: nat, cut: nat)
    requires TypedFields(reg, ts, fs) && n < |fs| && cut < |Bytes(fs[n])|
    ensures DecodeField(reg, ts, fs[..n], Bytes(fs[n])[..cut]).Fail?
    decreases fs, 0
  {
    if fs[n].Nums? {
      var at := ts[n].lenAt;
      assert fs[..n][at] == fs[at];
      Split32(fs[at].n, 0, fs[at].n);
      assert CountOf(fs[..n], at) == |fs[n].xs|;
      NumsCut(fs[n].k, fs[n].xs, cut);
    } else {
      CutIsRefused(reg, ts[n], fs[n], cut);
    }
  }

  /** A tag that is not registered is refused by the decoder. */
  lemma UnknownTagRefused(reg: Registry, tag: int, rest: seq<Byte>)
    requires 0 <= tag < M32 && tag !in reg
    ensures Decode(reg, Union, WordBytes(tag) + rest).Fail?
  {
    WordRoundTrip(tag, rest);
    Split32(tag, 0, tag);
  }

  /** All tags in the value are registered. */
  ghost predicate TagsKnown(reg: Registry, v: Value)
    decreases v, 0
  {
    match v
    case Rec(fs) => forall i :: 0 <= i < |fs| ==> TagsKnown(reg, fs[i])
    case Tagged(tag, body) => tag in reg && forall i :: 0 <= i < |body| ==> TagsKnown(reg, body[i])
    case _ => true
  }

  /** And by the encoders: what they report as written has known tags only, however deep. */
  lemma {:induction false} EncodedIsKnown(reg: Registry, v: Value, max: nat)
    requires Encode(reg, v, true, max).ok && !Encode(reg, v, true, max).fault
    ensures TagsKnown(reg, v)
    decreases v, 0
  {
    match v
    case Num(_, _) =>
    case Text(_) =>
    case Nums(_, _) =>
    case Rec(fs) => EncodedAreKnown(reg, fs, |fs|, max);
    case Tagged(_, body) => EncodedAreKnown(reg, body, |body|, max - 4);
  }

  lemma {:induction false} EncodedAreKnown(reg: Registry, fs: seq<Value>, n: nat, max: nat)
    requires n <= |fs| && EncodeTo(reg, fs, n, true, max).ok && !EncodeTo(reg, fs, n, true, max).fault
    ensures forall i :: 0 <= i < n ==> TagsKnown(reg, fs[i])
    decreases fs, n
  {
    if n > 0 {
      var p := EncodeTo(reg, fs, n - 1, true, max);
      EncodedAreKnown(reg, fs, n - 1, max);
      EncodedIsKnown(reg, fs[n - 1], max - p.used);
    }
  }
}
