/**
 The streaming part of md5.c: a message fed to MD5Update in pieces of any size, and the padding of
 MD5Final, against the one-shot definition of RFC 1321.  The compression of one 64-byte block
 (MD5Transform) is a parameter: everything holds whatever it computes.
 */
module Md5 {
  import opened Common

  type Word = x: int | 0 <= x < 0x1_0000_0000

  datatype Words = Words(a: Word, b: Word, c: Word, d: Word)

  type Compress = (Words, seq<Byte>) -> Words

  const IV := Words(0x67452301, 0xefcdab89, 0x98badcfe, 0x10325476)

  // ---------------------------------------------------------------- RFC 1321

  /** Section 3.4: the blocks of `m` one after the other. */
  function Blocks(f: Compress, st: Words, m: seq<Byte>): Words
    requires |m| % 64 == 0
    decreases |m|
  {
    if m == [] then st else Blocks(f, f(st, m[..64]), m[64..])
  }

  /** A word, low-order byte first (section 2). */
  function EncodeWord(w: Word): (r: seq<Byte>)
    ensures |r| == 4
  {
    [w % 256, w / 256 % 256, w / 256 / 256 % 256, w / 256 / 256 / 256 % 256]
  }

  function DecodeWord(s: seq<Byte>): Word
    requires |s| == 4
  {
    (s[0] as int) + 256 * (s[1] as int) + 65536 * (s[2] as int) + 16777216 * (s[3] as int)
  }

  function Padding(n: nat): (p: seq<Byte>)
    ensures (n + |p|) % 64 == 56 && 1 <= |p| <= 64
  {
    [0x80] + Zeros((55 - n) % 64)
  }

  function BitCount(n: nat): (c: seq<Byte>)
    ensures |c| == 8
  {
    var bits := 8 * n % M64;
    EncodeWord(bits % M32) + EncodeWord(bits / M32)
  }

  /** Sections 3.1 and 3.2: a one bit, zeros up to 448 bits modulo 512, and the bit length modulo 2^64
      as two words, low-order word first. */
  function Pad(m: seq<Byte>): (p: seq<Byte>)
    ensures |p| % 64 == 0
  {
    assert (|m| + |Padding(|m|)| + 8) % 64 == 0;
    m + Padding(|m|) + BitCount(|m|)
  }

  function EncodeWords(w: Words): seq<Byte> {
    EncodeWord(w.a) + EncodeWord(w.b) + EncodeWord(w.c) + EncodeWord(w.d)
  }

  /** Sections 3.3 to 3.5. */
  function Digest(f: Compress, m: seq<Byte>): seq<Byte> {
    EncodeWords(Blocks(f, IV, Pad(m)))
  }

  lemma Split256(x: int, q: int, r: int)
    requires x == 256 * q + r && 0 <= r < 256
    ensures x / 256 == q && x % 256 == r
  {}

  /** The bytes of a word determine it. */
  lemma DecodeEncode(w: Word)
    ensures DecodeWord(EncodeWord(w)) == w
  {}

  /** Any four bytes are the bytes of a word. */
  lemma EncodeDecode(s: seq<Byte>)
    requires |s| == 4
    ensures EncodeWord(DecodeWord(s)) == s
  {
    var a: int, b: int, c: int, d: int := s[0], s[1], s[2], s[3];
    Split256(DecodeWord(s), b + 256 * (c + 256 * d), a);
    Split256(b + 256 * (c + 256 * d), c + 256 * d, b);
    Split256(c + 256 * d, d, c);
  }

  /** Eight bytes as a number, low-order byte first. */
  function LowFirst(b: seq<Byte>): int
    requires |b| == 8
  {
    b[0] as int + 0x100 * b[1] as int + 0x1_0000 * b[2] as int + 0x100_0000 * b[3] as int
    + 0x1_0000_0000 * b[4] as int + 0x100_0000_0000 * b[5] as int + 0x1_0000_0000_0000 * b[6] as int
    + 0x100_0000_0000_0000 * b[7] as int
  }

  lemma WordDigits(w: Word)
    ensures var b := EncodeWord(w);
            b[0] as int + 0x100 * b[1] as int + 0x1_0000 * b[2] as int + 0x100_0000 * b[3] as int == w
  {
    var w1, w2, w3 := w / 256, w / 256 / 256, w / 256 / 256 / 256;
    assert w == 256 * w1 + w % 256 && w1 == 256 * w2 + w1 % 256 && w2 == 256 * w3 + w2 % 256;
  }

  /** The padded message, as sections 3.1 and 3.2 ask for it: the message, a byte 80, as few zeros as
      reach a multiple of 64 bytes, and the number of bits modulo 2^64 in eight bytes, low-order first. */
  lemma PadMeans(m: seq<Byte>)
    ensures var p := Pad(m);
            && |p| % 64 == 0 && |m| + 9 <= |p| < |m| + 9 + 64 && m <= p && p[|m|] == 0x80
            && (forall i :: |m| < i < |p| - 8 ==> p[i] == 0)
            && LowFirst(p[|p| - 8..]) == 8 * |m| % M64
  {
    var bits := 8 * |m| % M64;
    WordDigits(bits % M32);
    WordDigits(bits / M32);
    assert bits == M32 * (bits / M32) + bits % M32;
    var p := Pad(m);
    assert p[|p| - 8..] == EncodeWord(bits % M32) + EncodeWord(bits / M32);
  }

  /** Section 3.3: the four words at the start, low-order bytes first. */
  lemma StartBytes()
    ensures EncodeWords(IV) == [0x01, 0x23, 0x45, 0x67, 0x89, 0xab, 0xcd, 0xef,
                                0xfe, 0xdc, 0xba, 0x98, 0x76, 0x54, 0x32, 0x10]
  {}

  /** Sixteen bytes are the digest if and only if they decode to the four words of the final state. */
  lemma DigestHoldsState(f: Compress, m: seq<Byte>, d: seq<Byte>)
    ensures d == Digest(f, m) <==>
            && |d| == 16
            && Words(DecodeWord(d[..4]), DecodeWord(d[4..8]), DecodeWord(d[8..12]), DecodeWord(d[12..])) ==
               Blocks(f, IV, Pad(m))
  {
    var w := Blocks(f, IV, Pad(m));
    DecodeEncode(w.a);
    DecodeEncode(w.b);
    DecodeEncode(w.c);
    DecodeEncode(w.d);
    if d == Digest(f, m) {
      assert d[..4] == EncodeWord(w.a) && d[4..8] == EncodeWord(w.b);
      assert d[8..12] == EncodeWord(w.c) && d[12..] == EncodeWord(w.d);
    } else if |d| == 16 {
      EncodeDecode(d[..4]);
      EncodeDecode(d[4..8]);
      EncodeDecode(d[8..12]);
      EncodeDecode(d[12..]);
      assert d == d[..4] + d[4..8] + d[8..12] + d[12..];
    }
  }

  lemma {:induction false} BlocksAppend(f: Compress, st: Words, a: seq<Byte>, b: seq<Byte>)
    requires |a| % 64 == 0 && |b| % 64 == 0
    ensures |a + b| % 64 == 0 && Blocks(f, st, a + b) == Blocks(f, Blocks(f, st, a), b)
    decreases |a|
  {
    if a == [] {
      assert a + b == b;
    } else {
      assert (a + b)[..64] == a[..64] && (a + b)[64..] == a[64..] + b;
      BlocksAppend(f, f(st, a[..64]), a[64..], b);
    }
  }

  lemma OneMore(f: Compress, done: seq<Byte>, block: seq<Byte>)
    requires |done| % 64 == 0 && |block| == 64
    ensures |done + block| % 64 == 0 && Blocks(f, IV, done + block) == f(Blocks(f, IV, done), block)
  {
    BlocksAppend(f, IV, done, block);
    assert block[..64] == block && block[64..] == [];
  }

  // ---------------------------------------------------------------- how far a context has come

  /** The whole blocks of a message, and what is left over. */
  function Whole(m: seq<Byte>): (w: seq<Byte>)
    ensures |w| % 64 == 0 && w <= m
  {
    m[..|m| - |m| % 64]
  }

  function Rest(m: seq<Byte>): seq<Byte> {
    m[|m| - |m| % 64..]
  }

  /** Adding a piece that fills the buffer: one block from buffer and piece, then blocks of the piece. */
  lemma WholeAppend(m: seq<Byte>, x: seq<Byte>, i: nat)
    requires 64 - |m| % 64 <= i <= |x| < i + 64 && (|m| + i) % 64 == 0
    ensures Whole(m + x) == Whole(m) + (Rest(m) + x[..i]) && Rest(m + x) == x[i..]
  {
    var n := |m + x|;
    assert n - n % 64 == |m| + i;
    assert (m + x)[..|m| + i] == m + x[..i];
    assert m == Whole(m) + Rest(m);
  }

  lemma ShortAppend(m: seq<Byte>, x: seq<Byte>)
    requires |x| < 64 - |m| % 64
    ensures Whole(m + x) == Whole(m) && Rest(m + x) == Rest(m) + x
  {
    var n := |m + x|;
    assert n - n % 64 == |m| - |m| % 64;
  }

  /** The low word of the bit count tells how full the buffer is. */
  lemma IndexFromCount(l: nat)
    ensures 8 * l % M32 / 8 % 64 == l % 64
  {
    var q, r := l / 0x2000_0000, l % 0x2000_0000;
    Split32(8 * l, q, 8 * r);
    Split64(l, 0x80_0000 * q + r / 64, r % 64);
  }

  lemma Split64(x: int, q: int, r: int)
    requires x == 64 * q + r && 0 <= r < 64
    ensures x / 64 == q && x % 64 == r
  {}

  /** The two-word bit count: low word, and high word with the carry. */
  lemma CountAdds(l: nat, n: nat, lo: int, hi: int)
    requires lo == 8 * l % M32 && hi == 8 * l / M32 % M32
    ensures var x := n * 8 % M32;
            var lo' := (lo + x) % M32;
            var hi' := if lo' < x then (hi + 1) % M32 else hi;
            lo' == 8 * (l + n) % M32 && (hi' + n / 0x2000_0000) % M32 == 8 * (l + n) / M32 % M32
  {
    var q2 := n / 0x2000_0000;
    var x := n * 8 % M32;
    Split32(n * 8, q2, 8 * (n % 0x2000_0000));
    var q1 := 8 * l / M32;
    var c := if lo + x >= M32 then 1 else 0;
    Split32(lo + x, c, lo + x - c * M32);
    Split32(8 * (l + n), q1 + q2 + c, lo + x - c * M32);
    HighWord(q1, q2, c, hi);
  }

  lemma HighWord(q1: nat, q2: nat, c: nat, hi: int)
    requires hi == q1 % M32 && c <= 1
    ensures ((if c == 1 then (hi + 1) % M32 else hi) + q2) % M32 == (q1 + q2 + c) % M32
  {
    var k := q1 / M32;
    var hi' := if c == 1 then (hi + 1) % M32 else hi;
    var j := if c == 1 && hi + 1 == M32 then 1 else 0;
    Split32(hi + c, j, hi + c - j * M32);
    var k2, r2 := (hi' + q2) / M32, (hi' + q2) % M32;
    Split32(q1 + q2 + c, k + j + k2, r2);
  }

  lemma CountWords(n: nat)
    ensures 8 * n % M64 % M32 == 8 * n % M32 && 8 * n % M64 / M32 == 8 * n / M32 % M32
  {
    var q, r := 8 * n / M32, 8 * n % M32;
    var k, h := q / M32, q % M32;
    Split6464(8 * n, k, M32 * h + r);
    Split32(M32 * h + r, h, r);
  }

  lemma Split6464(x: int, q: int, r: int)
    requires x == M64 * q + r && 0 <= r < M64
    ensures x / M64 == q && x % M64 == r
  {}

  // ---------------------------------------------------------------- the code

  const PADDING: seq<Byte> := [0x80] + Zeros(63)

  lemma PaddingIs(n: nat, padLen: nat)
    requires padLen == if n % 64 < 56 then 56 - n % 64 else 120 - n % 64
    ensures padLen <= |PADDING| && PADDING[..padLen] == Padding(n)
  {
    assert (55 - n) % 64 == padLen - 1;
  }

  class Context {
    const f: Compress
    var state: Words
    var lo: int
    var hi: int
    const buffer: array<Byte>
    ghost var msg: seq<Byte>

    /** The message fed in so far: whole blocks are in the state, the rest is in the buffer. */
    ghost predicate Valid()
      reads this, buffer
    {
      && buffer.Length == 64
      && lo == 8 * |msg| % M32
      && hi == 8 * |msg| / M32 % M32
      && state == Blocks(f, IV, Whole(msg))
      && buffer[..|msg| % 64] == Rest(msg)
    }

    constructor (f: Compress)
      ensures Valid() && msg == [] && this.f == f && fresh(buffer)
    {
      this.f := f;
      state, lo, hi := IV, 0, 0;
      buffer := new Byte[64](_ => 0);
      msg := [];
    }

    method AddCount(n: nat)
      requires lo == 8 * |msg| % M32 && hi == 8 * |msg| / M32 % M32
      modifies this`lo, this`hi
      ensures lo == 8 * (|msg| + n) % M32 && hi == 8 * (|msg| + n) / M32 % M32
    {
      CountAdds(|msg|, n, lo, hi);
      lo := (lo + n * 8 % M32) % M32;
      if lo < n * 8 % M32 {
        hi := (hi + 1) % M32;
      }
      hi := (hi + n / 0x2000_0000) % M32;
    }

    /** "Transform as many times as possible": the filled buffer first, then the input in place. */
    method Absorb(input: seq<Byte>, index: nat) returns (i: nat)
      requires buffer.Length == 64 && index == |msg| % 64 && 64 - index <= |input|
      requires state == Blocks(f, IV, Whole(msg)) && buffer[..index] == Rest(msg)
      modifies this`state, buffer
      ensures 64 - index <= i <= |input| < i + 64 && (|msg| + i) % 64 == 0
      ensures state == Blocks(f, IV, Whole(msg) + (Rest(msg) + input[..i]))
    {
      var partLen := 64 - index;
      CopyInto(buffer, index, input[..partLen]);
      assert buffer[..] == Rest(msg) + input[..partLen];
      OneMore(f, Whole(msg), buffer[..]);
      state := f(state, buffer[..]);
      i := AbsorbBlocks(input, partLen);
    }

    /** The blocks of the input from `start` on. */
    method AbsorbBlocks(input: seq<Byte>, start: nat) returns (i: nat)
      requires start <= |input| && (|msg| + start) % 64 == 0
      requires state == Blocks(f, IV, Whole(msg) + (Rest(msg) + input[..start]))
      modifies this`state
      ensures start <= i <= |input| < i + 64 && (|msg| + i) % 64 == 0
      ensures state == Blocks(f, IV, Whole(msg) + (Rest(msg) + input[..i]))
    {
      i := start;
      while i + 63 < |input|
        invariant start <= i <= |input| && (|msg| + i) % 64 == 0
        invariant state == Blocks(f, IV, Whole(msg) + (Rest(msg) + input[..i]))
      {
        ghost var done := Whole(msg) + (Rest(msg) + input[..i]);
        OneMore(f, done, input[i..i + 64]);
        assert done + input[i..i + 64] == Whole(msg) + (Rest(msg) + input[..i + 64]);
        state := f(state, input[i..i + 64]);
        i := i + 64;
      }
    }

    /** The blocks that `input` completes; what is left of it at `i` belongs at `index'` in the buffer. */
    method Complete(input: seq<Byte>, index: nat) returns (i: nat, index': nat)
      requires buffer.Length == 64 && index == |msg| % 64
      requires state == Blocks(f, IV, Whole(msg)) && buffer[..index] == Rest(msg)
      modifies this`state, buffer
      ensures i <= |input| && index' <= 64 && index' + |input| - i == |msg + input| % 64
      ensures state == Blocks(f, IV, Whole(msg + input)) && buffer[..index'] + input[i..] == Rest(msg + input)
    {
      i, index' := 0, index;
      if |input| >= 64 - index {
        i := Absorb(input, index);
        WholeAppend(msg, input, i);
        index' := 0;
      } else {
        ShortAppend(msg, input);
      }
      assert |Rest(msg + input)| == |msg + input| % 64;
    }

    method Update(input: seq<Byte>)
      requires Valid() && |input| < M32 - 64
      modifies this, buffer
      ensures Valid() && msg == old(msg) + input
    {
      IndexFromCount(|msg|);
      var index := lo / 8 % 64;
      AddCount(|input|);
      var i;
      i, index := Complete(input, index);
      msg := msg + input;
      CopyInto(buffer, index, input[i..]);
    }

    method Final() returns (digest: seq<Byte>)
      requires Valid()
      modifies this, buffer
      ensures digest == Digest(f, old(msg))
    {
      ghost var m := msg;
      CountWords(|m|);
      IndexFromCount(|m|);
      var bits := EncodeWord(lo) + EncodeWord(hi);
      var index := lo / 8 % 64;
      var padLen := if index < 56 then 56 - index else 120 - index;
      PaddingIs(|m|, padLen);
      Update(PADDING[..padLen]);
      Update(bits);
      assert msg == Pad(m);
      assert Whole(msg) == msg;
      digest := EncodeWords(state);
      Zeroize();
    }

    method Zeroize()
      requires buffer.Length == 64
      modifies this, buffer
    {
      state, lo, hi, msg := Words(0, 0, 0, 0), 0, 0, [];
      CopyInto(buffer, 0, Zeros(64));
    }
  }

  /** MD5Init, any number of MD5Update calls, MD5Final: however the message is cut into pieces, the
      digest is that of the whole message. */
  method DigestOfPieces(f: Compress, pieces: seq<seq<Byte>>) returns (digest: seq<Byte>)
    requires forall k :: 0 <= k < |pieces| ==> |pieces[k]| < M32 - 64
    ensures digest == Digest(f, Join(pieces))
  {
    var ctx := new Context(f);
    for k := 0 to |pieces|
      invariant ctx.Valid() && ctx.msg == Join(pieces[..k]) && ctx.f == f && fresh(ctx) && fresh(ctx.buffer)
    {
      ctx.Update(pieces[k]);
      JoinLast(pieces[..k + 1]);
      assert pieces[..k + 1][..k] == pieces[..k];
    }
    assert pieces[..|pieces|] == pieces;
    digest := ctx.Final();
  }
}
