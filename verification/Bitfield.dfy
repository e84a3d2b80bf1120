/**
 The bitfield structures of xdr.c: fields of a few bits packed into one 32-bit word.  The shifts and
 masks of the code are written on the binary digits of integers, two's complement for negative ones.
 */
module Bitfield {
  import opened Common
  import opened Xdr

  // ---------------------------------------------------------------- shifts and masks

  function Pow2(n: nat): (r: nat)
    ensures r > 0
  {
    if n == 0 then 1 else 2 * Pow2(n - 1)
  }

  /** `x >> n`, arithmetic. */
  function Right(x: int, n: nat): int
    decreases n
  {
    if n == 0 then x else Right(x / 2, n - 1)
  }

  /** `x << n`. */
  function Left(x: int, n: nat): int {
    if n == 0 then x else 2 * Left(x, n - 1)
  }

  /** `x & ((1 << n) - 1)`. */
  function Low(x: int, n: nat): (r: nat)
    decreases n
  {
    if n == 0 then 0 else x % 2 + 2 * Low(x / 2, n - 1)
  }

  /** `a | b`. */
  function Or(a: nat, b: nat): (r: nat)
    decreases a
  {
    if a == 0 then b else (if a % 2 == 1 || b % 2 == 1 then 1 else 0) + 2 * Or(a / 2, b / 2)
  }

  lemma Digits(q: int, d: int)
    requires 0 <= d < 2
    ensures (d + 2 * q) / 2 == q && (d + 2 * q) % 2 == d
  {}

  lemma OrDigits(a: nat, b: nat)
    ensures Or(a, b) / 2 == Or(a / 2, b / 2)
    ensures Or(a, b) % 2 == if a % 2 == 1 || b % 2 == 1 then 1 else 0
  {
    if a > 0 {
      Digits(Or(a / 2, b / 2), if a % 2 == 1 || b % 2 == 1 then 1 else 0);
    }
  }

  lemma {:induction false} OrZero(a: nat)
    ensures Or(a, 0) == a && Or(0, a) == a
    decreases a
  {
    if a > 0 {
      OrZero(a / 2);
    }
  }

  lemma {:induction false} OrSwaps(a: nat, b: nat)
    ensures Or(a, b) == Or(b, a)
    decreases a
  {
    if a == 0 || b == 0 {
      OrZero(a);
      OrZero(b);
    } else {
      OrSwaps(a / 2, b / 2);
    }
  }

  lemma {:induction false} OrGroups(a: nat, b: nat, c: nat)
    ensures Or(Or(a, b), c) == Or(a, Or(b, c))
    decreases a
  {
    if a > 0 {
      OrGroups(a / 2, b / 2, c / 2);
      OrDigits(a, b);
      OrDigits(b, c);
    }
  }

  lemma {:induction false} RightOfOr(a: nat, b: nat, n: nat)
    ensures Right(a, n) >= 0 && Right(b, n) >= 0 && Right(Or(a, b), n) == Or(Right(a, n), Right(b, n))
    decreases n
  {
    if n > 0 {
      OrDigits(a, b);
      RightOfOr(a / 2, b / 2, n - 1);
    }
  }

  lemma {:induction false} LowOfOr(a: nat, b: nat, n: nat)
    ensures Low(Or(a, b), n) == Or(Low(a, n), Low(b, n))
    decreases n
  {
    if n > 0 {
      OrDigits(a, b);
      LowOfOr(a / 2, b / 2, n - 1);
      var x, y := Low(a, n), Low(b, n);
      Digits(Low(a / 2, n - 1), a % 2);
      Digits(Low(b / 2, n - 1), b % 2);
      OrDigits(x, y);
    }
  }

  lemma {:induction false} RightOfLeft(x: int, n: nat, m: nat)
    ensures Right(Left(x, n), m) == if m >= n then Right(x, m - n) else Left(x, n - m)
    decreases n
  {
    if n > 0 && m > 0 {
      Digits(Left(x, n - 1), 0);
      RightOfLeft(x, n - 1, m - 1);
    }
  }

  lemma {:induction false} LowOfLeft(x: int, n: nat, m: nat)
    requires m <= n
    ensures Low(Left(x, n), m) == 0
    decreases m
  {
    if m > 0 {
      Digits(Left(x, n - 1), 0);
      LowOfLeft(x, n - 1, m - 1);
    }
  }

  lemma {:induction false} RightOfZero(n: nat)
    ensures Right(0, n) == 0 && Low(0, n) == 0
  {
    if n > 0 {
      RightOfZero(n - 1);
    }
  }

  lemma {:induction false} RightOfLow(x: int, n: nat, m: nat)
    requires m >= n
    ensures Right(Low(x, n), m) == 0
    decreases n
  {
    if n == 0 {
      RightOfZero(m);
    } else {
      Digits(Low(x / 2, n - 1), x % 2);
      RightOfLow(x / 2, n - 1, m - 1);
    }
  }

  lemma {:induction false} LowOfLow(x: int, n: nat)
    ensures Low(Low(x, n), n) == Low(x, n)
    decreases n
  {
    if n > 0 {
      Digits(Low(x / 2, n - 1), x % 2);
      LowOfLow(x / 2, n - 1);
    }
  }

  lemma {:induction false} LeftIsNat(x: nat, n: nat)
    ensures Left(x, n) >= 0
  {
    if n > 0 {
      LeftIsNat(x, n - 1);
    }
  }

  /** An integer is its low digits and the rest. */
  lemma {:induction false} LowAndRight(x: int, n: nat)
    ensures x == Low(x, n) + Pow2(n) * Right(x, n) && Low(x, n) < Pow2(n)
    decreases n
  {
    if n > 0 {
      LowAndRight(x / 2, n - 1);
      var p, r := Pow2(n - 1), Right(x / 2, n - 1);
      calc {
        x;
        x % 2 + 2 * (x / 2);
        x % 2 + 2 * (Low(x / 2, n - 1) + p * r);
        x % 2 + 2 * Low(x / 2, n - 1) + 2 * (p * r);
        { assert 2 * (p * r) == (2 * p) * r; }
        Low(x, n) + Pow2(n) * Right(x, n);
      }
    }
  }

  // ---------------------------------------------------------------- the field table

  /** A row of the table: position (struct_id), width (len_offset), signedness (the decoder). */
  datatype Field = Field(pos: nat, width: nat, signed: bool)

  datatype Item = Item(f: Field, v: int)

  ghost predicate WellFormed(f: Field) {
    1 <= f.width <= 30 && f.pos + f.width <= 32
  }

  ghost predicate Disjoint(f: Field, g: Field) {
    f.pos + f.width <= g.pos || g.pos + g.width <= f.pos
  }

  /** What one field contributes to the word: XDR_encodebf_uint32, for signed fields too, masked twice. */
  function Shifted(it: Item): (r: nat) {
    LeftIsNat(Low(Low(it.v, it.f.width), it.f.width), it.f.pos);
    Left(Low(Low(it.v, it.f.width), it.f.width), it.f.pos)
  }

  function Pack(items: seq<Item>): nat
    decreases |items|
  {
    if items == [] then 0 else Or(Pack(items[..|items| - 1]), Shifted(items[|items| - 1]))
  }

  /** XDR_bitfield_struct_encoder's loop, and the word it writes. */
  method EncodeBits(items: seq<Item>) returns (bytes: seq<Byte>)
    ensures bytes == WordBytes(Pack(items))
  {
    var val: nat := 0;
    for i := 0 to |items|
      invariant val == Pack(items[..i])
    {
      assert items[..i + 1][..i] == items[..i];
      val := Or(val, Shifted(items[i]));
    }
    assert items[..|items|] == items;
    bytes := WordBytes(val);
  }

  function Extract(f: Field, word: int): nat {
    Low(Right(word, f.pos), f.width)
  }

  /** XDR_decodebf_int32: the top bit of the field fills the bits above it. */
  function SignExtend(width: nat, x: nat): int
    requires width > 0
  {
    if Right(x, width - 1) % 2 == 1 then Low(x, width) - Pow2(width) else Low(x, width)
  }

  function Unpack(f: Field, word: int): int {
    if f.signed && f.width > 0 then SignExtend(f.width, Extract(f, word)) else Low(Extract(f, word), f.width)
  }

  /** XDR_bitfield_struct_decoder's loop over the table. */
  method DecodeBits(fields: seq<Field>, src: seq<Byte>) returns (r: Read<seq<int>>)
    ensures r.Fail? <==> |src| < 4
    ensures r.Read? ==> r.used == 4 && |r.value| == |fields|
    ensures r.Read? ==> forall i :: 0 <= i < |fields| ==> r.value[i] == Unpack(fields[i], Word(src))
  {
    if |src| < 4 {
      return Fail;
    }
    var word, out := Word(src), [];
    for i := 0 to |fields|
      invariant |out| == i && forall j :: 0 <= j < i ==> out[j] == Unpack(fields[j], word)
    {
      out := out + [Unpack(fields[i], word)];
    }
    r := Read(out, 4);
  }

  // ---------------------------------------------------------------- fields do not disturb each other

  lemma ExtractOfOr(f: Field, a: nat, b: nat)
    ensures Extract(f, Or(a, b)) == Or(Extract(f, a), Extract(f, b))
  {
    RightOfOr(a, b, f.pos);
    LowOfOr(Right(a, f.pos), Right(b, f.pos), f.width);
  }

  /** A field finds its own digits in its contribution. */
  lemma ExtractOwn(it: Item)
    ensures Extract(it.f, Shifted(it)) == Low(it.v, it.f.width)
  {
    var x := Low(it.v, it.f.width);
    LowOfLow(it.v, it.f.width);
    RightOfLeft(x, it.f.pos, it.f.pos);
  }

  /** And nothing in that of a disjoint field. */
  lemma ExtractOther(f: Field, it: Item)
    requires Disjoint(f, it.f)
    ensures Extract(f, Shifted(it)) == 0
  {
    var x := Low(it.v, it.f.width);
    LowOfLow(it.v, it.f.width);
    RightOfLeft(x, it.f.pos, f.pos);
    if f.pos + f.width <= it.f.pos {
      LowOfLeft(x, it.f.pos - f.pos, f.width);
    } else {
      RightOfLow(it.v, it.f.width, f.pos - it.f.pos);
      RightOfZero(f.width);
    }
  }

  /** What the field of item `i` finds in the word of the first `n` items. */
  lemma {:induction false} ExtractFromPack(items: seq<Item>, i: nat, n: nat)
    requires i < |items| && n <= |items|
    requires forall j :: 0 <= j < |items| && j != i ==> Disjoint(items[i].f, items[j].f)
    ensures Extract(items[i].f, Pack(items[..n])) == if i < n then Low(items[i].v, items[i].f.width) else 0
    decreases n
  {
    var f := items[i].f;
    if n == 0 {
      RightOfZero(f.pos);
      RightOfZero(f.width);
    } else {
      var before, last := Pack(items[..n - 1]), items[n - 1];
      assert items[..n][..n - 1] == items[..n - 1];
      ExtractFromPack(items, i, n - 1);
      ExtractOfOr(f, before, Shifted(last));
      OrZero(Extract(f, before));
      OrZero(Low(items[i].v, f.width));
      if n - 1 == i {
        ExtractOwn(last);
      } else {
        ExtractOther(f, last);
      }
    }
  }

  lemma Multiple(p: int, d: int)
    requires p > 0
    ensures d >= 1 ==> p * d >= p
    ensures d <= -1 ==> p * d <= -p
  {}

  lemma Unique(p: int, q: int, low: int, q': int, low': int)
    requires low + p * q == low' + p * q' && 0 <= low < p && 0 <= low' < p
    ensures q == q' && low == low'
  {
    assert p * (q - q') == p * q - p * q';
    Multiple(p, q - q');
  }

  lemma Divides(x: int, p: int, low: int, q: int)
    requires x == low + p * q && 0 <= low < p
    ensures x / p == q && x % p == low
  {
    Unique(p, q, low, x / p, x % p);
  }

  /** The field is the word divided by 2 to the power of its position, modulo 2 to the power of its width. */
  lemma ExtractIs(f: Field, word: int)
    ensures Extract(f, word) == word / Pow2(f.pos) % Pow2(f.width)
  {
    LowAndRight(word, f.pos);
    Divides(word, Pow2(f.pos), Low(word, f.pos), Right(word, f.pos));
    var x := Right(word, f.pos);
    LowAndRight(x, f.width);
    Divides(x, Pow2(f.width), Low(x, f.width), Right(x, f.width));
  }

  /** In the packed word a field that overlaps no other has its value modulo 2 to the power of its width. */
  lemma PackedField(items: seq<Item>, i: nat)
    requires i < |items|
    requires forall j :: 0 <= j < |items| && j != i ==> Disjoint(items[i].f, items[j].f)
    ensures Pack(items) / Pow2(items[i].f.pos) % Pow2(items[i].f.width) == items[i].v % Pow2(items[i].f.width)
  {
    var f, v := items[i].f, items[i].v;
    ExtractFromPack(items, i, |items|);
    assert items[..|items|] == items;
    ExtractIs(f, Pack(items));
    LowAndRight(v, f.width);
    Divides(v, Pow2(f.width), Low(v, f.width), Right(v, f.width));
  }

  /** Where there is no field the packed word is zero. */
  lemma {:induction false} NothingElsePacked(items: seq<Item>, f: Field)
    requires forall j :: 0 <= j < |items| ==> Disjoint(f, items[j].f)
    ensures Pack(items) / Pow2(f.pos) % Pow2(f.width) == 0
    decreases |items|
  {
    ExtractIs(f, Pack(items));
    if items == [] {
      RightOfZero(f.pos);
      RightOfZero(f.width);
    } else {
      var n := |items| - 1;
      NothingElsePacked(items[..n], f);
      ExtractIs(f, Pack(items[..n]));
      ExtractOfOr(f, Pack(items[..n]), Shifted(items[n]));
      ExtractOther(f, items[n]);
    }
  }

  // ---------------------------------------------------------------- round trip

  /** The range of the field. */
  ghost predicate InRange(f: Field, v: int) {
    if f.signed && f.width > 0 then -(Pow2(f.width - 1) as int) <= v < Pow2(f.width - 1) else 0 <= v < Pow2(f.width)
  }

  lemma Quotient(x: int, p: int, low: int, q: int)
    requires x == low + p * q && 0 <= low < p
    ensures q == 0 <==> 0 <= x < p
    ensures q == -1 <==> -p <= x < 0
  {
    if q >= 1 {
      assert p * q >= p;
    } else if q < -1 {
      assert p * q <= -2 * p;
    }
  }

  lemma TopQuotient(x: int, p: int, low: int, q: int)
    requires x == low + p * q && 0 <= low < p && 0 <= x < 2 * p
    ensures q == if x >= p then 1 else 0
  {
    Quotient(x, p, low, q);
    if x >= p {
      assert p * (q - 1) == p * q - p;
      Quotient(x - p, p, low, q - 1);
    }
  }

  /** The digit a sign extension looks at. */
  lemma TopDigit(x: nat, n: nat)
    requires n > 0 && x < Pow2(n)
    ensures Right(x, n - 1) % 2 == 1 <==> x >= Pow2(n - 1)
  {
    LowAndRight(x, n - 1);
    TopQuotient(x, Pow2(n - 1), Low(x, n - 1), Right(x, n - 1));
  }

  lemma DigitsRoundTrip(f: Field, v: int)
    ensures var x := Low(v, f.width);
            (if f.signed && f.width > 0 then SignExtend(f.width, x) else Low(x, f.width)) == v <==> InRange(f, v)
  {
    var n := f.width;
    LowOfLow(v, n);
    LowAndRight(v, n);
    Quotient(v, Pow2(n), Low(v, n), Right(v, n));
    if n > 0 {
      TopDigit(Low(v, n), n);
    }
  }

  /** In a table of disjoint fields, a field gets its value back if and only if it is in its range. */
  lemma UnpackPack(items: seq<Item>, i: nat)
    requires i < |items|
    requires forall j :: 0 <= j < |items| && j != i ==> Disjoint(items[i].f, items[j].f)
    ensures Unpack(items[i].f, Pack(items)) == items[i].v <==> InRange(items[i].f, items[i].v)
  {
    ExtractFromPack(items, i, |items|);
    assert items[..|items|] == items;
    DigitsRoundTrip(items[i].f, items[i].v);
  }

  /** Fields inside 32 bits make a word of 32 bits. */
  lemma {:induction false} PackIsWord(items: seq<Item>)
    requires forall i :: 0 <= i < |items| ==> items[i].f.pos + items[i].f.width <= 32
    ensures Right(Pack(items), 32) == 0
    decreases |items|
  {
    if items == [] {
      RightOfZero(32);
    } else {
      var n := |items| - 1;
      var it := items[n];
      PackIsWord(items[..n]);
      RightOfOr(Pack(items[..n]), Shifted(it), 32);
      LowOfLow(it.v, it.f.width);
      RightOfLeft(Low(it.v, it.f.width), it.f.pos, 32);
      RightOfLow(it.v, it.f.width, 32 - it.f.pos);
    }
  }

  lemma WordOnWire(word: nat)
    requires word < M32
    ensures Word(WordBytes(word)) == word
  {
    WordRoundTrip(word, []);
    Split32(word, 0, word);
    assert WordBytes(word) + [] == WordBytes(word);
  }

  lemma Pow32()
    ensures Pow2(32) == M32
  {
    assert Pow2(8) == 256;
    assert Pow2(16) == 0x1_0000;
    assert Pow2(24) == 0x100_0000;
  }

  /** Packing, sending, receiving and unpacking a table of disjoint fields. */
  method BitsRoundTrip(items: seq<Item>) returns (r: Read<seq<int>>)
    requires forall i :: 0 <= i < |items| ==> WellFormed(items[i].f)
    requires forall i, j :: 0 <= i < |items| && 0 <= j < |items| && i != j ==> Disjoint(items[i].f, items[j].f)
    ensures r.Read? && r.used == 4 && |r.value| == |items|
    ensures forall i :: 0 <= i < |items| ==> (r.value[i] == items[i].v <==> InRange(items[i].f, items[i].v))
  {
    var bytes := EncodeBits(items);
    var fields := seq(|items|, i requires 0 <= i < |items| => items[i].f);
    r := DecodeBits(fields, bytes);
    PackIsWord(items);
    LowAndRight(Pack(items), 32);
    Pow32();
    WordOnWire(Pack(items));
    forall i | 0 <= i < |items| ensures r.value[i] == items[i].v <==> InRange(items[i].f, items[i].v) {
      UnpackPack(items, i);
    }
  }

  // ---------------------------------------------------------------- order of the table

  lemma OrRotates(a: nat, b: nat, c: nat)
    ensures Or(Or(a, b), c) == Or(Or(a, c), b)
  {
    OrGroups(a, b, c);
    OrGroups(a, c, b);
    OrSwaps(b, c);
  }

  lemma {:induction false} PackWithout(items: seq<Item>, i: nat)
    requires i < |items|
    ensures Pack(items) == Or(Pack(items[..i] + items[i + 1..]), Shifted(items[i]))
    decreases |items|
  {
    var n := |items| - 1;
    if i < n {
      PackWithout(items[..n], i);
      var rest := items[..i] + items[i + 1..];
      assert rest[..n - 1] == items[..n][..i] + items[..n][i + 1..] && rest[n - 1] == items[n];
      OrRotates(Pack(rest[..n - 1]), Shifted(items[i]), Shifted(items[n]));
    } else {
      assert items[..i] + items[i + 1..] == items[..n];
    }
  }

  lemma MultisetWithout(a: seq<Item>, i: nat)
    requires i < |a|
    ensures multiset(a[..i] + a[i + 1..]) == multiset(a) - multiset{a[i]}
  {
    assert a == a[..i] + [a[i]] + a[i + 1..];
  }

  /** The word does not depend on the order of the table. */
  lemma {:induction false} PackIgnoresOrder(a: seq<Item>, b: seq<Item>)
    requires multiset(a) == multiset(b)
    ensures Pack(a) == Pack(b)
    decreases |a|
  {
    if a == [] {
      assert |multiset(b)| == 0;
    } else {
      var n := |a| - 1;
      assert a[n] in multiset(b);
      var i :| 0 <= i < |b| && b[i] == a[n];
      PackWithout(b, i);
      PackWithout(a, n);
      MultisetWithout(b, i);
      MultisetWithout(a, n);
      assert a[..n] + a[n + 1..] == a[..n];
      PackIgnoresOrder(a[..n], b[..i] + b[i + 1..]);
    }
  }
}
