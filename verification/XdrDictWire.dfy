/**
 The parts of module XdrDict told from outside: which key comes first, what the hash does to the bits,
 in which order and with which bytes a dictionary is sent, and what a decoder keeps of broken input.
 */
module XdrDictWire {
  import opened Common
  import opened Xdr
  import opened XdrWire
  import opened XdrDict

  // ---------------------------------------------------------------- keys

  /** At `i` the keys differ for the first time, and `a` is the smaller there, or has ended. */
  predicate Decides(a: seq<Byte>, b: seq<Byte>, i: nat) {
    i <= |a| && i < |b| && a[..i] == b[..i] && (i == |a| || a[i] < b[i])
  }

  /** strcmp: the first differing byte decides, or else the length. */
  lemma {:induction false} CompareDecides(a: seq<Byte>, b: seq<Byte>)
    ensures Compare(a, b) < 0 <==> exists i: nat :: Decides(a, b, i)
    decreases |a|
  {
    if a == [] || b == [] {
      assert b != [] ==> Decides(a, b, 0);
    } else if a[0] != b[0] {
      assert a[0] < b[0] ==> Decides(a, b, 0);
      forall i: nat | Decides(a, b, i) ensures a[0] < b[0] {
        if i > 0 {
          assert a[..i][0] == b[..i][0];
        }
      }
    } else {
      CompareDecides(a[1..], b[1..]);
      forall i: nat | Decides(a[1..], b[1..], i) ensures Decides(a, b, i + 1) {
        assert a[..i + 1] == [a[0]] + a[1..][..i] && b[..i + 1] == [b[0]] + b[1..][..i];
      }
      forall i: nat | Decides(a, b, i) ensures i > 0 && Decides(a[1..], b[1..], i - 1) {
        assert i > 0 ==> a[1..][..i - 1] == a[..i][1..] && b[1..][..i - 1] == b[..i][1..];
      }
    }
  }

  function Bit(n: nat, i: nat): nat
    decreases i
  {
    if i == 0 then n % 2 else Bit(n / 2, i - 1)
  }

  lemma {:induction false} NoBits(i: nat)
    ensures Bit(0, i) == 0
  {
    if i > 0 {
      NoBits(i - 1);
    }
  }

  lemma {:induction false} BitIsBit(n: nat, i: nat)
    ensures 0 <= Bit(n, i) < 2
    decreases i
  {
    if i > 0 {
      BitIsBit(n / 2, i - 1);
    }
  }

  /** A bit of the exclusive or is set if and only if it is set in one of the two. */
  lemma {:induction false} XorBits(a: nat, b: nat, i: nat)
    ensures Bit(Xor(a, b), i) == 1 <==> Bit(a, i) != Bit(b, i)
    decreases i
  {
    BitIsBit(b, i);
    if a == 0 {
      NoBits(i);
    } else if i > 0 {
      var low, high := (a % 2 + b % 2) % 2, Xor(a / 2, b / 2);
      assert (low + 2 * high) / 2 == high;
      XorBits(a / 2, b / 2, i - 1);
    }
  }

  /** The round for one more byte: exclusive or with the byte, product modulo 2^32, and exclusive or with
      itself shifted right by fifteen. */
  function Round(h: nat, c: Byte): nat {
    var m := Xor(h, c) * 0x5bd1_e995 % 0x1_0000_0000;
    Xor(m, m / 32768)
  }

  lemma {:induction false} HashTakesBytesInOrder(h: nat, key: seq<Byte>, c: Byte)
    ensures Murmur(h, key + [c]) == Round(Murmur(h, key), c)
    decreases |key|
  {
    hide Xor;
    if key == [] {
      assert key + [c] == [c] && [c][1..] == [];
      assert MurmurRound(h, [c]) == Murmur(Round(h, c), []);
    } else {
      assert (key + [c])[1..] == key[1..] + [c];
      var m := Xor(h, key[0]) * 0x5bd1_e995 % M32;
      HashTakesBytesInOrder(Xor(m, m / 0x8000), key[1..], c);
    }
  }

  /** Where the empty key and the key "a" go. */
  lemma KnownBuckets()
    ensures Bucket([]) == 6 && Bucket([97]) == 1
  {
    hide Xor;
    XorWithA();
    XorShifted();
    HashTakesBytesInOrder(3323198485, [], 97);
    assert [] + [97] == [97] && Murmur(3323198485, []) == 3323198485;
    assert Round(3323198485, 97) == 3508150707;
  }

  lemma {:induction false} XorNothing(a: nat)
    ensures Xor(a, 0) == a
  {
    if a > 0 {
      XorNothing(a / 2);
    }
  }

  lemma XorDigit(a: nat, b: nat)
    requires a > 0
    ensures Xor(a, b) == (a % 2 + b % 2) % 2 + 2 * Xor(a / 2, b / 2)
  {}

  lemma XorWithA()
    ensures Xor(3323198485, 97) == 3323198580
  {
    hide Xor;
    XorNothing(25962488);
    XorDigit(51924976, 1);
    XorDigit(103849952, 3);
    XorDigit(207699905, 6);
    XorDigit(415399810, 12);
    XorDigit(830799621, 24);
    XorDigit(1661599242, 48);
    XorDigit(3323198485, 97);
  }

  lemma XorShiftedHigh()
    ensures Xor(6852033, 209) == 6851856
  {
    hide Xor;
    XorNothing(26765);
    XorDigit(53531, 1);
    XorDigit(107063, 3);
    XorDigit(214126, 6);
    XorDigit(428252, 13);
    XorDigit(856504, 26);
    XorDigit(1713008, 52);
    XorDigit(3426016, 104);
    XorDigit(6852033, 209);
  }

  lemma XorShifted()
    ensures Xor(3508241284, 107063) == 3508150707
  {
    hide Xor;
    XorShiftedHigh();
    XorDigit(13704067, 418);
    XorDigit(27408135, 836);
    XorDigit(54816270, 1672);
    XorDigit(109632540, 3345);
    XorDigit(219265080, 6691);
    XorDigit(438530160, 13382);
    XorDigit(877060321, 26765);
    XorDigit(1754120642, 53531);
    XorDigit(3508241284, 107063);
  }

  // ---------------------------------------------------------------- the order of the entries

  /** By bucket, and by key within a bucket. */
  predicate Before(a: Key, b: Key) {
    Bucket(a) < Bucket(b) || (Bucket(a) == Bucket(b) && Compare(a, b) < 0)
  }

  lemma {:induction false} SortedBefore(b: seq<Node>, i: nat, j: nat)
    requires Sorted(b) && i < j < |b|
    ensures Compare(b[i].key, b[j].key) < 0
    decreases |b|
  {
    if i > 0 {
      SortedBefore(b[1..], i - 1, j - 1);
    } else {
      assert b[j] == b[1..][j - 1];
    }
  }

  /** All entries of the lists from `n` on belong there. */
  lemma {:induction false} EntriesHomed(t: Table, n: nat, j: nat)
    requires Good(t) && n <= HASH_LEN && j < |Entries(t[n..])|
    ensures Bucket(Entries(t[n..])[j].key) >= n
    decreases HASH_LEN - n
  {
    hide Bucket;
    if n < HASH_LEN {
      assert t[n..][0] == t[n] && t[n..][1..] == t[n + 1..];
      if j >= |t[n]| {
        EntriesHomed(t, n + 1, j - |t[n]|);
      }
    }
  }

  lemma {:induction false} EntriesInOrder(t: Table, n: nat, i: nat, j: nat)
    requires Good(t) && n <= HASH_LEN && i < j < |Entries(t[n..])|
    ensures Before(Entries(t[n..])[i].key, Entries(t[n..])[j].key)
    decreases HASH_LEN - n
  {
    hide Bucket;
    if n < HASH_LEN {
      assert t[n..][0] == t[n] && t[n..][1..] == t[n + 1..];
      var m := |t[n]|;
      if i >= m {
        EntriesInOrder(t, n + 1, i - m, j - m);
      } else if j >= m {
        EntriesHomed(t, n + 1, j - m);
      } else {
        SortedBefore(t[n], i, j);
      }
    }
  }

  /** The entries are sent by bucket and by key, and they are what the dictionary binds. */
  lemma SentInOrder(t: Table, k: Key)
    requires Good(t)
    ensures forall i, j :: 0 <= i < j < |Entries(t)| ==> Before(Entries(t)[i].key, Entries(t)[j].key)
    ensures FindIn(Entries(t), k) == Find(t, k)
  {
    hide Bucket;
    assert t[0..] == t;
    forall i, j | 0 <= i < j < |Entries(t)| ensures Before(Entries(t)[i].key, Entries(t)[j].key) {
      EntriesInOrder(t, 0, i, j);
    }
    FindInEntries(t, 0, k);
  }

  // ---------------------------------------------------------------- the bytes

  /** The entries before entry `i` take this many bytes. */
  function EntryOffset(enc: Encoder, es: seq<Node>, i: nat): nat
    requires i <= |es|
  {
    if i == 0 then 0 else EntryOffset(enc, es, i - 1) + |TextBytes(es[i - 1].key)| + |enc(es[i - 1].data)|
  }

  lemma {:induction false} EntriesSize(enc: Encoder, es: seq<Node>, i: nat)
    requires i <= |es|
    ensures |EntriesBytes(enc, es[..i])| == EntryOffset(enc, es, i)
    decreases i
  {
    if i > 0 {
      EntriesSize(enc, es, i - 1);
      EntriesBytesLast(enc, es[..i]);
      assert es[..i][..i - 1] == es[..i - 1];
    }
  }

  lemma {:induction false} EntriesSplit(enc: Encoder, a: seq<Node>, b: seq<Node>)
    ensures EntriesBytes(enc, a + b) == EntriesBytes(enc, a) + EntriesBytes(enc, b)
    decreases |a|
  {
    if a == [] {
      assert a + b == b && [] + EntriesBytes(enc, b) == EntriesBytes(enc, b);
    } else {
      assert (a + b)[1..] == a[1..] + b;
      EntriesSplit(enc, a[1..], b);
      Assoc(EntryBytes(enc, a[0]), EntriesBytes(enc, a[1..]), EntriesBytes(enc, b));
    }
  }

  lemma Parts(pre: seq<Byte>, key: seq<Byte>, val: seq<Byte>, rest: seq<Byte>)
    ensures var b, mid := pre + (key + val + rest), |pre| + |key|;
            b[|pre|..mid] == key && b[mid..mid + |val|] == val
  {}

  lemma EntryParts(enc: Encoder, es: seq<Node>, i: nat)
    requires i < |es|
    ensures EntriesBytes(enc, es) ==
            EntriesBytes(enc, es[..i]) + (TextBytes(es[i].key) + enc(es[i].data) + EntriesBytes(enc, es[i + 1..]))
  {
    hide TextBytes;
    assert es == es[..i] + es[i..] && es[i..][1..] == es[i + 1..];
    EntriesSplit(enc, es[..i], es[i..]);
  }

  /** A dictionary is its length, and then the entries, each a string and its value. */
  lemma TableWire(enc: Encoder, t: Table, i: nat)
    requires i < |Entries(t)| < M32
    ensures var b, es := TableBytes(enc, t), Entries(t);
            var at := 4 + EntryOffset(enc, es, i);
            var mid := at + |TextBytes(es[i].key)|;
            && |b| == 4 + EntryOffset(enc, es, |es|) && Number(b) == |es|
            && mid + |enc(es[i].data)| <= |b|
            && b[at..mid] == TextBytes(es[i].key) && b[mid..mid + |enc(es[i].data)|] == enc(es[i].data)
  {
    hide Entries;
    hide EntryOffset;
    hide TextBytes;
    hide EntriesBytes;
    hide WordBytes;
    var es := Entries(t);
    WordWire(|es|);
    Split32(|es|, 0, |es|);
    EntriesSize(enc, es, i);
    EntriesSize(enc, es, |es|);
    assert es[..|es|] == es;
    EntryParts(enc, es, i);
    var w, head, rest := WordBytes(|es|), EntriesBytes(enc, es[..i]), EntriesBytes(enc, es[i + 1..]);
    var key, val := TextBytes(es[i].key), enc(es[i].data);
    Assoc(w, head, key + val + rest);
    Parts(w + head, key, val, rest);
  }

  // ---------------------------------------------------------------- broken input

  /** A decoded key ends before its first zero byte. */
  lemma {:induction false} CStringMeans(s: seq<Byte>)
    ensures CString(s) <= s && (|CString(s)| == |s| || s[|CString(s)|] == 0)
    decreases |s|
  {
    if s != [] && s[0] != 0 {
      CStringMeans(s[1..]);
    }
  }

  lemma SameLists(t: Table, n: Node)
    requires |t| == HASH_LEN
    ensures |AddTo(t, n)| == HASH_LEN
  {}

  /** The decoder fails at the first entry that it cannot read, and what it read before stays. */
  lemma {:induction false} BrokenInput(enc: Encoder, dec: Decoder, t: Table, es: seq<Node>, n: nat, bad: seq<Byte>)
    requires |t| == HASH_LEN && Bounded(dec) && RecoversAll(enc, dec, es) && n > |es| && DecodeEntry(dec, bad).Fail?
    ensures var r := DecodeEntries(dec, t, n, EntriesBytes(enc, es) + bad); !r.ok && r.t == AddAll(t, es)
    decreases |es|
  {
    hide AddTo;
    hide DecodeEntry;
    hide EntryBytes;
    if es == [] {
      assert [] + bad == bad;
    } else {
      var b, rest := EntryBytes(enc, es[0]), EntriesBytes(enc, es[1..]);
      Assoc(b, rest, bad);
      EntryRoundTrip(enc, dec, es[0], rest + bad);
      assert (b + (rest + bad))[|b|..] == rest + bad;
      SameLists(t, es[0]);
      BrokenInput(enc, dec, AddTo(t, es[0]), es[1..], n - 1, bad);
    }
  }
}
