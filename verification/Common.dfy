/** What several modules need. */
module Common {

  datatype Option<T> = None | Some(value: T)

  type Byte = x: int | 0 <= x < 256

  const M32 := 0x1_0000_0000
  const M64 := 0x1_0000_0000_0000_0000

  function Zeros(n: nat): (r: seq<Byte>)
    ensures |r| == n
  {
    seq(n, _ => 0)
  }

  /** The pieces one behind the other. */
  function Join(pieces: seq<seq<Byte>>): seq<Byte> {
    if pieces == [] then [] else pieces[0] + Join(pieces[1..])
  }

  /** Quotient and remainder by 2^32, from a decomposition. */
  lemma Split32(x: int, q: int, r: int)
    requires x == M32 * q + r && 0 <= r < M32
    ensures x / M32 == q && x % M32 == r
  {}

  lemma {:induction false} JoinLast(pieces: seq<seq<Byte>>)
    requires pieces != []
    ensures Join(pieces) == Join(pieces[..|pieces| - 1]) + pieces[|pieces| - 1]
    decreases |pieces|
  {
    if |pieces| > 1 {
      JoinLast(pieces[1..]);
      assert pieces[..|pieces| - 1][1..] == pieces[1..][..|pieces| - 2];
      var first, mid, last := pieces[0], Join(pieces[1..][..|pieces| - 2]), pieces[|pieces| - 1];
      assert first + (mid + last) == first + mid + last;
    }
  }

  /** memcpy into a buffer. */
  method CopyInto(buffer: array<Byte>, at: nat, data: seq<Byte>)
    requires at + |data| <= buffer.Length
    modifies buffer
    ensures buffer[..] == old(buffer[..at]) + data + old(buffer[at + |data|..])
  {
    for i := 0 to |data|
      invariant buffer[..] == old(buffer[..at]) + data[..i] + old(buffer[at + i..])
    {
      buffer[at + i] := data[i];
    }
  }
}
