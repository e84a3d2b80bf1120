/**
 What becomes of any byte stream that a peer may send to the parser of module Zmtp: which streams are let
 in, which are closed out and after what answers, and the frames of ZMTP 3.0 byte by byte.
 */
module ZmtpOutcome {
  import opened Common
  import opened Zmtp

  // ---------------------------------------------------------------- the handshake

  const GREETING: seq<Byte> := SIGNATURE + VERS + AUTH

  /** The characters of a text. */
  function Ascii(s: string): seq<int> {
    seq(|s|, i requires 0 <= i < |s| => s[i] as int)
  }

  /** The three greetings and the answer to the last: the signature, major version 3, minor version 0 with
      the mechanism NULL in twenty bytes, not a server, and filler; the command READY of a PAIR socket. */
  lemma Greetings()
    ensures |SIGNATURE| == 10 && SIGNATURE[0] == 0xFF && SIGNATURE[9] == 0x7F
    ensures SIGNATURE[1..9] == [0, 0, 0, 0, 0, 0, 0, 1]
    ensures VERS == [3] && |AUTH| == 53 && AUTH[0] == 0 && AUTH[1..5] == Ascii("NULL") && AUTH[5..] == Zeros(48)
    ensures READY == [4, 26] + [5] + Ascii("READY") + [11] + Ascii("Socket-Type") + [0, 0, 0, 4] + Ascii("PAIR")
  {
    assert Ascii("NULL") == [78, 85, 76, 76] && Ascii("READY") == [82, 69, 65, 68, 89];
    assert Ascii("Socket-Type") == [83, 111, 99, 107, 101, 116, 45, 84, 121, 112, 101];
    assert Ascii("PAIR") == [80, 65, 73, 82];
  }

  /** Some greeting is complete and is not the one expected. */
  predicate Mismatch(b: seq<Byte>) {
    || (|b| >= 10 && b[..10] != SIGNATURE)
    || (|b| >= 11 && b[..10] == SIGNATURE && b[10] != 3)
    || (|b| >= 64 && b[..10] == SIGNATURE && b[10] == 3 && b[11..64] != AUTH)
  }

  /** What was answered: the own signature, and the answer to every greeting that was accepted. */
  function Answers(b: seq<Byte>): seq<Byte> {
    if |b| < 10 || b[..10] != SIGNATURE then SIGNATURE
    else if |b| < 11 || b[10] != 3 then SIGNATURE + VERS
    else if |b| < 64 || b[11..64] != AUTH then SIGNATURE + VERS + AUTH
    else SIGNATURE + VERS + AUTH + READY
  }

  /** Every stream, in whatever pieces it arrives: the peer is let in if and only if the stream begins with
      the three greetings; it is closed out if and only if one of them is complete and differs somewhere
      from the one expected.  Then nothing is delivered, and nothing sent but the answers to the
      greetings accepted before. */
  lemma HandshakeOutcome(pieces: seq<seq<Byte>>)
    ensures var b, c := Join(pieces), FeedAll(Fresh(), pieces);
            && (c.phase.Data? <==> GREETING <= b)
            && (c.closed <==> Mismatch(b))
            && c.sent == Answers(b)
            && (!c.phase.Data? ==> c.delivered == [])
  {
    var b := Join(pieces);
    CuttingDoesNotMatter(Fresh(), pieces);
    assert [] + b == b;
    AfterSignature(b);
  }

  ghost predicate Outcome(c: Conn, b: seq<Byte>) {
    && (c.phase.Data? <==> GREETING <= b) && (c.closed <==> Mismatch(b)) && c.sent == Answers(b)
    && (!c.phase.Data? ==> c.delivered == [])
  }

  lemma Begins(b: seq<Byte>)
    ensures GREETING <= b <==> |b| >= 64 && b[..10] == SIGNATURE && b[10] == 3 && b[11..64] == AUTH
  {
    if |b| >= 64 {
      assert b[..64] == b[..10] + b[10..11] + b[11..64];
      assert b[10..11] == [b[10]];
      assert GREETING[..10] == SIGNATURE && GREETING[10..11] == VERS && GREETING[11..] == AUTH;
    }
  }

  lemma AfterSignature(b: seq<Byte>)
    ensures Outcome(Drain(Fresh().(rest := b)), b)
  {
    Begins(b);
    var l := LookAt(Signature, b);
    if |b| >= 10 && b[..10] == SIGNATURE {
      AfterVersion(b);
    }
  }

  lemma AfterVersion(b: seq<Byte>)
    requires |b| >= 10 && b[..10] == SIGNATURE
    ensures Outcome(Drain(Conn(Version, b[10..], false, SIGNATURE + VERS, [])), b)
  {
    Begins(b);
    if |b| >= 11 {
      assert b[10..11] == [b[10]] && b[10..][..1] == b[10..11] && b[10..][1..] == b[11..];
      if b[10] == 3 {
        AfterAuth(b);
      }
    }
  }

  lemma AfterAuth(b: seq<Byte>)
    requires |b| >= 11 && b[..10] == SIGNATURE && b[10] == 3
    ensures Outcome(Drain(Conn(Auth, b[11..], false, SIGNATURE + VERS + AUTH, [])), b)
  {
    Begins(b);
    if |b| >= 64 {
      assert b[11..][..53] == b[11..64] && b[11..][53..] == b[64..];
      if b[11..64] == AUTH {
        InData(Conn(Data, b[64..], false, SIGNATURE + VERS + AUTH + READY, []));
      }
    }
  }

  /** Nothing closes the connection or is sent by the parser once the peer is in. */
  lemma {:induction false} InData(c: Conn)
    requires c.phase.Data?
    ensures Drain(c).phase.Data? && Drain(c).closed == c.closed && Drain(c).sent == c.sent
    ensures c.delivered <= Drain(c).delivered
    decreases |c.rest|
  {
    var l := LookAt(c.phase, c.rest);
    if l.Took? {
      assert c.sent + [] == c.sent;
      InData(Took1(c, l));
    }
  }

  // ---------------------------------------------------------------- frames

  /** A frame as a peer may send it: bit 1 of the flags says that the length is in eight bytes, bit 2 that
      it is a command; the other bits mean nothing here. */
  datatype Raw = Raw(flags: Byte, payload: seq<Byte>)

  /** The eight bytes of a long length, highest first. */
  function LengthOf(b: seq<Byte>): int
    requires |b| == 8
  {
    0x100_0000_0000_0000 * b[0] as int + 0x1_0000_0000_0000 * b[1] as int + 0x100_0000_0000 * b[2] as int
    + 0x1_0000_0000 * b[3] as int + 0x100_0000 * b[4] as int + 0x1_0000 * b[5] as int
    + 0x100 * b[6] as int + b[7] as int
  }

  /** The bytes of a frame. */
  ghost predicate IsRaw(r: Raw, b: seq<Byte>) {
    && |b| >= 1 && b[0] == r.flags
    && if r.flags / 2 % 2 == 1 then |b| >= 9 && LengthOf(b[1..9]) == |r.payload| && b[9..] == r.payload
       else |b| >= 2 && b[1] as int == |r.payload| && b[2..] == r.payload
  }

  lemma BigEndianLast(s: seq<Byte>)
    requires s != []
    ensures BigEndian(s) == 256 * BigEndian(s[..|s| - 1]) + s[|s| - 1] as int
  {}

  /** Lengths are sent highest byte first. */
  lemma EightBytes(b: seq<Byte>)
    requires |b| == 8
    ensures BigEndian(b) == LengthOf(b)
  {
    assert b[..7][..6] == b[..6] && b[..6][..5] == b[..5] && b[..5][..4] == b[..4] && b[..4][..3] == b[..3];
    assert b[..3][..2] == b[..2] && b[..2][..1] == b[..1] && b[..1][..0] == [];
    BigEndianLast(b);
    BigEndianLast(b[..7]);
    BigEndianLast(b[..6]);
    BigEndianLast(b[..5]);
    BigEndianLast(b[..4]);
    BigEndianLast(b[..3]);
    BigEndianLast(b[..2]);
    BigEndianLast(b[..1]);
  }

  /** A frame in front of the stream is taken whole, and delivered unless it is a command; of any part of
      it nothing is taken. */
  lemma RawTaken(r: Raw, b: seq<Byte>, more: seq<Byte>)
    requires IsRaw(r, b)
    ensures LookAt(Data, b + more) == Took(|b|, Data, [], if r.flags / 4 % 2 == 1 then None else Some(r.payload))
    ensures forall cut :: 0 <= cut < |b| ==> LookAt(Data, b[..cut]) == More
  {
    var offset := if r.flags / 2 % 2 == 1 then 9 else 2;
    if offset == 9 {
      EightBytes(b[1..9]);
      assert (b + more)[1..9] == b[1..9];
    }
    assert (b + more)[offset..|b|] == b[offset..];
    forall cut | 0 <= cut < |b| ensures LookAt(Data, b[..cut]) == More {
      if offset == 9 && cut >= 9 {
        assert b[..cut][1..9] == b[1..9];
      }
    }
  }

  /** A part of a frame, and not all of it. */
  ghost predicate Part(b: seq<Byte>) {
    exists r, whole :: IsRaw(r, whole) && b < whole
  }

  function Message(r: Raw): seq<seq<Byte>> {
    if r.flags / 4 % 2 == 1 then [] else [r.payload]
  }

  function Messages(frames: seq<Raw>): seq<seq<Byte>> {
    if frames == [] then [] else Message(frames[0]) + Messages(frames[1..])
  }

  lemma OneFrame(c: Conn, r: Raw, wire: seq<Byte>, more: seq<Byte>)
    requires c.phase.Data? && c.rest == wire + more && IsRaw(r, wire)
    ensures Drain(c) == Drain(c.(rest := more, delivered := c.delivered + Message(r)))
  {
    hide IsRaw;
    hide LookAt;
    RawTaken(r, wire, more);
    assert (wire + more)[|wire|..] == more;
    assert c.sent + [] == c.sent && c.delivered + [] == c.delivered;
  }

  lemma PartWaits(c: Conn)
    requires c.phase.Data? && Part(c.rest)
    ensures Drain(c) == c
  {
    hide IsRaw;
    var r, whole :| IsRaw(r, whole) && c.rest < whole;
    RawTaken(r, whole, []);
    assert whole[..|c.rest|] == c.rest;
  }

  /** After the handshake, of every stream of frames whatever their flags: the payloads of those that are
      not commands are delivered in order, a frame that is not complete is kept for later, and the
      connection stays open and silent. */
  lemma {:induction false} StreamDelivers(c: Conn, frames: seq<Raw>, wires: seq<seq<Byte>>, tail: seq<Byte>)
    requires c.phase.Data? && |frames| == |wires| && (forall i :: 0 <= i < |frames| ==> IsRaw(frames[i], wires[i]))
    requires c.rest == Join(wires) + tail && Part(tail)
    ensures Drain(c) == c.(rest := tail, delivered := c.delivered + Messages(frames))
    decreases |frames|
  {
    hide IsRaw;
    hide Drain;
    hide Part;
    if frames == [] {
      assert c.rest == tail && c.delivered + [] == c.delivered;
      PartWaits(c);
    } else {
      var more, a, m := Join(wires[1..]) + tail, c.delivered, Message(frames[0]);
      assert c.rest == wires[0] + more;
      OneFrame(c, frames[0], wires[0], more);
      StreamDelivers(c.(rest := more, delivered := a + m), frames[1..], wires[1..], tail);
      assert a + m + Messages(frames[1..]) == a + (m + Messages(frames[1..]));
    }
  }

  /** What zmql_write_buffer writes: flags 0 and one byte of length up to 255 bytes, flags 2 and eight
      bytes beyond, and the payload. */
  lemma FrameWire(payload: seq<Byte>)
    requires |payload| < 0x1_0000_0000_0000_0000
    ensures IsRaw(Raw(if |payload| < 256 then 0 else 2, payload), Frame(payload))
  {
    if |payload| >= 256 {
      assert Pow256(8) == 0x1_0000_0000_0000_0000 by {
        assert Pow256(1) == 256 && Pow256(2) == 65536 && Pow256(4) == 0x1_0000_0000;
      }
      BigEndianRoundTrip(|payload|, 8);
      EightBytes(ToBigEndian(|payload|, 8));
      assert Frame(payload)[1..9] == ToBigEndian(|payload|, 8) && Frame(payload)[9..] == payload;
    } else {
      assert Frame(payload)[2..] == payload;
    }
  }
}
