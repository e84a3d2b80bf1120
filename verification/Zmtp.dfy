/**
 The message stream parser of zmqlite.c over the growing buffer of ipc.c: the handshake and framing of
 ZMTP 3.0, fed with whatever pieces the socket delivers.  Bytes are unsigned.
 */
module Zmtp {
  import opened Common

  datatype Phase = Signature | Version | Auth | Data

  const SIGNATURE: seq<Byte> := [0xFF, 0, 0, 0, 0, 0, 0, 0, 1, 0x7F]
  const VERS: seq<Byte> := [3]
  const AUTH: seq<Byte> := [0, 78, 85, 76, 76] + Zeros(48)
  const READY: seq<Byte> :=
    [0x04, 0x1A, 0x05, 82, 69, 65, 68, 89, 0x0B, 83, 111, 99, 107, 101, 116, 45, 84, 121, 112, 101,
     0, 0, 0, 4, 80, 65, 73, 82]

  /** The outcome of one look at the buffered bytes: wait for more, give up on the peer, or take `n`
      bytes, go to a phase, answer, and perhaps hand over a message. */
  datatype Look = More | Bad | Took(n: nat, to: Phase, reply: seq<Byte>, msg: Option<seq<Byte>>)

  /** A byte string as a number, most significant byte first. */
  function BigEndian(s: seq<Byte>): nat {
    if s == [] then 0 else 256 * BigEndian(s[..|s| - 1]) + s[|s| - 1]
  }

  predicate LongFrame(flags: Byte) { flags / 2 % 2 == 1 }
  predicate CommandFrame(flags: Byte) { flags / 4 % 2 == 1 }

  function Greeting(want: seq<Byte>, b: seq<Byte>, to: Phase, reply: seq<Byte>): Look {
    if |b| < |want| then More
    else if want <= b then Took(|want|, to, reply, None)
    else Bad
  }

  function LookAtFrame(b: seq<Byte>): Look {
    if |b| < 1 then More
    else
      var offset := if LongFrame(b[0]) then 9 else 2;
      if |b| < offset then More
      else
        var len := if LongFrame(b[0]) then BigEndian(b[1..9]) else b[1];
        if |b| < offset + len then More
        else Took(offset + len, Data, [], if CommandFrame(b[0]) then None else Some(b[offset..offset + len]))
  }

  function LookAt(p: Phase, b: seq<Byte>): Look {
    match p
    case Signature => Greeting(SIGNATURE, b, Version, VERS)
    case Version => Greeting(VERS, b, Auth, AUTH)
    case Auth => Greeting(AUTH, b, Data, READY)
    case Data => LookAtFrame(b)
  }

  /** A connection as its owner sees it.  Once it is closed its buffer is gone. */
  datatype Conn = Conn(phase: Phase, rest: seq<Byte>, closed: bool, sent: seq<Byte>, delivered: seq<seq<Byte>>)

  function Fresh(): Conn {
    Conn(Signature, [], false, SIGNATURE, [])
  }

  function Took1(c: Conn, l: Look): Conn
    requires l.Took? && l.n <= |c.rest|
  {
    Conn(l.to, c.rest[l.n..], c.closed, c.sent + l.reply,
         if l.msg.Some? then c.delivered + [l.msg.value] else c.delivered)
  }

  /** Looks until there is nothing more to take. */
  function Drain(c: Conn): Conn
    decreases |c.rest|
  {
    match LookAt(c.phase, c.rest)
    case More => c
    case Bad => c.(closed := true, rest := [])
    case Took(n, to, reply, msg) =>
      assert 0 < n <= |c.rest|;
      Drain(Took1(c, Took(n, to, reply, msg)))
  }

  /** A piece arrives; a closed connection gets no more of them. */
  function Feed(c: Conn, piece: seq<Byte>): Conn {
    if c.closed then c else Drain(c.(rest := c.rest + piece))
  }

  function FeedAll(c: Conn, pieces: seq<seq<Byte>>): Conn
    decreases |pieces|
  {
    if pieces == [] then c else FeedAll(Feed(c, pieces[0]), pieces[1..])
  }

  // ---------------------------------------------------------------- cutting does not matter

  /** A decision is final: more bytes do not change it. */
  lemma DecisionStands(p: Phase, b: seq<Byte>, more: seq<Byte>)
    ensures LookAt(p, b) != More ==> LookAt(p, b + more) == LookAt(p, b)
  {
    if p.Data? && |b| >= 9 {
      assert (b + more)[1..9] == b[1..9];
    }
    if LookAt(p, b).Took? && p.Data? {
      var offset := if LongFrame(b[0]) then 9 else 2;
      var n := LookAt(p, b).n;
      assert (b + more)[offset..n] == b[offset..n];
    }
  }

  lemma {:induction false} DrainMore(c: Conn, more: seq<Byte>)
    requires !c.closed
    ensures Feed(Drain(c), more) == Drain(c.(rest := c.rest + more))
    decreases |c.rest|
  {
    DecisionStands(c.phase, c.rest, more);
    var l := LookAt(c.phase, c.rest);
    if l.Took? {
      var c' := Took1(c, l);
      DrainMore(c', more);
      assert (c.rest + more)[l.n..] == c.rest[l.n..] + more;
    }
  }

  lemma {:induction false} FeedTwice(c: Conn, a: seq<Byte>, b: seq<Byte>)
    ensures Feed(Feed(c, a), b) == Feed(c, a + b)
  {
    if !c.closed {
      DrainMore(c.(rest := c.rest + a), b);
      assert c.rest + a + b == c.rest + (a + b);
    }
  }

  /** However a byte stream is cut into reads: phase, open or closed, bytes sent and messages delivered
      are those of the stream in one piece. */
  lemma {:induction false} CuttingDoesNotMatter(c: Conn, pieces: seq<seq<Byte>>)
    requires c.closed || LookAt(c.phase, c.rest) == More
    ensures FeedAll(c, pieces) == Feed(c, Join(pieces))
    decreases |pieces|
  {
    if pieces == [] {
      assert c.rest + [] == c.rest;
    } else {
      DrainSettles(c.(rest := c.rest + pieces[0]));
      CuttingDoesNotMatter(Feed(c, pieces[0]), pieces[1..]);
      FeedTwice(c, pieces[0], Join(pieces[1..]));
    }
  }

  lemma {:induction false} DrainSettles(c: Conn)
    ensures Drain(c).closed || LookAt(Drain(c).phase, Drain(c).rest) == More
    decreases |c.rest|
  {
    var l := LookAt(c.phase, c.rest);
    if l.Took? {
      DrainSettles(Took1(c, l));
    }
  }

  // ---------------------------------------------------------------- frames

  /** `n` as `k` bytes, most significant first. */
  function ToBigEndian(n: nat, k: nat): (s: seq<Byte>)
    ensures |s| == k
  {
    if k == 0 then [] else ToBigEndian(n / 256, k - 1) + [n % 256]
  }

  function Pow256(k: nat): nat {
    if k == 0 then 1 else 256 * Pow256(k - 1)
  }

  lemma {:induction false} BigEndianRoundTrip(n: nat, k: nat)
    requires n < Pow256(k)
    ensures BigEndian(ToBigEndian(n, k)) == n
  {
    if k > 0 {
      BigEndianRoundTrip(n / 256, k - 1);
      assert ToBigEndian(n, k)[..k - 1] == ToBigEndian(n / 256, k - 1);
    }
  }

  /** zmql_write_buffer: a short header up to 255 bytes, a long one beyond. */
  function Frame(payload: seq<Byte>): seq<Byte> {
    (if |payload| <= 255 then [0, |payload|] else [2] + ToBigEndian(|payload|, 8)) + payload
  }

  function Frames(payloads: seq<seq<Byte>>): seq<Byte> {
    if payloads == [] then [] else Frame(payloads[0]) + Frames(payloads[1..])
  }

  lemma FrameLooks(payload: seq<Byte>, more: seq<Byte>)
    requires |payload| < Pow256(8)
    ensures LookAt(Data, Frame(payload) + more) == Took(|Frame(payload)|, Data, [], Some(payload))
  {
    var b := Frame(payload) + more;
    var offset := |Frame(payload)| - |payload|;
    if offset == 9 {
      BigEndianRoundTrip(|payload|, 8);
      assert b[1..9] == ToBigEndian(|payload|, 8);
    }
    assert b[offset..offset + |payload|] == payload;
  }

  lemma FrameDrains(c: Conn, payload: seq<Byte>, more: seq<Byte>)
    requires c.phase == Data && c.rest == Frame(payload) + more && |payload| < Pow256(8)
    ensures Drain(c) == Drain(c.(rest := more, delivered := c.delivered + [payload]))
  {
    FrameLooks(payload, more);
    var f := Frame(payload);
    assert (f + more)[|f|..] == more;
    assert c.sent + [] == c.sent;
  }

  lemma Uncons<T>(s: seq<T>, acc: seq<T>)
    requires s != []
    ensures acc + [s[0]] + s[1..] == acc + s
  {}

  lemma {:induction false} FramesDrain(c: Conn, payloads: seq<seq<Byte>>)
    requires c.phase == Data && forall k :: 0 <= k < |payloads| ==> |payloads[k]| < Pow256(8)
    ensures Drain(c.(rest := Frames(payloads))) == Drain(c.(rest := [], delivered := c.delivered + payloads))
    decreases |payloads|
  {
    if payloads == [] {
      assert c.delivered + payloads == c.delivered;
    } else {
      var d, tail := c.delivered + [payloads[0]], payloads[1..];
      calc {
        Drain(c.(rest := Frames(payloads)));
        { FrameDrains(c.(rest := Frames(payloads)), payloads[0], Frames(tail)); }
        Drain(c.(delivered := d).(rest := Frames(tail)));
        { FramesDrain(c.(delivered := d), tail); }
        Drain(c.(rest := [], delivered := d + tail));
        { Uncons(payloads, c.delivered); }
        Drain(c.(rest := [], delivered := c.delivered + payloads));
      }
    }
  }

  lemma GreetingTaken(c: Conn, want: seq<Byte>, more: seq<Byte>, to: Phase, reply: seq<Byte>)
    requires want != [] && c.rest == want + more && LookAt(c.phase, c.rest) == Greeting(want, c.rest, to, reply)
    ensures Drain(c) == Drain(Conn(to, more, c.closed, c.sent + reply, c.delivered))
  {
    assert (want + more)[|want|..] == more;
  }

  lemma Handshake(tail: seq<Byte>)
    ensures Drain(Fresh().(rest := SIGNATURE + (VERS + (AUTH + tail)))) ==
            Drain(Conn(Data, tail, false, SIGNATURE + VERS + AUTH + READY, []))
  {
    var c := Fresh().(rest := SIGNATURE + (VERS + (AUTH + tail)));
    GreetingTaken(c, SIGNATURE, VERS + (AUTH + tail), Version, VERS);
    GreetingTaken(Conn(Version, VERS + (AUTH + tail), false, SIGNATURE + VERS, []), VERS, AUTH + tail, Auth, AUTH);
    GreetingTaken(Conn(Auth, AUTH + tail, false, SIGNATURE + VERS + AUTH, []), AUTH, tail, Data, READY);
  }

  /** The peer's own READY command is taken and not delivered. */
  lemma CommandTaken(c: Conn, more: seq<Byte>)
    requires c.phase == Data && c.rest == READY + more
    ensures Drain(c) == Drain(c.(rest := more))
  {
    var l := LookAt(Data, c.rest);
    assert c.rest[0] == 4 && c.rest[1] == 26 && |READY| == 28;
    assert l == Took(28, Data, [], None);
    assert (READY + more)[28..] == more;
    assert c.sent + [] == c.sent;
  }

  /** A whole session: after the greeting and the peer's own READY command, the payloads framed by the
      peer come out, in whatever pieces the bytes arrive, and the connection stays open. */
  lemma Session(payloads: seq<seq<Byte>>, pieces: seq<seq<Byte>>)
    requires forall k :: 0 <= k < |payloads| ==> |payloads[k]| < Pow256(8)
    requires Join(pieces) == SIGNATURE + (VERS + (AUTH + (READY + Frames(payloads))))
    ensures FeedAll(Fresh(), pieces) == Conn(Data, [], false, SIGNATURE + VERS + AUTH + READY, payloads)
  {
    CuttingDoesNotMatter(Fresh(), pieces);
    assert [] + Join(pieces) == Join(pieces);
    Handshake(READY + Frames(payloads));
    var c := Conn(Data, Frames(payloads), false, SIGNATURE + VERS + AUTH + READY, []);
    CommandTaken(c.(rest := READY + Frames(payloads)), Frames(payloads));
    FramesDrain(c, payloads);
    assert [] + payloads == payloads;
  }

  // ---------------------------------------------------------------- the code

  /** The growing buffer of ipc.c; an empty array stands for storage not allocated yet. */
  class IPCBuffer {
    var data: array<Byte>
    var dataLen: nat

    ghost predicate Valid()
      reads this
    {
      dataLen <= data.Length
    }

    ghost function Contents(): seq<Byte>
      requires Valid()
      reads this, data
    {
      data[..dataLen]
    }

    constructor ()
      ensures Valid() && Contents() == [] && fresh(data)
    {
      data := new Byte[0];
      dataLen := 0;
    }

    /** Room for `len` more bytes and one to spare, by doubling. */
    method Reserve(len: nat)
      requires Valid()
      modifies this`data
      ensures Valid() && Contents() == old(Contents()) && dataLen + len < data.Length
      ensures (data == old(data) || fresh(data))
    {
      var allocLen := if data.Length == 0 then 1024 else data.Length;
      while len >= allocLen - dataLen
        invariant allocLen > 0
        decreases dataLen + len + 1 - allocLen
      {
        allocLen := allocLen * 2;
      }
      if allocLen != data.Length {
        var more := new Byte[allocLen](_ => 0);
        for i := 0 to dataLen
          invariant data == old(data) && more[..i] == data[..i]
        {
          more[i] := data[i];
        }
        data := more;
      }
    }

    /** ipc_append_buffer. */
    method Append(bytes: seq<Byte>)
      requires Valid()
      modifies this, data
      ensures Valid() && Contents() == old(Contents()) + bytes && (data == old(data) || fresh(data))
    {
      if |bytes| == 0 {
        return;
      }
      Reserve(|bytes|);
      Fill(bytes);
    }

    method Fill(bytes: seq<Byte>)
      requires Valid() && dataLen + |bytes| <= data.Length
      modifies this`dataLen, data
      ensures Valid() && Contents() == old(Contents()) + bytes
    {
      ghost var before := Contents();
      for i := 0 to |bytes|
        invariant dataLen == old(dataLen) && data[..dataLen + i] == before + bytes[..i]
      {
        data[dataLen + i] := bytes[i];
      }
      dataLen := dataLen + |bytes|;
    }

    /** The end of ipc_process_buffer: the bytes not consumed move to the front. */
    method Discard(consumed: nat)
      requires Valid() && consumed <= dataLen
      modifies this`dataLen, data
      ensures Valid() && Contents() == old(Contents()[consumed..])
    {
      ghost var was := Contents();
      for i := 0 to dataLen - consumed
        invariant dataLen == old(dataLen) && forall j :: 0 <= j < i ==> data[j] == was[j + consumed]
        invariant forall j :: i <= j < dataLen ==> data[j] == was[j]
      {
        data[i] := data[i + consumed];
      }
      dataLen := dataLen - consumed;
    }
  }

  class Client {
    var phase: Phase
    var closeFlag: bool
    const buffer: IPCBuffer
    var sent: seq<Byte>
    var delivered: seq<seq<Byte>>

    ghost predicate Valid()
      reads this, buffer
    {
      buffer.Valid()
    }

    /** The connection with `rest` still to look at. */
    ghost function With(rest: seq<Byte>): Conn
      reads this
    {
      Conn(phase, rest, closeFlag, sent, delivered)
    }

    constructor ()
      ensures Valid() && With(buffer.Contents()) == Fresh() && fresh(buffer) && fresh(buffer.data)
    {
      phase, closeFlag, sent, delivered := Signature, false, SIGNATURE, [];
      buffer := new IPCBuffer();
    }

    /** zmql_client_process: one look at the bytes; the number taken, 0 to stop. */
    method Process(data: seq<Byte>) returns (n: nat)
      requires !closeFlag
      modifies this
      ensures n <= |data|
      ensures match old(LookAt(phase, data))
              case More => n == 0 && With(data) == old(With(data))
              case Bad => n == 0 && With([]) == old(With([])).(closed := true)
              case Took(_, _, _, _) => n > 0 && With(data[n..]) == old(Took1(With(data), LookAt(phase, data)))
    {
      if phase.Signature? {
        n := ProcessGreeting(data, SIGNATURE, Version, VERS);
      } else if phase.Version? {
        n := ProcessGreeting(data, VERS, Auth, AUTH);
      } else if phase.Auth? {
        n := ProcessGreeting(data, AUTH, Data, READY);
      } else {
        n := ProcessFrame(data);
      }
    }

    method ProcessGreeting(data: seq<Byte>, want: seq<Byte>, to: Phase, reply: seq<Byte>) returns (n: nat)
      requires !closeFlag && want != []
      modifies this
      ensures n <= |data|
      ensures match Greeting(want, data, to, reply)
              case More => n == 0 && With(data) == old(With(data))
              case Bad => n == 0 && With([]) == old(With([])).(closed := true)
              case Took(_, _, _, _) =>
                n > 0 && With(data[n..]) == old(Took1(With(data), Greeting(want, data, to, reply)))
    {
      if |data| < |want| {
        return 0;
      }
      if data[..|want|] == want {
        phase := to;
        sent := sent + reply;
        return |want|;
      }
      closeFlag := true;
      return 0;
    }

    method ProcessFrame(data: seq<Byte>) returns (n: nat)
      requires !closeFlag && phase.Data?
      modifies this
      ensures n <= |data|
      ensures match LookAtFrame(data)
              case More => n == 0 && With(data) == old(With(data))
              case Bad => false
              case Took(_, _, _, _) => n > 0 && With(data[n..]) == old(Took1(With(data), LookAtFrame(data)))
    {
      if |data| < 1 {
        return 0;
      }
      var flags := data[0];
      var dataOffset, payloadLen := 0, 0;
      if LongFrame(flags) {
        dataOffset := 9;
        if |data| < dataOffset {
          return 0;
        }
        payloadLen := BigEndian(data[1..9]);
      } else {
        dataOffset := 2;
        if |data| < dataOffset {
          return 0;
        }
        payloadLen := data[1];
      }
      if |data| < dataOffset + payloadLen {
        return 0;
      }
      if !CommandFrame(flags) {
        delivered := delivered + [data[dataOffset..dataOffset + payloadLen]];
      }
      assert sent + [] == sent;
      n := dataOffset + payloadLen;
    }

    /** zmql_client_read_cb with a piece read from the socket: append, process until nothing is taken,
        drop what was consumed; a closed client's buffer is dropped altogether. */
    method ReadCb(piece: seq<Byte>)
      requires Valid() && !closeFlag
      modifies this, buffer, buffer.data
      ensures Valid() && With(buffer.Contents()) == Feed(old(With(buffer.Contents())), piece)
      ensures buffer.data == old(buffer.data) || fresh(buffer.data)
    {
      ghost var start := With(buffer.Contents() + piece);
      buffer.Append(piece);
      var consumed := ProcessAll(start);
      if closeFlag {
        buffer.dataLen := 0;
      } else {
        buffer.Discard(consumed);
      }
    }

    method ProcessAll(ghost start: Conn) returns (consumed: nat)
      requires Valid() && !closeFlag && start == With(buffer.Contents())
      modifies this
      ensures Valid() && consumed <= buffer.dataLen
      ensures Drain(start) == With(if closeFlag then [] else buffer.Contents()[consumed..])
    {
      consumed := 0;
      var len := 1;
      ghost var all := buffer.Contents();
      while len > 0
        invariant consumed <= buffer.dataLen && (closeFlag ==> len == 0)
        invariant !closeFlag ==> Drain(With(all[consumed..])) == Drain(start)
        invariant !closeFlag && len == 0 ==> LookAt(phase, all[consumed..]) == More
        invariant closeFlag ==> With([]) == Drain(start)
        decreases buffer.dataLen - consumed, len
      {
        ghost var rest := all[consumed..];
        len := Process(buffer.data[consumed..buffer.dataLen]);
        consumed := consumed + len;
        assert rest[len..] == all[consumed..];
      }
    }
  }
}
