/** readPacket of instamsg.c: the packets the driver reads from its socket. */
module PacketReader {
  import opened ByteSources
  import opened Common
  import opened PacketIO
  import opened RemainingLength
  import StreamReaders

  const READBUF: nat := 4000

  /** What the driver gets: a packet and the image of the read buffer, or why there is none. HalfRead is the socket
      failing after the header byte. Undefined is a length field of more than four bytes, which overflows the multiplier,
      or a body of which more bytes arrive than the buffer has room for. */
  datatype Reading = Got(header: FixedHeader, image: seq<byte>) | TimedOut | Failed | HalfRead | Undefined

  datatype ReturnCode = Code(status: Status) | SOCKET_READ_TIMEOUT

  /** The return code. After the header byte it stays the SUCCESS of reading that byte, whatever happens. */
  function CodeOf(r: Reading): Option<ReturnCode> {
    match r
    case Got(_, _) => Some(Code(SUCCESS))
    case HalfRead => Some(Code(SUCCESS))
    case TimedOut => Some(SOCKET_READ_TIMEOUT)
    case Failed => Some(Code(FAILURE))
    case Undefined => None
  }

  /** The bytes are the beginning of a packet and end before it does: in the length field or in the body. */
  predicate CutShort(s: seq<byte>) {
    s != [] && (LengthUnfinished(s[1..]) || BodyUnfinished(s))
  }

  predicate LengthUnfinished(bs: seq<byte>) {
    |bs| <= MAX_NO_OF_REMAINING_LENGTH_BYTES && forall b :: b in bs ==> b >= 128
  }

  predicate BodyUnfinished(s: seq<byte>)
    requires s != []
  {
    var f := LengthField(s);
    f.ending == Complete && |AfterLength(s)| < f.value && 1 + |EncodeLen(f.value)| + |AfterLength(s)| <= READBUF
  }

  /** SUCCESS means a packet exactly when the bytes do not end inside one. */
  lemma SuccessIsPacket(s: seq<byte>)
    requires s != []
    ensures CodeOf(PacketAt(s)) == Some(Code(SUCCESS)) <==> PacketAt(s).Got? || CutShort(s)
    ensures !(PacketAt(s).Got? && CutShort(s))
  {
    UnfinishedLength(s[1..], MAX_NO_OF_REMAINING_LENGTH_BYTES);
  }

  lemma {:induction false} UnfinishedLength(s: seq<byte>, max: nat)
    ensures var f := DecodeLen(s, max);
            f.ending == Truncated || (f.ending == TooLong && s[f.count..] == [])
            <==> |s| <= max && forall b :: b in s ==> b >= 128
    decreases |s|
  {
    if s != [] && max != 0 && s[0] >= 128 {
      UnfinishedLength(s[1..], max - 1);
      var f := DecodeLen(s[1..], max - 1);
      assert s[1..][f.count..] == s[f.count + 1..];
      assert forall b :: b in s <==> b == s[0] || b in s[1..];
    } else if s != [] && max != 0 {
      assert s[0] in s;
    }
  }

  function Zeros(n: nat): (s: seq<byte>)
    ensures |s| == n
  {
    seq(n, _ => 0)
  }

  /** The read buffer after a packet was read into it. */
  function Image(header: byte, body: seq<byte>): (image: seq<byte>)
    requires |Packet(header, body)| <= READBUF
    ensures |image| == READBUF && image[..|Packet(header, body)|] == Packet(header, body)
  {
    Splice(Zeros(READBUF), 0, Packet(header, body))
  }

  function LengthField(s: seq<byte>): (f: Field)
    requires s != []
    ensures f.count < |s|
  {
    DecodeLen(s[1..], MAX_NO_OF_REMAINING_LENGTH_BYTES)
  }

  /** The bytes after header and length field. */
  function AfterLength(s: seq<byte>): seq<byte>
    requires s != []
  {
    s[1..][LengthField(s).count..]
  }

  /** The packet at the front of a non-empty stream. */
  function PacketAt(s: seq<byte>): (r: Reading)
    requires s != []
    ensures r.Got? ==> LengthField(s).value <= |AfterLength(s)|
  {
    var f, rest := LengthField(s), AfterLength(s);
    if f.ending == Truncated || (f.ending == TooLong && rest == []) then HalfRead
    else if f.ending == TooLong then Undefined
    else BodyAt(s[0], f.value, rest)
  }

  function BodyAt(header: byte, remLen: nat, rest: seq<byte>): (r: Reading)
    ensures r.Got? ==> remLen <= |rest|
  {
    var arrived := if |rest| < remLen then |rest| else remLen;
    if 1 + |EncodeLen(remLen)| + arrived > READBUF then Undefined
    else if |rest| < remLen then HalfRead
    else Got(HeaderOf(header), Image(header, rest[..remLen]))
  }

  function RestAt(s: seq<byte>): (rest: seq<byte>)
    requires s != [] && PacketAt(s).Got?
    ensures |rest| < |s|
  {
    AfterLength(s)[LengthField(s).value..]
  }

  /** A packet announced longer than the buffer is not too long for it as long as only its beginning arrives. */
  lemma OversizedPacketBreaksOff()
    ensures var s: seq<byte> := [0x30, 0x88, 0x27, 1, 2];
            PacketAt(s) == HalfRead && CodeOf(PacketAt(s)) == Some(Code(SUCCESS)) && CutShort(s)
  {
    var s: seq<byte> := [0x30, 0x88, 0x27, 1, 2];
    var t := s[1..];
    assert t[0] == 0x88 && t[1..][0] == 0x27;
    assert DecodeLen(t[1..], 3) == Field(Complete, 1, 0x27);
    assert LengthField(s) == Field(Complete, 2, 5000) && AfterLength(s) == [1, 2];
    EncodedSize(5000);
  }

  /** A serialised packet is read exactly when it fits the buffer, and nothing after it is consumed. */
  lemma PacketIsRead(header: byte, body: seq<byte>, rest: seq<byte>)
    requires |body| < LENGTH_LIMIT
    ensures var s := Packet(header, body) + rest;
            if |Packet(header, body)| <= READBUF then PacketAt(s) == Got(HeaderOf(header), Image(header, body)) && RestAt(s) == rest
            else PacketAt(s) == Undefined
  {
    LengthInFront(header, body, rest);
    assert (body + rest)[..|body|] == body && (body + rest)[|body|..] == rest;
  }

  /** Reading packets until there is no other. */
  function Frames(s: seq<byte>): seq<Reading>
    decreases |s|
  {
    if s == [] then [] else if PacketAt(s).Got? then [PacketAt(s)] + Frames(RestAt(s)) else []
  }

  /** What is left when there is no other packet. */
  function Leftover(s: seq<byte>): seq<byte>
    decreases |s|
  {
    if s != [] && PacketAt(s).Got? then Leftover(RestAt(s)) else s
  }

  datatype Sent = Sent(header: byte, body: seq<byte>)

  function Stream(packets: seq<Sent>): seq<byte> {
    if packets == [] then [] else Packet(packets[0].header, packets[0].body) + Stream(packets[1..])
  }

  predicate AllFit(packets: seq<Sent>) {
    packets != [] ==> |packets[0].body| < LENGTH_LIMIT && |Packet(packets[0].header, packets[0].body)| <= READBUF && AllFit(packets[1..])
  }

  function Received(packets: seq<Sent>): seq<Reading>
    requires AllFit(packets)
  {
    if packets == [] then []
    else [Got(HeaderOf(packets[0].header), Image(packets[0].header, packets[0].body))] + Received(packets[1..])
  }

  lemma FramesStep(s: seq<byte>)
    requires s != [] && PacketAt(s).Got?
    ensures Frames(s) == [PacketAt(s)] + Frames(RestAt(s))
  {
  }

  lemma FrameInFront(header: byte, body: seq<byte>, rest: seq<byte>)
    requires |body| < LENGTH_LIMIT && |Packet(header, body)| <= READBUF
    ensures Frames(Packet(header, body) + rest) == [Got(HeaderOf(header), Image(header, body))] + Frames(rest)
  {
    PacketIsRead(header, body, rest);
    FramesStep(Packet(header, body) + rest);
  }

  /** Framing: the packets written to the stream, one after the other, are the packets read from it, and what follows
      them is read as if they had not been there. */
  lemma {:induction false} Framing(packets: seq<Sent>, tail: seq<byte>)
    requires AllFit(packets)
    ensures Frames(Stream(packets) + tail) == Received(packets) + Frames(tail)
    decreases |packets|
  {
    if packets == [] {
      assert Stream(packets) + tail == tail;
    } else {
      StreamCut(packets, tail);
      FrameInFront(packets[0].header, packets[0].body, Stream(packets[1..]) + tail);
      Framing(packets[1..], tail);
    }
  }

  /** Whole packets leave nothing behind, so a stream ends inside a packet exactly when what follows them does. */
  lemma {:induction false} FramingLeavesTail(packets: seq<Sent>, tail: seq<byte>)
    requires AllFit(packets)
    ensures Leftover(Stream(packets) + tail) == Leftover(tail)
    decreases |packets|
  {
    if packets == [] {
      assert Stream(packets) + tail == tail;
    } else {
      StreamCut(packets, tail);
      var header, body, rest := packets[0].header, packets[0].body, Stream(packets[1..]) + tail;
      PacketIsRead(header, body, rest);
      LeftoverStep(Packet(header, body) + rest);
      FramingLeavesTail(packets[1..], tail);
    }
  }

  lemma LeftoverStep(s: seq<byte>)
    requires s != [] && PacketAt(s).Got?
    ensures Leftover(s) == Leftover(RestAt(s))
  {
  }

  lemma StreamCut(packets: seq<Sent>, tail: seq<byte>)
    requires packets != []
    ensures Stream(packets) + tail == Packet(packets[0].header, packets[0].body) + (Stream(packets[1..]) + tail)
  {
    var first, more := Packet(packets[0].header, packets[0].body), Stream(packets[1..]);
    assert first + more + tail == first + (more + tail);
  }

  lemma PieceTaken(bs: seq<byte>, polls: seq<Poll>, count: nat)
    requires polls != [] && polls[0].Bytes? && count <= |polls[0].bs|
    ensures bs + Heard(polls) == (bs + polls[0].bs[..count]) + Heard(After(polls, count))
  {
    AfterHeard(polls, count);
    var piece, more := polls[0].bs[..count], Heard(After(polls, count));
    assert bs + (piece + more) == (bs + piece) + more;
  }

  lemma Prefix(a: seq<byte>, b: seq<byte>)
    ensures (a + b)[..|a|] == a && (a + b)[|a|..] == b
  {
  }

  datatype Filled = Whole | Short | Overrun

  datatype SocketResult = Read | SocketTimeout | SocketError

  class Connection {
    var polls: seq<Poll>
    var socketCorrupted: bool
    const readbuf: array<byte>

    constructor (polls: seq<Poll>)
      ensures this.polls == polls && !socketCorrupted && readbuf.Length == READBUF && fresh(readbuf)
    {
      this.polls := polls;
      socketCorrupted := false;
      readbuf := new byte[READBUF](_ => 0);
    }

    /** The socket's read for one byte without waiting. */
    method ReadByteIfAny() returns (rc: SocketResult, b: byte)
      modifies `polls
      ensures rc == SocketError <==> old(polls) == [] || old(polls)[0].Broken?
      ensures rc == SocketError ==> polls == old(polls)
      ensures rc == SocketTimeout <==> old(polls) != [] && old(polls)[0] == Bytes([])
      ensures rc == SocketTimeout ==> polls == old(polls)[1..]
      ensures rc == Read ==> b == old(polls)[0].bs[0] && polls == After(old(polls), 1)
    {
      b := 0;
      if polls == [] || polls[0].Broken? {
        return SocketError, b;
      }
      if polls[0].bs == [] {
        polls := polls[1..];
        return SocketTimeout, b;
      }
      rc, b := Read, polls[0].bs[0];
      polls := After(polls, 1);
    }

    /** The socket's read that retries until all bytes are there or it fails. */
    method ReadAll(n: nat) returns (ok: bool, bs: seq<byte>)
      modifies `polls
      ensures ok <==> n <= |Heard(old(polls))|
      ensures ok ==> bs == Heard(old(polls))[..n] && Heard(polls) == Heard(old(polls))[n..]
      ensures !ok ==> bs == Heard(old(polls))
      ensures Size(polls) <= Size(old(polls))
    {
      bs := [];
      ghost var s := Heard(polls);
      while |bs| < n && polls != [] && polls[0].Bytes?
        invariant |bs| <= n && bs + Heard(polls) == s && Size(polls) <= Size(old(polls))
        decreases |polls|, n - |bs|
      {
        var missing, front := n - |bs|, polls[0].bs;
        var count := if missing < |front| then missing else |front|;
        AfterSmaller(polls, count);
        PieceTaken(bs, polls, count);
        bs := bs + front[..count];
        polls := After(polls, count);
      }
      assert |bs| < n ==> Heard(polls) == [];
      Prefix(bs, Heard(polls));
      ok := |bs| == n;
    }

    /** The length field: its value, or how it goes wrong. A fifth byte is too long. */
    method ReadLength() returns (f: Field)
      modifies `polls
      ensures var s := Heard(old(polls));
              var g := DecodeLen(s, MAX_NO_OF_REMAINING_LENGTH_BYTES);
              && f.ending == (if g.ending == TooLong && s[g.count..] == [] then Truncated else g.ending)
              && (f.ending == Complete ==> f == g && Heard(polls) == s[g.count..])
      ensures Size(polls) <= Size(old(polls))
    {
      var multiplier: nat, count: nat, value: nat := 1, 0, 0;
      ghost var s := Heard(polls);
      ghost var whole := DecodeLen(s, MAX_NO_OF_REMAINING_LENGTH_BYTES);
      ResumedEnds(whole, 0, 1, 0);
      while true
        invariant count <= MAX_NO_OF_REMAINING_LENGTH_BYTES && count <= |s| && Heard(polls) == s[count..]
        invariant whole == Resumed(count, multiplier, value, DecodeLen(s[count..], MAX_NO_OF_REMAINING_LENGTH_BYTES - count))
        invariant Size(polls) <= Size(old(polls))
        decreases MAX_NO_OF_REMAINING_LENGTH_BYTES - count
      {
        ResumedEnds(whole, count, multiplier, value);
        var ok, bs := ReadAll(1);
        if !ok {
          return Field(Truncated, count, value);
        }
        if count == MAX_NO_OF_REMAINING_LENGTH_BYTES {
          return Field(TooLong, count, value);
        }
        ResumedStep(s[count..], count, multiplier, value, MAX_NO_OF_REMAINING_LENGTH_BYTES - count);
        assert s[count..][1..] == s[count + 1..] && bs[0] == s[count];
        count := count + 1;
        value := Accumulate(value, bs[0], multiplier);
        multiplier := multiplier * 128;
        if bs[0] < 128 {
          return Field(Complete, count, value);
        }
      }
    }

    /** The length goes back into the buffer, and the body after it. */
    method ReadBody(header: byte, remLen: nat) returns (r: Reading)
      requires readbuf.Length == READBUF && readbuf[..] == Zeros(READBUF)[0 := header] && !socketCorrupted && remLen < LENGTH_LIMIT
      modifies this, readbuf
      ensures r == BodyAt(header, remLen, Heard(old(polls)))
      ensures r.Got? ==> readbuf[..] == r.image && Heard(polls) == Heard(old(polls))[remLen..]
      ensures r != Undefined ==> socketCorrupted == (r == HalfRead)
      ensures Size(polls) <= Size(old(polls))
    {
      EncodedSize(remLen);
      var len := Encode(readbuf, 1, remLen);
      len := 1 + len;
      var filled := FillBody(len, remLen);
      if filled == Overrun {
        return Undefined;
      }
      if filled == Short {
        socketCorrupted := true;
        return HalfRead;
      }
      StreamReaders.PacketWritten(Zeros(READBUF), header, Heard(old(polls))[..remLen]);
      r := Got(HeaderOf(readbuf[0]), readbuf[..]);
    }

    /** The body, for which a read is made unless it is empty. Its bytes go into the buffer as they arrive. */
    method FillBody(len: nat, remLen: nat) returns (filled: Filled)
      requires len <= readbuf.Length == READBUF
      modifies `polls, readbuf
      ensures var rest := Heard(old(polls));
              && (filled == Overrun <==> len + (if |rest| < remLen then |rest| else remLen) > READBUF)
              && (filled == Whole ==> |rest| >= remLen) && (filled == Short ==> |rest| < remLen)
      ensures filled == Whole ==> readbuf[..] == Splice(old(readbuf[..]), len, Heard(old(polls))[..remLen])
      ensures filled == Whole ==> Heard(polls) == Heard(old(polls))[remLen..]
      ensures Size(polls) <= Size(old(polls))
    {
      if remLen == 0 {
        assert Splice(readbuf[..], len, []) == readbuf[..];
        return Whole;
      }
      var ok, bs := ReadAll(remLen);
      if len + |bs| > READBUF {
        return Overrun;
      }
      var end := CopyBytes(readbuf, len, bs);
      filled := if ok then Whole else Short;
    }

    /** The rest of readPacket, when the header byte has been read. */
    method ReadFromLength(header: byte) returns (r: Reading)
      requires readbuf.Length == READBUF && readbuf[..] == Zeros(READBUF) && !socketCorrupted
      modifies this, readbuf
      ensures r == PacketAt([header] + Heard(old(polls)))
      ensures r.Got? ==> readbuf[..] == r.image && Heard(polls) == RestAt([header] + Heard(old(polls)))
      ensures r != Undefined ==> socketCorrupted == (r == HalfRead)
      ensures Size(polls) <= Size(old(polls))
    {
      ghost var s := [header] + Heard(polls);
      assert s[1..] == Heard(polls);
      readbuf[0] := header;
      assert readbuf[..] == Zeros(READBUF)[0 := header];
      var f := ReadLength();
      if f.ending == TooLong {
        return Undefined;
      }
      if f.ending == Truncated {
        socketCorrupted := true;
        return HalfRead;
      }
      assert f == LengthField(s) && Heard(polls) == AfterLength(s);
      StreamReaders.ValueBound(s[1..], MAX_NO_OF_REMAINING_LENGTH_BYTES);
      r := ReadBody(header, f.value);
    }

    /** readPacket, with one try for the header byte: how the bytes are cut into pieces decides nothing but whether a
        packet is waited for. */
    method ReadPacket() returns (r: Reading, rc: Option<ReturnCode>)
      requires readbuf.Length == READBUF
      modifies this, readbuf
      ensures r == Expected(old(socketCorrupted), old(polls)) && rc == CodeOf(r)
      ensures rc == Some(SOCKET_READ_TIMEOUT) <==> !old(socketCorrupted) && old(polls) != [] && old(polls)[0] == Bytes([])
      ensures rc == Some(Code(FAILURE)) <==> old(socketCorrupted) || old(polls) == [] || old(polls)[0].Broken?
      ensures r.Got? ==> readbuf[..] == r.image && Heard(polls) == RestAt(Heard(old(polls))) && Size(polls) < Size(old(polls))
      ensures r == TimedOut ==> polls == old(polls)[1..] && readbuf[..] == Zeros(READBUF)
      ensures r != Undefined ==> socketCorrupted == (r in {Failed, HalfRead})
    {
      if socketCorrupted {
        return Failed, Some(Code(FAILURE));
      }
      forall i | 0 <= i < READBUF {
        readbuf[i] := 0;
      }
      assert readbuf[..] == Zeros(READBUF);
      var got, header := ReadByteIfAny();
      if got == SocketError {
        socketCorrupted := true;
        return Failed, Some(Code(FAILURE));
      }
      if got == SocketTimeout {
        return TimedOut, Some(SOCKET_READ_TIMEOUT);
      }
      AfterHeard(old(polls), 1);
      AfterSmaller(old(polls), 1);
      assert Heard(old(polls)) == [header] + Heard(polls);
      r := ReadFromLength(header);
      rc := if r == Undefined then None else Some(Code(SUCCESS));
    }
  }

  function Expected(socketCorrupted: bool, polls: seq<Poll>): Reading {
    if socketCorrupted || polls == [] || polls[0].Broken? then Failed
    else if polls[0].bs == [] then TimedOut
    else PacketAt(Heard(polls))
  }

  /** Where there is no packet to read, the code tells whether the bytes end inside one. */
  lemma StreamStops(s: seq<byte>)
    ensures s == [] || !PacketAt(s).Got? ==> Frames(s) == [] && Leftover(s) == s
    ensures s != [] ==> (CodeOf(PacketAt(s)) == Some(Code(SUCCESS)) <==> PacketAt(s).Got? || CutShort(s))
  {
    if s != [] {
      SuccessIsPacket(s);
    }
  }

  /** The packets of all rounds of the driver's loop, until the connection ends or fails.  `blind` tells that the loop
      was entered on a SUCCESS without a packet, so that its switch goes by a header that was never filled in: exactly
      when the bytes end inside a packet. */
  method ReadStream(connection: Connection) returns (packets: seq<Reading>, blind: bool)
    requires connection.readbuf.Length == READBUF && !connection.socketCorrupted
    modifies connection, connection.readbuf
    ensures packets == Frames(Heard(old(connection.polls)))
    ensures blind <==> CutShort(Leftover(Heard(old(connection.polls))))
  {
    packets, blind := [], false;
    ghost var was := Heard(connection.polls);
    while true
      invariant !connection.socketCorrupted && packets + Frames(Heard(connection.polls)) == Frames(was)
      invariant !blind && Leftover(Heard(connection.polls)) == Leftover(was)
      decreases Size(connection.polls)
    {
      ghost var s := Heard(connection.polls);
      var r, rc := connection.ReadPacket();
      if r.Got? {
        FramesStep(s);
        LeftoverStep(s);
        assert packets + ([r] + Frames(Heard(connection.polls))) == packets + [r] + Frames(Heard(connection.polls));
        packets := packets + [r];
      } else if r == TimedOut {
        assert s == Heard(connection.polls);
      } else {
        StreamStops(s);
        blind := rc == Some(Code(SUCCESS));
        return;
      }
    }
  }
}
