/** Cursor reads and writes of MQTTPacket.c over a packet buffer, and the frame every packet has. */
module PacketIO {
  import opened Common
  import opened RemainingLength
  import Wire

  const MQTTPACKET_BUFFER_TOO_SHORT: int := -2

  /** Outcome of a deserialiser: a value, an error return with its code, or a read past the end of the packet or the
      buffer, whose result depends on bytes that do not belong to the packet. */
  datatype Parsed<+T> = Ok(value: T) | Bad(rc: int) | Overread {
    predicate IsFailure() {
      !Ok?
    }

    function PropagateFailure<U>(): Parsed<U>
      requires IsFailure()
    {
      if Bad? then Bad(rc) else Overread
    }

    function Extract(): T
      requires !IsFailure()
    {
      value
    }
  }

  // ---- Integers ----

  /** writeInt: two bytes, high one first; larger numbers lose their upper part. */
  function TwoBytes(n: nat): (bs: seq<byte>)
    ensures |bs| == 2
  {
    [n / 256 % 256, n % 256]
  }

  function IntOf(high: byte, low: byte): nat {
    256 * high + low
  }

  lemma TwoBytesRoundTrip(n: nat)
    ensures IntOf(TwoBytes(n)[0], TwoBytes(n)[1]) == n % 65536
  {
    var high, low := n / 256, n % 256;
    assert n == 65536 * (high / 256) + (256 * (high % 256) + low);
  }

  lemma IdInFront(id: nat, rest: seq<byte>)
    requires id < 65536
    ensures var s := TwoBytes(id) + rest;
            IntOf(s[0], s[1]) == id && s[2..] == rest
  {
    TwoBytesRoundTrip(id);
  }

  /** readChar returns `char`, which is signed on the device. */
  function SignedChar(b: byte): int {
    if b < 128 then b else b - 256
  }

  function CharByte(n: int): byte {
    n % 256
  }

  /** A code survives writeChar and readChar exactly when it is in the range of a signed char. */
  lemma CharRoundTrip(n: int)
    ensures SignedChar(CharByte(n)) == n <==> -128 <= n < 128
  {
  }

  // ---- Strings ----

  /** An MQTTString: a C string, a counted string, both or none. */
  datatype MqttString = MqttString(cstring: Option<seq<byte>>, data: Option<seq<byte>>) {
    predicate Counted() {
      data.Some? && data.value != []
    }

    /** MQTTstrlen: the C string wins. */
    function Len(): nat {
      if cstring.Some? then |cstring.value| else if data.Some? then |data.value| else 0
    }

    /** writeMQTTString: the counted string wins. */
    function Written(): seq<byte> {
      if Counted() then TwoBytes(|data.value|) + data.value
      else if cstring.Some? then TwoBytes(|cstring.value|) + cstring.value
      else TwoBytes(0)
    }

    function Present(): bool {
      cstring.Some? || data.Some?
    }

    predicate OneSet() {
      !(cstring.Some? && Counted())
    }

    function Text(): seq<byte> {
      if cstring.Some? then cstring.value else data.GetOr([])
    }
  }

  /** The length function and the writer agree exactly when at most one of the two strings is set, or
      both have the same length. */
  lemma LenAgreesWithWritten(s: MqttString)
    ensures |s.Written()| == s.Len() + 2 <==> s.OneSet() || |s.cstring.value| == |s.data.value|
    ensures s.OneSet() ==> s.Written() == TwoBytes(|s.Text()|) + s.Text()
  {
  }

  /** readMQTTLenString on the bytes up to the end of the packet. */
  function ReadString(s: seq<byte>): Parsed<(seq<byte>, seq<byte>)> {
    if |s| < 2 then Bad(0)
    else
      var n := IntOf(s[0], s[1]);
      if 2 + n <= |s| then Ok((s[2..2 + n], s[2 + n..])) else Bad(0)
  }

  lemma StringRoundTrip(text: seq<byte>, rest: seq<byte>)
    requires |text| < 65536
    ensures ReadString(TwoBytes(|text|) + text + rest) == Ok((text, rest))
  {
    TwoBytesRoundTrip(|text|);
    var s := TwoBytes(|text|) + text + rest;
    assert s[0] == TwoBytes(|text|)[0] && s[1] == TwoBytes(|text|)[1];
    assert s[2..2 + |text|] == text && s[2 + |text|..] == rest;
  }

  lemma IntReadIsWritten(high: byte, low: byte)
    ensures IntOf(high, low) < 65536 && TwoBytes(IntOf(high, low)) == [high, low]
  {
  }

  /** Bytes that are read as a string are that string, written, and what follows it. */
  lemma StringReadIsWritten(s: seq<byte>)
    ensures match ReadString(s)
            case Ok((text, rest)) => |text| < 65536 && s == TwoBytes(|text|) + text + rest
            case _ => |s| < 2 || |s| < 2 + IntOf(s[0], s[1])
  {
    if |s| >= 2 {
      var n := IntOf(s[0], s[1]);
      IntReadIsWritten(s[0], s[1]);
      if 2 + n <= |s| {
        assert s == [s[0], s[1]] + s[2..2 + n] + s[2 + n..];
      }
    }
  }

  /** What a reader gets from a longer string: only as many bytes as the truncated length says. */
  lemma StringTruncates(text: seq<byte>, rest: seq<byte>)
    requires |text| >= 65536
    ensures ReadString(TwoBytes(|text|) + text + rest).Ok?
    ensures ReadString(TwoBytes(|text|) + text + rest).value.0 != text
  {
    TwoBytesRoundTrip(|text|);
    var s := TwoBytes(|text|) + text + rest;
    assert s[0] == TwoBytes(|text|)[0] && s[1] == TwoBytes(|text|)[1];
  }

  // ---- Fixed header and frame ----

  const CONNECT: nat := 1
  const PUBLISH: nat := 3
  const PUBACK: nat := 4
  const PUBREC: nat := 5
  const PUBREL: nat := 6
  const SUBSCRIBE: nat := 8
  const SUBACK: nat := 9
  const UNSUBSCRIBE: nat := 10

  datatype FixedHeader = FixedHeader(packetType: nat, dup: nat, qos: nat, retain: nat) {
    predicate Valid() {
      packetType < 16 && dup < 2 && qos < 4 && retain < 2
    }
  }

  /** The bit fields of the first byte; values too large for their field lose their upper bits. */
  function HeaderByte(h: FixedHeader): byte {
    h.packetType % 16 * 16 + h.dup % 2 * 8 + h.qos % 4 * 2 + h.retain % 2
  }

  function HeaderOf(b: byte): FixedHeader {
    FixedHeader(b / 16, b / 8 % 2, b / 2 % 4, b % 2)
  }

  lemma HeaderAsStandard(h: FixedHeader)
    requires h.Valid()
    ensures HeaderByte(h) == 16 * h.packetType + 8 * h.dup + 2 * h.qos + h.retain
  {
  }

  lemma HeaderRoundTrip(h: FixedHeader)
    ensures HeaderOf(HeaderByte(h)) == h <==> h.Valid()
  {
    HeaderBits(h.packetType % 16, h.dup % 2, h.qos % 4, h.retain % 2);
  }

  lemma HeaderBits(a: nat, b: nat, c: nat, d: nat)
    requires a < 16 && b < 2 && c < 4 && d < 2
    ensures HeaderOf(a * 16 + b * 8 + c * 2 + d) == FixedHeader(a, b, c, d)
  {
    var n := a * 16 + b * 8 + c * 2 + d;
    assert n / 16 == a && n / 8 == a * 2 + b && n / 2 == a * 8 + b * 4 + c;
  }

  /** A packet on the wire. */
  function Packet(header: byte, body: seq<byte>): seq<byte> {
    [header] + EncodeLen(|body|) + body
  }

  lemma PacketAsStandard(header: byte, body: seq<byte>)
    requires |body| < LENGTH_LIMIT
    ensures Packet(header, body) == Wire.Framed(header, body)
  {
    EncodedAsStandard(|body|);
  }

  lemma TwoBytesAsStandard(n: nat)
    requires n < 65536
    ensures TwoBytes(n) == Wire.Int16(n)
  {
  }

  /** The remaining-length field as the deserialisers use it: MQTTPacket_decodeBuf's return value, which they
      keep as their own until they succeed, and the body between it and the end pointer made from it.
      A fifth length byte is counted, but not read, when the field is too long. */
  function Unframed(s: seq<byte>): Parsed<(nat, seq<byte>)> {
    if s == [] then Overread
    else
      var f := DecodeLen(s[1..], MAX_NO_OF_REMAINING_LENGTH_BYTES);
      var rc := f.count + if f.ending == TooLong then 1 else 0;
      if f.ending == Truncated || 1 + rc + f.value > |s| then Overread else Ok((rc, s[1 + rc..1 + rc + f.value]))
  }

  /** The return value of the length field is never that of success, 0, and it is 1 for a field of one byte. */
  lemma FieldSize(s: seq<byte>)
    requires Unframed(s).Ok?
    ensures |s| > 1 && 1 <= Unframed(s).value.0 <= 5 && (Unframed(s).value.0 == 1 <==> s[1] < 128)
  {
    var f := DecodeLen(s[1..], MAX_NO_OF_REMAINING_LENGTH_BYTES);
    if |s| > 1 && s[1] >= 128 {
      var g := DecodeLen(s[1..][1..], MAX_NO_OF_REMAINING_LENGTH_BYTES - 1);
      assert f.count == g.count + 1 && f.ending == g.ending;
    }
  }

  /** A packet that MQTTPacket_len lets through has room in the buffer. */
  lemma PacketFits(remLen: nat, buflen: nat)
    requires remLen < LENGTH_LIMIT && PacketLen(remLen) <= buflen
    ensures 1 + |EncodeLen(remLen)| + remLen <= buflen
  {
    PacketLenExact(remLen);
  }

  lemma FieldOnly(remLen: nat, rest: seq<byte>)
    requires remLen < LENGTH_LIMIT
    ensures DecodeLen(EncodeLen(remLen) + rest, MAX_NO_OF_REMAINING_LENGTH_BYTES) == Field(Complete, |EncodeLen(remLen)|, remLen)
  {
    Pow128Values();
    DecodeEncoded(remLen, rest, MAX_NO_OF_REMAINING_LENGTH_BYTES);
  }

  lemma PacketCut(header: byte, n: seq<byte>, body: seq<byte>, rest: seq<byte>)
    ensures var s := [header] + n + body + rest;
            s[0] == header && s[1..] == n + (body + rest) && s[1..][|n|..] == body + rest
  {
    assert ([header] + n + body + rest)[1..] == n + (body + rest);
    assert (n + (body + rest))[|n|..] == body + rest;
  }

  lemma LengthInFront(header: byte, body: seq<byte>, rest: seq<byte>)
    requires |body| < LENGTH_LIMIT
    ensures var s := Packet(header, body) + rest;
            && s[0] == header && s[1..][|EncodeLen(|body|)|..] == body + rest
            && DecodeLen(s[1..], MAX_NO_OF_REMAINING_LENGTH_BYTES) == Field(Complete, |EncodeLen(|body|)|, |body|)
  {
    var n := EncodeLen(|body|);
    FieldOnly(|body|, body + rest);
    PacketCut(header, n, body, rest);
  }

  lemma UnframedPacket(header: byte, body: seq<byte>, rest: seq<byte>)
    requires |body| < LENGTH_LIMIT
    ensures Unframed(Packet(header, body) + rest) == Ok((|EncodeLen(|body|)|, body))
  {
    LengthInFront(header, body, rest);
    var front := [header] + EncodeLen(|body|);
    InTheMiddle(front, body, rest);
  }

  lemma InTheMiddle(front: seq<byte>, body: seq<byte>, rest: seq<byte>)
    ensures (front + body + rest)[|front|..|front| + |body|] == body
  {
  }

  // ---- The same, on a buffer with a cursor ----

  method WriteChar(buf: array<byte>, p: nat, c: byte) returns (q: nat)
    requires p < buf.Length
    modifies buf
    ensures q == p + 1 && buf[..] == Splice(old(buf[..]), p, [c])
  {
    buf[p] := c;
    q := p + 1;
  }

  method WriteInt(buf: array<byte>, p: nat, anInt: nat) returns (q: nat)
    requires p + 2 <= buf.Length
    modifies buf
    ensures q == p + 2 && buf[..] == Splice(old(buf[..]), p, TwoBytes(anInt))
  {
    buf[p] := anInt / 256 % 256;
    buf[p + 1] := anInt % 256;
    q := p + 2;
  }

  /** memcpy into the buffer. */
  method CopyBytes(buf: array<byte>, p: nat, bs: seq<byte>) returns (q: nat)
    requires p + |bs| <= buf.Length
    modifies buf
    ensures q == p + |bs| && buf[..] == Splice(old(buf[..]), p, bs)
  {
    forall i | 0 <= i < |bs| {
      buf[p + i] := bs[i];
    }
    q := p + |bs|;
  }

  method WriteMqttString(buf: array<byte>, p: nat, s: MqttString) returns (q: nat)
    requires p + |s.Written()| <= buf.Length
    modifies buf
    ensures q == p + |s.Written()| && buf[..] == Splice(old(buf[..]), p, s.Written())
  {
    var text := if s.Counted() then s.data.value else if s.cstring.Some? then s.cstring.value else [];
    q := WriteInt(buf, p, |text|);
    SpliceSplice(old(buf[..]), p, TwoBytes(|text|), text);
    q := CopyBytes(buf, q, text);
    assert s.Written() == TwoBytes(|text|) + text;
  }

  /** Header byte and remaining length, which every serialiser writes first. */
  method WriteFrame(buf: array<byte>, header: byte, remLen: nat) returns (q: nat)
    requires 1 + |EncodeLen(remLen)| <= buf.Length
    modifies buf
    ensures q == 1 + |EncodeLen(remLen)| && buf[..] == Splice(old(buf[..]), 0, [header] + EncodeLen(remLen))
  {
    q := WriteChar(buf, 0, header);
    SpliceSplice(old(buf[..]), 0, [header], EncodeLen(remLen));
    var n := Encode(buf, q, remLen);
    q := q + n;
  }

  /** MQTTPacket_decodeBuf's return value, and where the packet's body begins and ends in the buffer. */
  method ReadFrame(buf: array<byte>) returns (r: Parsed<(nat, nat, nat)>)
    ensures r.Ok? ==> r.value.1 == 1 + r.value.0 <= r.value.2 <= buf.Length
    ensures r.Ok? ==> Unframed(buf[..]) == Ok((r.value.0, buf[r.value.1..r.value.2]))
    ensures !r.Ok? ==> r == Overread && Unframed(buf[..]) == Overread
  {
    if buf.Length == 0 {
      return Overread;
    }
    assert buf[..][1..] == buf[1..];
    var f := DecodeBuf(buf, 1);
    var rc := f.count + if f.ending == TooLong then 1 else 0;
    var start := 1 + rc;
    if f.ending == Truncated || start + f.value > buf.Length {
      return Overread;
    }
    r := Ok((rc, start, start + f.value));
    assert buf[..][start..start + f.value] == buf[start..start + f.value];
  }

  lemma Subslice(s: seq<byte>, from: nat, to: nat, a: nat, b: nat)
    requires from <= to <= |s| && a <= b <= to - from
    ensures s[from..to][a..b] == s[from + a..from + b] && s[from..to][b..] == s[from + b..to]
  {
    var t := s[from..to];
    assert forall i | 0 <= i < b - a :: t[a..b][i] == s[from + a..from + b][i];
    assert forall i | 0 <= i < to - from - b :: t[b..][i] == s[from + b..to][i];
  }

  method ReadLenString(buf: array<byte>, p: nat, end: nat) returns (r: Parsed<(seq<byte>, nat)>)
    requires p <= end <= buf.Length
    ensures r.Ok? <==> end - p >= 2 && p + 2 + IntOf(buf[p], buf[p + 1]) <= end
    ensures r.Ok? ==> p + 2 <= r.value.1 <= end
    ensures r.Ok? ==> ReadString(buf[p..end]) == Ok((r.value.0, buf[r.value.1..end]))
    ensures !r.Ok? ==> r == Bad(0) && ReadString(buf[p..end]) == Bad(0)
  {
    ghost var s := buf[p..end];
    if end - p > 1 {
      assert s[0] == buf[p] && s[1] == buf[p + 1];
      var len := IntOf(buf[p], buf[p + 1]);
      var q := p + 2;
      if q + len <= end {
        Subslice(buf[..], p, end, 2, 2 + len);
        assert ReadString(s) == Ok((s[2..2 + len], s[2 + len..]));
        r := Ok((buf[q..q + len], q + len));
        return;
      }
      assert ReadString(s) == Bad(0);
    }
    r := Bad(0);
  }
}
