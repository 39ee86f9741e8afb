/** PUBLISH and the acknowledgement packets (sections 3.3 to 3.7 of MQTT 3.1.1). */
module PublishCodec {
  import opened Common
  import opened RemainingLength
  import opened PacketIO
  import Wire

  /** MQTTSerialize_publishLength */
  function PublishLength(qos: nat, topicLen: nat, payloadLen: nat): nat {
    2 + topicLen + payloadLen + if qos > 0 then 2 else 0
  }

  datatype Publish = Publish(dup: nat, qos: nat, retain: nat, packetId: nat, topic: seq<byte>, payload: seq<byte>) {
    function Header(): FixedHeader {
      FixedHeader(PUBLISH, dup, qos, retain)
    }

    function Body(): seq<byte> {
      TwoBytes(|topic|) + topic + AfterTopic()
    }

    function AfterTopic(): seq<byte> {
      IdBytes() + payload
    }

    function IdBytes(): seq<byte> {
      if qos > 0 then TwoBytes(packetId) else []
    }

    function Bytes(): seq<byte> {
      Packet(HeaderByte(Header()), Body())
    }
  }

  /** What a receiver learns; the packet id is there only above QoS 0. */
  datatype Received = Received(header: FixedHeader, packetId: Option<nat>, topic: seq<byte>, payload: seq<byte>)

  function ParseBody(header: FixedHeader, rc: int, body: seq<byte>): Parsed<Received> {
    match ReadString(body)
    case Ok((topic, rest)) =>
      if header.qos == 0 then Ok(Received(header, None, topic, rest))
      else if |rest| < 2 then Overread
      else Ok(Received(header, Some(IntOf(rest[0], rest[1])), topic, rest[2..]))
    case _ => Bad(rc)
  }

  function Parse(s: seq<byte>): Parsed<Received> {
    if s == [] then Overread
    else if HeaderOf(s[0]).packetType != PUBLISH then Bad(-1)
    else
      var (rc, body) :- Unframed(s);
      ParseBody(HeaderOf(s[0]), rc, body)
  }

  /** What the receiver of a publish should learn. */
  function Sent(m: Publish): Received {
    Received(m.Header(), if m.qos > 0 then Some(m.packetId) else None, m.topic, m.payload)
  }

  lemma BodyRoundTrip(m: Publish, rc: int)
    requires m.packetId < 65536
    ensures ParseBody(m.Header(), rc, m.Body()) == Ok(Sent(m)) <==> |m.topic| < 65536
  {
    var tail := m.AfterTopic();
    if |m.topic| < 65536 {
      StringRoundTrip(m.topic, tail);
      TwoBytesRoundTrip(m.packetId);
      assert m.qos > 0 ==> tail[2..] == m.payload;
      assert m.qos == 0 ==> tail == m.payload;
    } else {
      StringTruncates(m.topic, tail);
    }
  }

  /** Every PUBLISH whose flags fit their bit fields and whose id has 16 bits comes back whole, whatever
      bytes follow it, exactly if its topic is short enough for the two length bytes. */
  lemma PublishRoundTrip(m: Publish, rest: seq<byte>)
    requires m.Header().Valid() && m.packetId < 65536 && |m.Body()| < LENGTH_LIMIT
    ensures Parse(m.Bytes() + rest) == Ok(Sent(m)) <==> |m.topic| < 65536
  {
    HeaderRoundTrip(m.Header());
    UnframedPacket(HeaderByte(m.Header()), m.Body(), rest);
    BodyRoundTrip(m, |EncodeLen(|m.Body()|)|);
  }

  /** What is accepted is a PUBLISH body, and the fields are the ones it was written with. */
  lemma BodyReadIsWritten(header: FixedHeader, rc: int, body: seq<byte>)
    requires ParseBody(header, rc, body).Ok?
    ensures var r := ParseBody(header, rc, body).value;
            && r.header == header && |r.topic| < 65536
            && (r.packetId.Some? <==> header.qos > 0) && r.packetId.GetOr(0) < 65536
            && body == Publish(header.dup, header.qos, header.retain, r.packetId.GetOr(0), r.topic, r.payload).Body()
  {
    StringReadIsWritten(body);
    var (topic, rest) := ReadString(body).value;
    if header.qos > 0 {
      IntReadIsWritten(rest[0], rest[1]);
      assert rest == [rest[0], rest[1]] + rest[2..];
    } else {
      assert rest == [] + rest;
    }
  }

  /** An error never has the code of success, which is 0: it is -1 for a packet of another type, and the size of the length
      field for a topic that does not end inside the packet. */
  lemma ErrorsAreSeen(s: seq<byte>)
    requires Parse(s).Bad?
    ensures if s[0] / 16 != 3 then Parse(s) == Bad(-1)
            else Unframed(s).Ok? && 1 <= Parse(s).rc <= 5 && Parse(s) == Bad(Unframed(s).value.0) && ReadString(Unframed(s).value.1).Bad?
    ensures s[0] / 16 == 3 ==> (Parse(s).rc == 1 <==> s[1] < 128)
  {
    if s[0] / 16 == 3 {
      FieldSize(s);
    }
  }

  /** A PUBLISH is the packet that section 3.3 draws. */
  lemma PublishAsStandard(m: Publish)
    requires m.Header().Valid() && m.packetId < 65536 && |m.topic| < 65536 && |m.Body()| < LENGTH_LIMIT
    ensures m.Body() == Wire.PublishBody(m.qos, m.packetId, m.topic, m.payload)
    ensures m.Bytes() == Wire.Publish(m.dup, m.qos, m.retain, m.packetId, m.topic, m.payload)
  {
    TwoBytesAsStandard(m.packetId);
    HeaderAsStandard(m.Header());
    PacketAsStandard(HeaderByte(m.Header()), m.Body());
  }

  /** `buf` begins with the packet of the standard, `len` bytes long. */
  predicate PublishImage(buf: seq<byte>, len: int, m: Publish) {
    m.dup < 2 && m.qos < 4 && m.retain < 2 && m.packetId < 65536 && |m.topic| < 65536 ==>
      |Wire.PublishBody(m.qos, m.packetId, m.topic, m.payload)| < LENGTH_LIMIT && 0 <= len <= |buf|
      && buf[..len] == Wire.Publish(m.dup, m.qos, m.retain, m.packetId, m.topic, m.payload)
  }

  lemma PublishWritten(before: seq<byte>, m: Publish)
    requires |m.Body()| < LENGTH_LIMIT && |m.Bytes()| <= |before|
    ensures PublishImage(Splice(before, 0, m.Bytes()), |m.Bytes()|, m)
  {
    if m.Header().Valid() && m.packetId < 65536 && |m.topic| < 65536 {
      PublishAsStandard(m);
      SpliceFront(before, m.Bytes());
    }
  }

  lemma BodyLength(m: Publish)
    ensures |m.Body()| == PublishLength(m.qos, |m.topic|, |m.payload|)
  {
  }

  method WriteId(buf: array<byte>, p: nat, ghost m: Publish, qos: nat, packetId: nat) returns (ptr: nat)
    requires m.qos == qos && m.packetId == packetId && p + |m.IdBytes()| <= buf.Length
    modifies buf
    ensures ptr == p + |m.IdBytes()| && buf[..] == Splice(old(buf[..]), p, m.IdBytes())
  {
    ptr := p;
    if qos > 0 {
      ptr := WriteInt(buf, ptr, packetId);
    } else {
      assert Splice(buf[..], p, []) == buf[..];
    }
  }

  method WriteAfterTopic(buf: array<byte>, p: nat, ghost m: Publish, qos: nat, packetId: nat, payload: seq<byte>) returns (ptr: nat)
    requires m.qos == qos && m.packetId == packetId && m.payload == payload && p + |m.AfterTopic()| <= buf.Length
    modifies buf
    ensures ptr == p + |m.AfterTopic()| && buf[..] == Splice(old(buf[..]), p, m.AfterTopic())
  {
    SpliceSplice(buf[..], p, m.IdBytes(), payload);
    ptr := WriteId(buf, p, m, qos, packetId);
    ptr := CopyBytes(buf, ptr, payload);
  }

  method WriteBody(buf: array<byte>, p: nat, ghost m: Publish, qos: nat, packetId: nat, topicName: MqttString,
                   payload: seq<byte>) returns (ptr: nat)
    requires topicName.OneSet() && m.qos == qos && m.packetId == packetId && m.topic == topicName.Text() && m.payload == payload
    requires p + |m.Body()| <= buf.Length
    modifies buf
    ensures ptr == p + |m.Body()| && buf[..] == Splice(old(buf[..]), p, m.Body())
  {
    LenAgreesWithWritten(topicName);
    SpliceSplice(buf[..], p, topicName.Written(), m.AfterTopic());
    ptr := WriteMqttString(buf, p, topicName);
    ptr := WriteAfterTopic(buf, ptr, m, qos, packetId, payload);
  }

  /** MQTTSerialize_publish: either the buffer is reported too short and left alone, or the packet is
      written at its front and nothing behind it is touched. */
  method SerializePublish(buf: array<byte>, buflen: nat, dup: nat, qos: nat, retained: nat, packetId: nat,
                          topicName: MqttString, payload: seq<byte>) returns (rc: int)
    requires buflen <= buf.Length && topicName.OneSet()
    requires PublishLength(qos, topicName.Len(), |payload|) < LENGTH_LIMIT
    modifies buf
    ensures PacketLen(PublishLength(qos, topicName.Len(), |payload|)) > buflen ==>
      rc == MQTTPACKET_BUFFER_TOO_SHORT && buf[..] == old(buf[..])
    ensures PacketLen(PublishLength(qos, topicName.Len(), |payload|)) <= buflen ==>
      var bytes := Publish(dup, qos, retained, packetId, topicName.Text(), payload).Bytes();
      rc == |bytes| <= buflen && buf[..] == Splice(old(buf[..]), 0, bytes)
    ensures PacketLen(PublishLength(qos, topicName.Len(), |payload|)) <= buflen ==>
      PublishImage(buf[..], rc, Publish(dup, qos, retained, packetId, topicName.Text(), payload))
  {
    var remLen := PublishLength(qos, topicName.Len(), |payload|);
    if PacketLen(remLen) > buflen {
      return MQTTPACKET_BUFFER_TOO_SHORT;
    }
    ghost var m := Publish(dup, qos, retained, packetId, topicName.Text(), payload);
    PacketFits(remLen, buflen);
    BodyLength(m);
    PublishWritten(buf[..], m);
    var header := HeaderByte(FixedHeader(PUBLISH, dup, qos, retained));
    SpliceSplice(buf[..], 0, [header] + EncodeLen(remLen), m.Body());
    var ptr := WriteFrame(buf, header, remLen);
    rc := WriteBody(buf, ptr, m, qos, packetId, topicName, payload);
  }

  /** MQTTDeserialize_publish */
  method DeserializePublish(buf: array<byte>) returns (r: Parsed<Received>)
    ensures r == Parse(buf[..])
    ensures buf.Length > 0 && buf[0] / 16 != 3 ==> r == Bad(-1)
  {
    if buf.Length == 0 {
      return Overread;
    }
    var header := HeaderOf(buf[0]);
    if header.packetType != PUBLISH {
      return Bad(-1);
    }
    var frame := ReadFrame(buf);
    if !frame.Ok? {
      return Overread;
    }
    var (rc, curdata, enddata) := frame.value;
    r := ReadBody(buf, header, rc, curdata, enddata);
  }

  method ReadBody(buf: array<byte>, header: FixedHeader, rc: int, start: nat, enddata: nat) returns (r: Parsed<Received>)
    requires start <= enddata <= buf.Length
    ensures r == ParseBody(header, rc, buf[start..enddata])
  {
    var topicName := ReadLenString(buf, start, enddata);
    if !topicName.Ok? {
      return Bad(rc);
    }
    var curdata := topicName.value.1;
    var msgId := None;
    if header.qos > 0 {
      if enddata - curdata < 2 {
        return Overread;
      }
      msgId := Some(IntOf(buf[curdata], buf[curdata + 1]));
      assert buf[curdata..enddata][2..] == buf[curdata + 2..enddata];
      curdata := curdata + 2;
    }
    r := Ok(Received(header, msgId, topicName.value.0, buf[curdata..enddata]));
  }

  // ---- PUBACK, PUBREC, PUBREL, PUBCOMP ----

  function AckHeader(packetType: nat, dup: nat): FixedHeader {
    FixedHeader(packetType, dup, if packetType == PUBREL then 1 else 0, 0)
  }

  function AckBytes(packetType: nat, dup: nat, packetId: nat): seq<byte> {
    Packet(HeaderByte(AckHeader(packetType, dup)), TwoBytes(packetId))
  }

  /** MQTTDeserialize_FixedHeaderAndMsgId: header and the first two body bytes of any packet. */
  function ParseMsgId(s: seq<byte>): Parsed<(FixedHeader, nat)> {
    if s == [] then Overread
    else
      var (rc, body) :- Unframed(s);
      if |body| < 2 then Bad(rc) else Ok((HeaderOf(s[0]), IntOf(body[0], body[1])))
  }

  lemma AckRoundTrip(packetType: nat, dup: nat, packetId: nat, rest: seq<byte>)
    requires packetType < 16 && dup < 2 && packetId < 65536
    ensures ParseMsgId(AckBytes(packetType, dup, packetId) + rest) == Ok((AckHeader(packetType, dup), packetId))
  {
    HeaderRoundTrip(AckHeader(packetType, dup));
    UnframedPacket(HeaderByte(AckHeader(packetType, dup)), TwoBytes(packetId), rest);
    TwoBytesRoundTrip(packetId);
  }

  /** A packet too short for an id is an error that is seen as one. */
  lemma AckErrorsAreSeen(s: seq<byte>)
    requires s != [] && Unframed(s).Ok?
    ensures ParseMsgId(s).Bad? <==> |Unframed(s).value.1| < 2
    ensures ParseMsgId(s).Bad? ==> 1 <= ParseMsgId(s).rc <= 5 && (ParseMsgId(s).rc == 1 <==> s[1] < 128)
  {
    FieldSize(s);
  }

  /** The acknowledgements are the packets that sections 3.4 to 3.7 draw. */
  lemma AckAsStandard(packetType: nat, dup: nat, packetId: nat)
    requires AckFields(packetType, dup, packetId)
    ensures AckBytes(packetType, dup, packetId) == Wire.Acknowledgement(packetType, dup, packetId)
  {
    TwoBytesAsStandard(packetId);
    HeaderAsStandard(AckHeader(packetType, dup));
    assert EncodeLen(2) == [2];
  }

  predicate AckFields(packetType: nat, dup: nat, packetId: nat) {
    packetType in {4, 5, 6, 7} && dup < 2 && packetId < 65536
  }

  lemma AckWritten(before: seq<byte>, packetType: nat, dup: nat, packetId: nat)
    requires |before| >= 4
    ensures AckFields(packetType, dup, packetId) ==>
      Splice(before, 0, AckBytes(packetType, dup, packetId)) == Wire.Acknowledgement(packetType, dup, packetId) + before[4..]
  {
    if AckFields(packetType, dup, packetId) {
      AckAsStandard(packetType, dup, packetId);
      SpliceFront(before, Wire.Acknowledgement(packetType, dup, packetId));
    }
  }

  method SerializeAck(buf: array<byte>, buflen: nat, packetType: nat, dup: nat, packetId: nat) returns (rc: int)
    requires buflen <= buf.Length
    modifies buf
    ensures buflen < 4 ==> rc == MQTTPACKET_BUFFER_TOO_SHORT && buf[..] == old(buf[..])
    ensures buflen >= 4 ==> rc == 4 && buf[..] == Splice(old(buf[..]), 0, AckBytes(packetType, dup, packetId))
    ensures buflen >= 4 && AckFields(packetType, dup, packetId) ==>
      buf[..] == Wire.Acknowledgement(packetType, dup, packetId) + old(buf[..])[4..]
  {

    if buflen < 4 {
      return MQTTPACKET_BUFFER_TOO_SHORT;
    }
    var header := HeaderByte(AckHeader(packetType, dup));
    SpliceSplice(buf[..], 0, [header] + EncodeLen(2), TwoBytes(packetId));
    AckWritten(buf[..], packetType, dup, packetId);
    var ptr := WriteFrame(buf, header, 2);
    rc := WriteInt(buf, ptr, packetId);
  }

  method DeserializeFixedHeaderAndMsgId(buf: array<byte>) returns (r: Parsed<(FixedHeader, nat)>)
    ensures r == ParseMsgId(buf[..])
  {
    if buf.Length == 0 {
      return Overread;
    }
    var frame := ReadFrame(buf);
    if !frame.Ok? {
      return Overread;
    }
    var (rc, curdata, enddata) := frame.value;
    if enddata - curdata < 2 {
      return Bad(rc);
    }
    r := Ok((HeaderOf(buf[0]), IntOf(buf[curdata], buf[curdata + 1])));
  }
}
