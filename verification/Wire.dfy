/** The packets as MQTT 3.1.1 draws them, in literal numbers. Nothing here is shared with the codecs that are held
    against it. */
module Wire {
  import opened Common

  /** Section 2.2.3. */
  function Length(n: nat): seq<byte>
    requires n < 268435456
  {
    if n < 128 then [n]
    else if n < 16384 then [n % 128 + 128, n / 128]
    else if n < 2097152 then [n % 128 + 128, n / 128 % 128 + 128, n / 16384]
    else [n % 128 + 128, n / 128 % 128 + 128, n / 16384 % 128 + 128, n / 2097152]
  }

  /** Sections 1.5.2 and 1.5.3. */
  function Int16(n: nat): seq<byte>
    requires n < 65536
  {
    [n / 256, n % 256]
  }

  function Text(s: seq<byte>): seq<byte>
    requires |s| < 65536
  {
    [|s| / 256, |s| % 256] + s
  }

  function OptionalText(s: Option<seq<byte>>): seq<byte>
    requires s.Some? ==> |s.value| < 65536
  {
    if s.Some? then Text(s.value) else []
  }

  function Framed(first: byte, body: seq<byte>): seq<byte>
    requires |body| < 268435456
  {
    [first] + Length(|body|) + body
  }

  /** Section 3.3. */
  function PublishBody(qos: nat, id: nat, topic: seq<byte>, payload: seq<byte>): seq<byte>
    requires id < 65536 && |topic| < 65536
  {
    Text(topic) + (if qos > 0 then Int16(id) else []) + payload
  }

  function Publish(dup: nat, qos: nat, retain: nat, id: nat, topic: seq<byte>, payload: seq<byte>): seq<byte>
    requires dup < 2 && qos < 4 && retain < 2 && id < 65536 && |topic| < 65536
    requires |PublishBody(qos, id, topic, payload)| < 268435456
  {
    Framed(0x30 + 8 * dup + 2 * qos + retain, PublishBody(qos, id, topic, payload))
  }

  /** Sections 3.4 to 3.7: PUBACK, PUBREC, PUBREL, PUBCOMP. */
  function Acknowledgement(packetType: nat, dup: nat, id: nat): seq<byte>
    requires packetType in {4, 5, 6, 7} && dup < 2 && id < 65536
  {
    [(if packetType == 4 then 0x40 else if packetType == 5 then 0x50 else if packetType == 6 then 0x62 else 0x70) + 8 * dup,
     2, id / 256, id % 256]
  }

  /** Sections 3.8 and 3.10: topic filters, for SUBSCRIBE each with its QoS. */
  function Filters(topics: seq<seq<byte>>, qos: Option<seq<byte>>): seq<byte>
    requires (forall t :: t in topics ==> |t| < 65536) && (qos.Some? ==> |qos.value| == |topics|)
    decreases |topics|
  {
    if topics == [] then []
    else if qos.None? then Text(topics[0]) + Filters(topics[1..], None)
    else Text(topics[0]) + [qos.value[0]] + Filters(topics[1..], Some(qos.value[1..]))
  }

  function Subscribe(dup: nat, id: nat, topics: seq<seq<byte>>, qos: seq<byte>): seq<byte>
    requires dup < 2 && id < 65536 && (forall t :: t in topics ==> |t| < 65536) && |qos| == |topics|
    requires 2 + |Filters(topics, Some(qos))| < 268435456
  {
    Framed(0x82 + 8 * dup, Int16(id) + Filters(topics, Some(qos)))
  }

  function Unsubscribe(dup: nat, id: nat, topics: seq<seq<byte>>): seq<byte>
    requires dup < 2 && id < 65536 && (forall t :: t in topics ==> |t| < 65536)
    requires 2 + |Filters(topics, None)| < 268435456
  {
    Framed(0xA2 + 8 * dup, Int16(id) + Filters(topics, None))
  }

  /** Section 3.9. */
  function Suback(id: nat, codes: seq<byte>): seq<byte>
    requires id < 65536 && 2 + |codes| < 268435456
  {
    Framed(0x90, Int16(id) + codes)
  }

  datatype Will = Will(topic: seq<byte>, message: seq<byte>, qos: nat, retain: nat) {
    predicate Valid() {
      |topic| < 65536 && |message| < 65536 && qos < 4 && retain < 2
    }
  }

  /** Section 3.1.2.3. */
  function ConnectFlags(clean: nat, will: Option<Will>, username: bool, password: bool): byte
    requires clean < 2 && (will.Some? ==> will.value.Valid())
  {
    2 * clean + (if will.Some? then 4 + 8 * will.value.qos + 32 * will.value.retain else 0)
    + (if password then 64 else 0) + if username then 128 else 0
  }

  /** Sections 3.1.2.1 and 3.1.2.2, and the name and level of MQTT 3.1. */
  function ProtocolName(level: nat): seq<byte>
    requires level in {3, 4}
  {
    if level == 4 then [0, 4, 77, 81, 84, 84, 4] else [0, 6, 77, 81, 73, 115, 100, 112, 3]
  }

  /** Section 3.1: variable header and payload. */
  function ConnectBody(level: nat, clean: nat, keepAlive: nat, clientID: seq<byte>, will: Option<Will>,
                       username: Option<seq<byte>>, password: Option<seq<byte>>): seq<byte>
    requires level in {3, 4} && clean < 2 && keepAlive < 65536 && |clientID| < 65536 && (will.Some? ==> will.value.Valid())
    requires (username.Some? ==> |username.value| < 65536) && (password.Some? ==> |password.value| < 65536)
  {
    ProtocolName(level) + [ConnectFlags(clean, will, username.Some?, password.Some?)] + Int16(keepAlive) + Text(clientID)
    + (if will.Some? then Text(will.value.topic) + Text(will.value.message) else [])
    + OptionalText(username) + OptionalText(password)
  }
}
