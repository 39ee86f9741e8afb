/** SUBSCRIBE, UNSUBSCRIBE and SUBACK (sections 3.8 to 3.10 of MQTT 3.1.1), over lists of any length. */
module SubscribeCodec {
  import opened Common
  import opened RemainingLength
  import opened PacketIO
  import Wire

  /** One entry of a SUBSCRIBE: a topic filter and the requested QoS. */
  datatype Entry = Entry(topic: seq<byte>, qos: int)

  /** The entries as they lie in the body.  `withQos` tells SUBSCRIBE from UNSUBSCRIBE. */
  function EntryBytes(e: Entry, withQos: bool): seq<byte> {
    TwoBytes(|e.topic|) + e.topic + if withQos then [CharByte(e.qos)] else []
  }

  function AllEntryBytes(es: seq<Entry>, withQos: bool): seq<byte> {
    if es == [] then [] else EntryBytes(es[0], withQos) + AllEntryBytes(es[1..], withQos)
  }

  /** One entry and what follows it. */
  function ReadEntry(s: seq<byte>, withQos: bool): (r: Parsed<(Entry, seq<byte>)>)
    ensures r.Ok? ==> |r.value.1| < |s|
  {
    var (topic, rest) :- ReadString(s);
    if !withQos then Ok((Entry(topic, 0), rest))
    else if rest == [] then Bad(0)
    else Ok((Entry(topic, SignedChar(rest[0])), rest[1..]))
  }

  /** Reading entries to the end of the body.  An array of `room` places is filled; a further entry
      would be written behind it. */
  function ReadEntries(s: seq<byte>, withQos: bool, room: nat): Parsed<seq<Entry>>
    decreases |s|
  {
    if s == [] then Ok([])
    else if room == 0 then Overread
    else
      var (e, rest) :- ReadEntry(s, withQos);
      After([e], ReadEntries(rest, withQos, room - 1))
  }

  /** Entries already read, in front of the rest. */
  function After(es: seq<Entry>, rest: Parsed<seq<Entry>>): Parsed<seq<Entry>> {
    if rest.Ok? then Ok(es + rest.value) else rest
  }

  predicate SendableEntry(e: Entry, withQos: bool) {
    |e.topic| < 65536 && if withQos then -128 <= e.qos < 128 else e.qos == 0
  }

  lemma EntryRoundTrip(e: Entry, withQos: bool, rest: seq<byte>)
    requires SendableEntry(e, withQos)
    ensures ReadEntry(EntryBytes(e, withQos) + rest, withQos) == Ok((e, rest))
  {
    if withQos {
      var tail := [CharByte(e.qos)] + rest;
      assert EntryBytes(e, withQos) + rest == TwoBytes(|e.topic|) + e.topic + tail;
      StringRoundTrip(e.topic, tail);
      CharRoundTrip(e.qos);
      assert tail[1..] == rest;
    } else {
      assert EntryBytes(e, withQos) + rest == TwoBytes(|e.topic|) + e.topic + rest;
      StringRoundTrip(e.topic, rest);
    }
  }

  /** Lists of any length come back in order, filters and codes unchanged. */
  lemma {:induction false} EntriesRoundTrip(es: seq<Entry>, withQos: bool, room: nat)
    requires |es| <= room && forall e :: e in es ==> SendableEntry(e, withQos)
    ensures ReadEntries(AllEntryBytes(es, withQos), withQos, room) == Ok(es)
  {
    if es != [] {
      EntriesRoundTrip(es[1..], withQos, room - 1);
      OneMoreEntry(es, withQos, room);
    }
  }

  lemma OneMoreEntry(es: seq<Entry>, withQos: bool, room: nat)
    requires es != [] && room > 0 && SendableEntry(es[0], withQos)
    requires ReadEntries(AllEntryBytes(es[1..], withQos), withQos, room - 1) == Ok(es[1..])
    ensures ReadEntries(AllEntryBytes(es, withQos), withQos, room) == Ok(es)
  {
    EntryRoundTrip(es[0], withQos, AllEntryBytes(es[1..], withQos));
    assert [es[0]] + es[1..] == es;
  }

  function Header(packetType: nat, dup: nat): FixedHeader {
    FixedHeader(packetType, dup, 1, 0)
  }

  function ListBody(packetId: nat, es: seq<Entry>, withQos: bool): seq<byte> {
    TwoBytes(packetId) + AllEntryBytes(es, withQos)
  }

  function ListPacket(packetType: nat, dup: nat, packetId: nat, es: seq<Entry>): seq<byte> {
    Packet(HeaderByte(Header(packetType, dup)), ListBody(packetId, es, packetType == SUBSCRIBE))
  }

  /** Success is 1, but an error inside the list returns `rc`, the size of the length field. */
  function ParseListBody(dup: nat, rc: int, packetId: nat, list: seq<byte>, withQos: bool, room: nat): Parsed<(nat, nat, seq<Entry>)> {
    match ReadEntries(list, withQos, room)
    case Ok(es) => Ok((dup, packetId, es))
    case Bad(_) => Bad(rc)
    case Overread => Overread
  }

  /** MQTTDeserialize_subscribe and MQTTDeserialize_unsubscribe: DUP flag, packet id and entries. */
  function ParseList(s: seq<byte>, packetType: nat, room: nat): Parsed<(nat, nat, seq<Entry>)> {
    if s == [] then Overread
    else if HeaderOf(s[0]).packetType != packetType then Bad(WrongType(packetType))
    else
      var (rc, body) :- Unframed(s);
      var id := s[1 + rc..];
      // the id is read whether the body holds it or not
      if |id| < 2 then Overread
      else ParseListBody(HeaderOf(s[0]).dup, rc, IntOf(id[0], id[1]), if |body| < 2 then [] else body[2..], packetType == SUBSCRIBE, room)
  }

  function WrongType(packetType: nat): int {
    if packetType == SUBSCRIBE then -1 else 0
  }

  /** A malformed list is reported with the code of success exactly when its length field is one byte long. */
  lemma ErrorLooksLikeSuccess(s: seq<byte>, packetType: nat, room: nat)
    requires s != [] && HeaderOf(s[0]).packetType == packetType && ParseList(s, packetType, room).Bad?
    ensures ParseList(s, packetType, room) == Bad(1) <==> |s| > 1 && s[1] < 128
  {
    FieldSize(s);
  }

  /** And a body that is too short even for its packet id is taken for an empty list, with an id made of foreign bytes,
      whatever the size of the length field. */
  lemma TooShortForIdIsSuccess(s: seq<byte>, packetType: nat, room: nat)
    requires s != [] && HeaderOf(s[0]).packetType == packetType
    requires var u := Unframed(s); u.Ok? && |u.value.1| < 2 && 1 + u.value.0 + 2 <= |s|
    ensures var id := 1 + Unframed(s).value.0;
            ParseList(s, packetType, room) == Ok((HeaderOf(s[0]).dup, IntOf(s[id], s[id + 1]), []))
  {
    var id := 1 + Unframed(s).value.0;
    assert s[id..][0] == s[id] && s[id..][1] == s[id + 1];
  }

  /** For example a SUBSCRIBE whose list breaks off in its first length: an error, with return code 1. */
  lemma MalformedListReportedAsSuccess()
    ensures ParseList([0x82, 3, 0, 1, 0], SUBSCRIBE, 5) == Bad(1)
  {
    var s: seq<byte> := [0x82, 3, 0, 1, 0];
    assert HeaderOf(s[0]).packetType == SUBSCRIBE;
    assert s[1..][0] == 3;
    assert Unframed(s).Ok?;
  }

  lemma {:induction false} EntriesReadAreSendable(s: seq<byte>, withQos: bool, room: nat)
    ensures var r := ReadEntries(s, withQos, room);
            r.Ok? ==> |r.value| <= room && forall e :: e in r.value ==> SendableEntry(e, withQos)
    decreases |s|
  {
    if s != [] && room > 0 && ReadEntry(s, withQos).Ok? {
      EntriesReadAreSendable(ReadEntry(s, withQos).value.1, withQos, room - 1);
    }
  }

  lemma CharReadIsWritten(b: byte)
    ensures CharByte(SignedChar(b)) == b
  {
  }

  lemma EntryReadIsWritten(s: seq<byte>, withQos: bool)
    requires ReadEntry(s, withQos).Ok?
    ensures var (e, rest) := ReadEntry(s, withQos).value;
            s == EntryBytes(e, withQos) + rest
  {
    StringReadIsWritten(s);
    var (topic, rest) := ReadString(s).value;
    if withQos {
      CharReadIsWritten(rest[0]);
      assert rest == [rest[0]] + rest[1..];
      assert s == TwoBytes(|topic|) + topic + [rest[0]] + rest[1..];
    } else {
      assert TwoBytes(|topic|) + topic + [] == TwoBytes(|topic|) + topic;
    }
  }

  /** Bytes are read as a list exactly if they are that list, written: nothing malformed is taken for one. */
  lemma {:induction false} EntriesReadExactly(s: seq<byte>, withQos: bool, room: nat, es: seq<Entry>)
    ensures ReadEntries(s, withQos, room) == Ok(es)
       <==> s == AllEntryBytes(es, withQos) && |es| <= room && forall e :: e in es ==> SendableEntry(e, withQos)
    decreases |s|
  {
    if ReadEntries(s, withQos, room) == Ok(es) {
      EntriesReadAreSendable(s, withQos, room);
      if s != [] {
        EntryReadIsWritten(s, withQos);
        var (e, rest) := ReadEntry(s, withQos).value;
        EntriesReadExactly(rest, withQos, room - 1, es[1..]);
        assert es == [e] + es[1..];
      }
    }
    if s == AllEntryBytes(es, withQos) && |es| <= room && forall e :: e in es ==> SendableEntry(e, withQos) {
      EntriesRoundTrip(es, withQos, room);
    }
  }

  /** SUBSCRIBE and UNSUBSCRIBE round trip: id, count, filters in order and QoS codes come back if and only if the list has
      room in the caller's arrays and each entry is one that can be sent. */
  lemma ListRoundTrip(packetType: nat, dup: nat, packetId: nat, es: seq<Entry>, room: nat, rest: seq<byte>)
    requires packetType in {SUBSCRIBE, UNSUBSCRIBE} && dup < 2 && packetId < 65536
    requires |ListBody(packetId, es, packetType == SUBSCRIBE)| < LENGTH_LIMIT
    ensures ParseList(ListPacket(packetType, dup, packetId, es) + rest, packetType, room) == Ok((dup, packetId, es))
       <==> |es| <= room && forall e :: e in es ==> SendableEntry(e, packetType == SUBSCRIBE)
  {
    HeaderRoundTrip(Header(packetType, dup));
    var withQos, body := packetType == SUBSCRIBE, ListBody(packetId, es, packetType == SUBSCRIBE);
    UnframedPacket(HeaderByte(Header(packetType, dup)), body, rest);
    ListParsed(packetType, dup, packetId, es, room, rest);
    EntriesReadAreSendable(AllEntryBytes(es, withQos), withQos, room);
    if |es| <= room && forall e :: e in es ==> SendableEntry(e, withQos) {
      EntriesRoundTrip(es, withQos, room);
    }
  }

  lemma ListParsed(packetType: nat, dup: nat, packetId: nat, es: seq<Entry>, room: nat, rest: seq<byte>)
    requires packetType in {SUBSCRIBE, UNSUBSCRIBE} && dup < 2 && packetId < 65536
    requires |ListBody(packetId, es, packetType == SUBSCRIBE)| < LENGTH_LIMIT
    ensures var withQos, body := packetType == SUBSCRIBE, ListBody(packetId, es, packetType == SUBSCRIBE);
            && ParseList(ListPacket(packetType, dup, packetId, es) + rest, packetType, room)
            == ParseListBody(dup, |EncodeLen(|body|)|, packetId, AllEntryBytes(es, withQos), withQos, room)
  {
    var withQos, body := packetType == SUBSCRIBE, ListBody(packetId, es, packetType == SUBSCRIBE);
    var s := ListPacket(packetType, dup, packetId, es) + rest;
    HeaderRoundTrip(Header(packetType, dup));
    UnframedPacket(HeaderByte(Header(packetType, dup)), body, rest);
    IdInFront(packetId, AllEntryBytes(es, withQos));
    PacketCut(HeaderByte(Header(packetType, dup)), EncodeLen(|body|), body, rest);
    var n := |EncodeLen(|body|)|;
    assert s[1 + n..] == s[1..][n..] == body + rest;
    assert (body + rest)[0] == body[0] && (body + rest)[1] == body[1];
  }

  // ---- Against the standard ----

  function Topics(es: seq<Entry>): seq<seq<byte>> {
    seq(|es|, i requires 0 <= i < |es| => es[i].topic)
  }

  /** The requested QoS codes, 0 to 2, as bytes. */
  function Codes(es: seq<Entry>): seq<byte>
    requires forall e :: e in es ==> 0 <= e.qos < 128
  {
    seq(|es|, i requires 0 <= i < |es| => es[i].qos)
  }

  predicate Standard(es: seq<Entry>) {
    forall e :: e in es ==> |e.topic| < 65536 && 0 <= e.qos < 128
  }

  lemma {:induction false} EntriesAsStandard(es: seq<Entry>)
    requires Standard(es)
    ensures AllEntryBytes(es, true) == Wire.Filters(Topics(es), Some(Codes(es)))
    ensures AllEntryBytes(es, false) == Wire.Filters(Topics(es), None)
  {
    if es != [] {
      assert es[0] in es && Standard(es[1..]);
      EntriesAsStandard(es[1..]);
      assert Topics(es)[0] == es[0].topic && Topics(es)[1..] == Topics(es[1..]);
      assert Codes(es)[0] == es[0].qos && Codes(es)[1..] == Codes(es[1..]);
      TwoBytesAsStandard(|es[0].topic|);
      assert EntryBytes(es[0], true) == Wire.Text(es[0].topic) + [es[0].qos];
      assert EntryBytes(es[0], false) == Wire.Text(es[0].topic);
    }
  }

  /** Lists of filters are the packets that sections 3.8 and 3.10 draw. */
  lemma SubscribeAsStandard(dup: nat, packetId: nat, es: seq<Entry>)
    requires dup < 2 && packetId < 65536 && Standard(es) && |ListBody(packetId, es, true)| < LENGTH_LIMIT
    ensures |Wire.Filters(Topics(es), Some(Codes(es)))| == |ListBody(packetId, es, true)| - 2
    ensures ListPacket(8, dup, packetId, es) == Wire.Subscribe(dup, packetId, Topics(es), Codes(es))
  {
    EntriesAsStandard(es);
    TwoBytesAsStandard(packetId);
    HeaderAsStandard(Header(8, dup));
    PacketAsStandard(HeaderByte(Header(8, dup)), ListBody(packetId, es, true));
  }

  lemma UnsubscribeAsStandard(dup: nat, packetId: nat, es: seq<Entry>)
    requires dup < 2 && packetId < 65536 && Standard(es) && |ListBody(packetId, es, false)| < LENGTH_LIMIT
    ensures |Wire.Filters(Topics(es), None)| == |ListBody(packetId, es, false)| - 2
    ensures ListPacket(10, dup, packetId, es) == Wire.Unsubscribe(dup, packetId, Topics(es))
  {
    EntriesAsStandard(es);
    TwoBytesAsStandard(packetId);
    HeaderAsStandard(Header(10, dup));
    PacketAsStandard(HeaderByte(Header(10, dup)), ListBody(packetId, es, false));
  }

  predicate ListFields(packetType: nat, dup: nat, packetId: nat, es: seq<Entry>) {
    packetType in {8, 10} && dup < 2 && packetId < 65536 && Standard(es) && |ListBody(packetId, es, packetType == 8)| < LENGTH_LIMIT
  }

  /** SUBSCRIBE has type 8 and UNSUBSCRIBE type 10. */
  function StandardList(packetType: nat, dup: nat, packetId: nat, es: seq<Entry>): seq<byte>
    requires ListFields(packetType, dup, packetId, es)
  {
    if packetType == 8 then
      SubscribeAsStandard(dup, packetId, es);
      Wire.Subscribe(dup, packetId, Topics(es), Codes(es))
    else
      UnsubscribeAsStandard(dup, packetId, es);
      Wire.Unsubscribe(dup, packetId, Topics(es))
  }

  /** `buf` begins with the packet of the standard, `len` bytes long. */
  predicate ListImage(buf: seq<byte>, len: int, packetType: nat, dup: nat, packetId: nat, es: seq<Entry>) {
    ListFields(packetType, dup, packetId, es) ==>
      0 <= len <= |buf| && buf[..len] == StandardList(packetType, dup, packetId, es)
  }

  lemma ListWritten(before: seq<byte>, packetType: nat, dup: nat, packetId: nat, es: seq<Entry>)
    requires |ListPacket(packetType, dup, packetId, es)| <= |before|
    ensures var bytes := ListPacket(packetType, dup, packetId, es);
            ListImage(Splice(before, 0, bytes), |bytes|, packetType, dup, packetId, es)
  {
    if ListFields(packetType, dup, packetId, es) {
      if packetType == 8 {
        SubscribeAsStandard(dup, packetId, es);
      } else {
        UnsubscribeAsStandard(dup, packetId, es);
      }
      SpliceFront(before, ListPacket(packetType, dup, packetId, es));
    }
  }

  /** A SUBACK is the packet that section 3.9 draws. */
  lemma SubackAsStandard(packetId: nat, codes: seq<int>)
    requires SubackFields(packetId, codes)
    ensures SubackBytes(packetId, codes) == Wire.Suback(packetId, AsBytes(codes))
  {
    TwoBytesAsStandard(packetId);
    assert CodeBytes(codes) == AsBytes(codes);
    HeaderAsStandard(FixedHeader(SUBACK, 0, 0, 0));
    PacketAsStandard(HeaderByte(FixedHeader(SUBACK, 0, 0, 0)), TwoBytes(packetId) + AsBytes(codes));
  }

  predicate SubackFields(packetId: nat, codes: seq<int>) {
    packetId < 65536 && |codes| + 2 < LENGTH_LIMIT && forall i :: 0 <= i < |codes| ==> 0 <= codes[i] < 256
  }

  function AsBytes(codes: seq<int>): seq<byte>
    requires forall i :: 0 <= i < |codes| ==> 0 <= codes[i] < 256
  {
    seq<byte>(|codes|, i requires 0 <= i < |codes| => codes[i])
  }

  lemma SubackWritten(before: seq<byte>, packetId: nat, codes: seq<int>)
    requires |SubackBytes(packetId, codes)| <= |before|
    ensures SubackFields(packetId, codes) ==>
      Splice(before, 0, SubackBytes(packetId, codes))[..|SubackBytes(packetId, codes)|] == Wire.Suback(packetId, AsBytes(codes))
  {
    if SubackFields(packetId, codes) {
      SubackAsStandard(packetId, codes);
      SpliceFront(before, SubackBytes(packetId, codes));
    }
  }

  // ---- The serialisers ----

  /** Filters and codes as the caller's two arrays hold them. */
  function EntriesOf(topics: seq<MqttString>, qos: seq<int>): (es: seq<Entry>)
    requires |qos| == |topics|
    ensures |es| == |topics|
  {
    seq(|topics|, i requires 0 <= i < |topics| => Entry(topics[i].Text(), qos[i]))
  }

  lemma {:induction false} AllEntryBytesAppend(es: seq<Entry>, e: Entry, withQos: bool)
    ensures AllEntryBytes(es + [e], withQos) == AllEntryBytes(es, withQos) + EntryBytes(e, withQos)
  {
    if es == [] {
      assert [] + [e] == [e] && [e][1..] == [];
    } else {
      assert (es + [e])[1..] == es[1..] + [e];
      AllEntryBytesAppend(es[1..], e, withQos);
    }
  }

  /** MQTTSerialize_subscribeLength and MQTTSerialize_unsubscribeLength: the summing loop computes exactly
      the bytes the writing loop produces. */
  method ListLength(topics: seq<MqttString>, ghost qos: seq<int>, withQos: bool) returns (len: nat)
    requires |qos| == |topics| && forall t :: t in topics ==> t.OneSet()
    ensures len == 2 + |AllEntryBytes(EntriesOf(topics, qos), withQos)|
  {
    len := 2;
    for i := 0 to |topics|
      invariant len == 2 + |AllEntryBytes(EntriesOf(topics, qos)[..i], withQos)|
    {
      ghost var es := EntriesOf(topics, qos);
      assert topics[i] in topics;
      AllEntryBytesAppend(es[..i], es[i], withQos);
      assert es[..i] + [es[i]] == es[..i + 1];
      LenAgreesWithWritten(topics[i]);
      len := len + 2 + topics[i].Len() + if withQos then 1 else 0;
    }
    assert EntriesOf(topics, qos)[..|topics|] == EntriesOf(topics, qos);
  }

  method WriteEntry(buf: array<byte>, p: nat, topic: MqttString, qos: int, withQos: bool) returns (ptr: nat)
    requires topic.OneSet() && p + |EntryBytes(Entry(topic.Text(), qos), withQos)| <= buf.Length
    modifies buf
    ensures ptr == p + |EntryBytes(Entry(topic.Text(), qos), withQos)|
    ensures buf[..] == Splice(old(buf[..]), p, EntryBytes(Entry(topic.Text(), qos), withQos))
  {
    LenAgreesWithWritten(topic);
    ghost var before := buf[..];
    ptr := WriteMqttString(buf, p, topic);
    if withQos {
      SpliceSplice(before, p, topic.Written(), [CharByte(qos)]);
      ptr := WriteChar(buf, ptr, CharByte(qos));
    } else {
      assert EntryBytes(Entry(topic.Text(), qos), withQos) == topic.Written();
    }
  }

  method WriteEntryAfter(buf: array<byte>, ghost before: seq<byte>, ghost p: nat, ghost written: seq<byte>, end: nat,
                         topic: MqttString, qos: int, withQos: bool) returns (ptr: nat)
    requires topic.OneSet() && end == p + |written| && end + |EntryBytes(Entry(topic.Text(), qos), withQos)| <= buf.Length == |before|
    requires buf[..] == Splice(before, p, written)
    modifies buf
    ensures ptr == end + |EntryBytes(Entry(topic.Text(), qos), withQos)|
    ensures buf[..] == Splice(before, p, written + EntryBytes(Entry(topic.Text(), qos), withQos))
  {
    SpliceSplice(before, p, written, EntryBytes(Entry(topic.Text(), qos), withQos));
    ptr := WriteEntry(buf, end, topic, qos, withQos);
  }

  method WriteEntries(buf: array<byte>, p: nat, topics: seq<MqttString>, qos: seq<int>, withQos: bool)
    returns (ptr: nat)
    requires |qos| == |topics| && forall t :: t in topics ==> t.OneSet()
    requires p + |AllEntryBytes(EntriesOf(topics, qos), withQos)| <= buf.Length
    modifies buf
    ensures ptr == p + |AllEntryBytes(EntriesOf(topics, qos), withQos)|
    ensures buf[..] == Splice(old(buf[..]), p, AllEntryBytes(EntriesOf(topics, qos), withQos))
  {
    ghost var es, before := EntriesOf(topics, qos), buf[..];
    ptr := p;
    EntriesStep(es, 0, withQos);
    for i := 0 to |topics|
      invariant ptr == p + |AllEntryBytes(es[..i], withQos)| <= buf.Length
      invariant buf[..] == Splice(before, p, AllEntryBytes(es[..i], withQos))
    {
      assert topics[i] in topics;
      EntriesStep(es, i, withQos);
      ptr := WriteEntryAfter(buf, before, p, AllEntryBytes(es[..i], withQos), ptr, topics[i], qos[i], withQos);
    }
    assert es[..|topics|] == es;
  }

  lemma EntriesStep(es: seq<Entry>, i: nat, withQos: bool)
    requires i <= |es|
    ensures |AllEntryBytes(es[..i], withQos)| <= |AllEntryBytes(es, withQos)|
    ensures i < |es| ==>
      AllEntryBytes(es[..i + 1], withQos) == AllEntryBytes(es[..i], withQos) + EntryBytes(es[i], withQos)
    ensures i < |es| ==> |AllEntryBytes(es[..i + 1], withQos)| <= |AllEntryBytes(es, withQos)|
  {
    AllEntryBytesPrefix(es, i, withQos);
    if i < |es| {
      AllEntryBytesPrefix(es, i + 1, withQos);
      AllEntryBytesAppend(es[..i], es[i], withQos);
      assert es[..i] + [es[i]] == es[..i + 1];
    }
  }

  lemma {:induction false} AllEntryBytesPrefix(es: seq<Entry>, i: nat, withQos: bool)
    requires i <= |es|
    ensures |AllEntryBytes(es[..i], withQos)| <= |AllEntryBytes(es, withQos)|
  {
    if i > 0 {
      assert es[..i][1..] == es[1..][..i - 1];
      AllEntryBytesPrefix(es[1..], i - 1, withQos);
    }
  }

  /** MQTTSerialize_subscribe and, without codes, MQTTSerialize_unsubscribe. */
  method SerializeList(buf: array<byte>, buflen: nat, packetType: nat, dup: nat, packetId: nat,
                       topics: seq<MqttString>, qos: seq<int>) returns (rc: int)
    requires buflen <= buf.Length && packetType in {SUBSCRIBE, UNSUBSCRIBE}
    requires |qos| == |topics| && forall t :: t in topics ==> t.OneSet()
    requires |ListBody(packetId, EntriesOf(topics, qos), packetType == SUBSCRIBE)| < LENGTH_LIMIT
    modifies buf
    ensures var es := EntriesOf(topics, qos);
            var bytes := ListPacket(packetType, dup, packetId, es);
            if PacketLen(|ListBody(packetId, es, packetType == SUBSCRIBE)|) > buflen
            then rc == MQTTPACKET_BUFFER_TOO_SHORT && buf[..] == old(buf[..])
            else rc == |bytes| <= buflen && buf[..] == Splice(old(buf[..]), 0, bytes)
    ensures rc > 0 ==> ListImage(buf[..], rc, packetType, dup, packetId, EntriesOf(topics, qos))
  {
    var withQos := packetType == SUBSCRIBE;
    var remLen := ListLength(topics, qos, withQos);
    if PacketLen(remLen) > buflen {
      return MQTTPACKET_BUFFER_TOO_SHORT;
    }
    PacketFits(remLen, buflen);
    var header := HeaderByte(Header(packetType, dup));
    ListWritten(buf[..], packetType, dup, packetId, EntriesOf(topics, qos));
    SpliceSplice(buf[..], 0, [header] + EncodeLen(remLen), ListBody(packetId, EntriesOf(topics, qos), withQos));
    var ptr := WriteFrame(buf, header, remLen);
    rc := WriteListBody(buf, ptr, packetId, topics, qos, withQos);
  }

  method WriteListBody(buf: array<byte>, p: nat, packetId: nat, topics: seq<MqttString>, qos: seq<int>, withQos: bool)
    returns (ptr: nat)
    requires |qos| == |topics| && forall t :: t in topics ==> t.OneSet()
    requires p + |ListBody(packetId, EntriesOf(topics, qos), withQos)| <= buf.Length
    modifies buf
    ensures ptr == p + |ListBody(packetId, EntriesOf(topics, qos), withQos)|
    ensures buf[..] == Splice(old(buf[..]), p, ListBody(packetId, EntriesOf(topics, qos), withQos))
  {
    SpliceSplice(buf[..], p, TwoBytes(packetId), AllEntryBytes(EntriesOf(topics, qos), withQos));
    ptr := WriteInt(buf, p, packetId);
    ptr := WriteEntries(buf, ptr, topics, qos, withQos);
  }

  // ---- The deserialisers ----

  method DeserializeList(buf: array<byte>, packetType: nat, maxcount: nat) returns (r: Parsed<(nat, nat, seq<Entry>)>)
    ensures r == ParseList(buf[..], packetType, maxcount)
    ensures buf.Length > 0 && buf[0] / 16 != packetType ==> r == Bad(if packetType == 8 then -1 else 0)
  {
    if buf.Length == 0 {
      return Overread;
    }
    if HeaderOf(buf[0]).packetType != packetType {
      return Bad(WrongType(packetType));
    }
    var frame := ReadFrame(buf);
    if !frame.Ok? {
      return Overread;
    }
    var (rc, curdata, enddata) := frame.value;
    if buf.Length - curdata < 2 {
      return Overread;
    }
    var packetId := IntOf(buf[curdata], buf[curdata + 1]);
    if enddata - curdata < 2 {
      return Ok((HeaderOf(buf[0]).dup, packetId, []));
    }
    assert buf[curdata..enddata][2..] == buf[curdata + 2..enddata];
    var es := ReadEntryLoop(buf, curdata + 2, enddata, packetType == SUBSCRIBE, maxcount);
    r := if es.Ok? then Ok((HeaderOf(buf[0]).dup, packetId, es.value)) else if es.Bad? then Bad(rc) else Overread;
  }

  /** One round of the reading loop: the filter and, for SUBSCRIBE, the requested QoS. */
  method NextEntry(buf: array<byte>, curdata: nat, enddata: nat, withQos: bool) returns (r: Parsed<(Entry, nat)>)
    requires curdata <= enddata <= buf.Length
    ensures r.Ok? ==> curdata < r.value.1 <= enddata
    ensures r.Ok? ==> ReadEntry(buf[curdata..enddata], withQos) == Ok((r.value.0, buf[r.value.1..enddata]))
    ensures !r.Ok? ==> r == Bad(0) && ReadEntry(buf[curdata..enddata], withQos) == Bad(0)
  {
    var topic := ReadLenString(buf, curdata, enddata);
    if !topic.Ok? {
      return Bad(0);
    }
    var next := topic.value.1;
    if !withQos {
      return Ok((Entry(topic.value.0, 0), next));
    }
    if next >= enddata {
      return Bad(0);
    }
    assert buf[next..enddata][1..] == buf[next + 1..enddata];
    r := Ok((Entry(topic.value.0, SignedChar(buf[next])), next + 1));
  }

  method ReadEntryLoop(buf: array<byte>, start: nat, enddata: nat, withQos: bool, maxcount: nat)
    returns (r: Parsed<seq<Entry>>)
    requires start <= enddata <= buf.Length
    ensures r == ReadEntries(buf[start..enddata], withQos, maxcount)
  {
    var curdata := start;
    var es: seq<Entry> := [];
    ghost var all := ReadEntries(buf[start..enddata], withQos, maxcount);
    AfterNone(all);
    while curdata < enddata
      invariant start <= curdata <= enddata && |es| <= maxcount
      invariant all == After(es, ReadEntries(buf[curdata..enddata], withQos, maxcount - |es|))
      decreases enddata - curdata
    {
      if |es| == maxcount {
        return Overread;
      }
      var entry := NextEntry(buf, curdata, enddata, withQos);
      if !entry.Ok? {
        return Bad(0);
      }
      var (e, next) := entry.value;
      AfterOne(es, e, ReadEntries(buf[next..enddata], withQos, maxcount - |es| - 1));
      es := es + [e];
      curdata := next;
    }
    assert es + [] == es;
    r := Ok(es);
  }

  lemma AfterNone(rest: Parsed<seq<Entry>>)
    ensures After([], rest) == rest
  {
    if rest.Ok? {
      assert [] + rest.value == rest.value;
    }
  }

  lemma AfterOne(es: seq<Entry>, e: Entry, rest: Parsed<seq<Entry>>)
    ensures After(es, After([e], rest)) == After(es + [e], rest)
  {
    if rest.Ok? {
      assert es + ([e] + rest.value) == es + [e] + rest.value;
    }
  }

  // ---- SUBACK ----

  function SubackBytes(packetId: nat, codes: seq<int>): seq<byte> {
    Packet(HeaderByte(FixedHeader(SUBACK, 0, 0, 0)), TwoBytes(packetId) + CodeBytes(codes))
  }

  function CodeBytes(codes: seq<int>): (bs: seq<byte>)
    ensures |bs| == |codes|
  {
    seq(|codes|, i requires 0 <= i < |codes| => CharByte(codes[i]))
  }

  function SignedChars(bs: seq<byte>): seq<int> {
    seq(|bs|, i requires 0 <= i < |bs| => SignedChar(bs[i]))
  }

  /** What the deserialiser leaves: the return code, the id, and all codes stored into the caller's array. */
  datatype Granted = Granted(rc: int, packetId: nat, stored: seq<int>)

  /** The test in the loop asks whether more than `maxcount` codes are stored already, so that one too many is let in. */
  function GrantedOf(packetId: nat, codes: seq<int>, maxcount: nat): Granted {
    if |codes| <= maxcount + 1 then Granted(1, packetId, codes) else Granted(-1, packetId, codes[..maxcount + 1])
  }

  function ParseSubackBody(rc: int, body: seq<byte>, maxcount: nat): Parsed<Granted> {
    if |body| < 2 then Bad(rc) else Ok(GrantedOf(IntOf(body[0], body[1]), SignedChars(body[2..]), maxcount))
  }

  /** MQTTDeserialize_suback: packet id and granted codes. */
  function ParseSuback(s: seq<byte>, maxcount: nat): Parsed<Granted> {
    if s == [] then Overread
    else if HeaderOf(s[0]).packetType != SUBACK then Bad(0)
    else
      var (rc, body) :- Unframed(s);
      ParseSubackBody(rc, body, maxcount)
  }

  /** What arrives: the id, and every code as a signed char. */
  lemma SubackArrives(packetId: nat, codes: seq<int>, maxcount: nat, rest: seq<byte>)
    requires packetId < 65536 && |codes| + 2 < LENGTH_LIMIT
    ensures ParseSuback(SubackBytes(packetId, codes) + rest, maxcount)
         == Ok(GrantedOf(packetId, SignedChars(CodeBytes(codes)), maxcount))
  {
    var body := TwoBytes(packetId) + CodeBytes(codes);
    HeaderRoundTrip(FixedHeader(SUBACK, 0, 0, 0));
    UnframedPacket(HeaderByte(FixedHeader(SUBACK, 0, 0, 0)), body, rest);
    IdInFront(packetId, CodeBytes(codes));
    assert |body| == 2 + |codes|;
  }

  lemma CodesRoundTrip(codes: seq<int>)
    ensures SignedChars(CodeBytes(codes)) == codes <==> forall i :: 0 <= i < |codes| ==> -128 <= codes[i] < 128
  {
    var back := SignedChars(CodeBytes(codes));
    forall i | 0 <= i < |codes|
      ensures back[i] == codes[i] <==> -128 <= codes[i] < 128
    {
      CharRoundTrip(codes[i]);
    }
  }

  /** A SUBACK comes back whole, with the code of success, exactly when every code is in the range of a signed char and
      at most one is too many for the array. */
  lemma SubackRoundTrip(packetId: nat, codes: seq<int>, maxcount: nat, rest: seq<byte>)
    requires packetId < 65536 && |codes| + 2 < LENGTH_LIMIT
    ensures ParseSuback(SubackBytes(packetId, codes) + rest, maxcount) == Ok(Granted(1, packetId, codes))
       <==> |codes| <= maxcount + 1 && forall i :: 0 <= i < |codes| ==> -128 <= codes[i] < 128
  {
    SubackArrives(packetId, codes, maxcount, rest);
    CodesRoundTrip(codes);
  }

  /** So an array of `maxcount` codes is overrun, always by one code, exactly when the packet has more of them, and
      the overrun is reported as success exactly when it has one more. */
  lemma SubackOverruns(packetId: nat, codes: seq<int>, maxcount: nat, rest: seq<byte>)
    requires packetId < 65536 && |codes| + 2 < LENGTH_LIMIT
    ensures var r := ParseSuback(SubackBytes(packetId, codes) + rest, maxcount);
            && r.Ok?
            && (|r.value.stored| > maxcount <==> |codes| > maxcount)
            && (|r.value.stored| > maxcount ==> |r.value.stored| == maxcount + 1)
            && r.value.packetId == packetId && |r.value.stored| <= |codes|
            && (forall i :: 0 <= i < |r.value.stored| ==> r.value.stored[i] == SignedChar(CharByte(codes[i])))
            && (|r.value.stored| > maxcount && r.value.rc == 1 <==> |codes| == maxcount + 1)
  {
    SubackArrives(packetId, codes, maxcount, rest);
  }

  /** The failure code 0x80 is never recognised: it arrives as -128. */
  lemma FailureCodeUnseen(packetId: nat, rest: seq<byte>)
    requires packetId < 65536
    ensures ParseSuback(SubackBytes(packetId, [0x80]) + rest, 1) == Ok(Granted(1, packetId, [-128]))
  {
    SubackArrives(packetId, [0x80], 1, rest);
    assert SignedChars(CodeBytes([0x80])) == [-128];
  }

  /** The space test of the serialiser leaves out the frame: it lets through exactly these buffers that
      are too small for the packet. */
  lemma SubackCheckTooSmall(count: nat, buflen: nat)
    requires count + 2 < LENGTH_LIMIT
    ensures buflen >= 2 + count && |SubackBytes(0, seq(count, i => 0))| > buflen
       <==> 2 + count <= buflen < 3 + count + |EncodeLen(2 + count)|
  {
  }

  /** MQTTSerialize_suback. None is a packet that passes the space test and is written beyond the end of the buffer. */
  method SerializeSuback(buf: array<byte>, buflen: nat, packetId: nat, grantedQoSs: seq<int>) returns (rc: Option<int>)
    requires buflen <= buf.Length
    modifies buf
    ensures rc.None? <==> buflen >= 2 + |grantedQoSs| && |SubackBytes(packetId, grantedQoSs)| > buf.Length
    ensures buflen < 2 + |grantedQoSs| ==> rc == Some(MQTTPACKET_BUFFER_TOO_SHORT) && buf[..] == old(buf[..])
    ensures buflen >= 2 + |grantedQoSs| && rc.Some? ==>
      && rc.value == |SubackBytes(packetId, grantedQoSs)|
      && buf[..] == Splice(old(buf[..]), 0, SubackBytes(packetId, grantedQoSs))
    ensures buflen >= 2 + |grantedQoSs| && rc.Some? && SubackFields(packetId, grantedQoSs) ==>
      rc.value <= buf.Length && buf[..][..rc.value] == Wire.Suback(packetId, AsBytes(grantedQoSs))
  {
    var count := |grantedQoSs|;
    if buflen < 2 + count {
      return Some(MQTTPACKET_BUFFER_TOO_SHORT);
    }
    var header := HeaderByte(FixedHeader(SUBACK, 0, 0, 0));
    if PacketLength(2 + count) > buf.Length {
      return None;
    }
    SubackCut(buf[..], packetId, grantedQoSs);
    SubackWritten(buf[..], packetId, grantedQoSs);
    var ptr := WriteFrame(buf, header, 2 + count);
    ptr := WriteInt(buf, ptr, packetId);
    ptr := WriteCodes(buf, ptr, grantedQoSs);
    rc := Some(ptr);
  }

  /** Frame, id and codes written one after the other are the packet. */
  lemma SubackCut(before: seq<byte>, packetId: nat, grantedQoSs: seq<int>)
    requires |SubackBytes(packetId, grantedQoSs)| <= |before|
    ensures var codes := CodeBytes(grantedQoSs);
            var front := [HeaderByte(FixedHeader(SUBACK, 0, 0, 0))] + EncodeLen(2 + |codes|);
            && |SubackBytes(packetId, grantedQoSs)| == |front| + 2 + |codes|
            && Splice(Splice(Splice(before, 0, front), |front|, TwoBytes(packetId)), |front| + 2, codes)
            == Splice(before, 0, SubackBytes(packetId, grantedQoSs))
  {
    var codes := CodeBytes(grantedQoSs);
    var front := [HeaderByte(FixedHeader(SUBACK, 0, 0, 0))] + EncodeLen(2 + |codes|);
    assert SubackBytes(packetId, grantedQoSs) == front + (TwoBytes(packetId) + codes);
    SpliceSplice(before, 0, front, TwoBytes(packetId) + codes);
    SpliceSplice(Splice(before, 0, front), |front|, TwoBytes(packetId), codes);
  }

  function PacketLength(remLen: nat): nat {
    1 + |EncodeLen(remLen)| + remLen
  }

  method WriteCodes(buf: array<byte>, p: nat, grantedQoSs: seq<int>) returns (ptr: nat)
    requires p + |grantedQoSs| <= buf.Length
    modifies buf
    ensures ptr == p + |grantedQoSs| && buf[..] == Splice(old(buf[..]), p, CodeBytes(grantedQoSs))
  {
    ptr := p;
    ghost var before, codes := buf[..], CodeBytes(grantedQoSs);
    assert Splice(before, p, codes[..0]) == before;
    for i := 0 to |grantedQoSs|
      invariant ptr == p + i && buf[..] == Splice(before, p, codes[..i])
    {
      OneMoreCode(before, p, codes, i);
      ptr := WriteChar(buf, ptr, CharByte(grantedQoSs[i]));
    }
    assert codes[..|grantedQoSs|] == codes;
  }

  lemma OneMoreCode(before: seq<byte>, p: nat, codes: seq<byte>, i: nat)
    requires p + |codes| <= |before| && i < |codes|
    ensures Splice(Splice(before, p, codes[..i]), p + i, [codes[i]]) == Splice(before, p, codes[..i + 1])
  {
    SpliceSplice(before, p, codes[..i], [codes[i]]);
    assert codes[..i] + [codes[i]] == codes[..i + 1];
  }

  /** MQTTDeserialize_suback, which stores the codes into the caller's array. None is a code stored beyond its end. */
  method DeserializeSuback(buf: array<byte>, maxcount: nat, grantedQoSs: array<int>) returns (r: Option<Parsed<Granted>>)
    modifies grantedQoSs
    ensures var p := ParseSuback(buf[..], maxcount);
            && (r.None? <==> p.Ok? && |p.value.stored| > grantedQoSs.Length)
            && (r.Some? ==> r.value == p)
            && (r.Some? && p.Ok? ==> Filled(grantedQoSs[..], old(grantedQoSs[..]), p.value.stored))
            && (!p.Ok? ==> grantedQoSs[..] == old(grantedQoSs[..]))
    ensures buf.Length > 0 && buf[0] / 16 != 9 ==> r == Some(Bad(0))
  {
    if buf.Length == 0 {
      return Some(Overread);
    }
    if HeaderOf(buf[0]).packetType != SUBACK {
      return Some(Bad(0));
    }
    var frame := ReadFrame(buf);
    if !frame.Ok? {
      return Some(frame.PropagateFailure());
    }
    var (rc, curdata, enddata) := frame.value;
    if enddata - curdata < 2 {
      return Some(Bad(rc));
    }
    var packetId := IntOf(buf[curdata], buf[curdata + 1]);
    assert buf[curdata..enddata][2..] == buf[curdata + 2..enddata];
    var stored := StoreCodes(buf, curdata + 2, enddata, packetId, maxcount, grantedQoSs);
    r := if stored.Some? then Some(Ok(stored.value)) else None;
  }

  /** The array holds the stored codes in front and is unchanged behind them. */
  predicate Filled(now: seq<int>, before: seq<int>, stored: seq<int>) {
    |stored| <= |before| && now == stored + before[|stored|..]
  }

  method StoreCodes(buf: array<byte>, start: nat, enddata: nat, packetId: nat, maxcount: nat, grantedQoSs: array<int>)
    returns (r: Option<Granted>)
    requires start <= enddata <= buf.Length
    modifies grantedQoSs
    ensures var g := GrantedOf(packetId, SignedChars(buf[start..enddata]), maxcount);
            && (r.None? <==> |g.stored| > grantedQoSs.Length)
            && (r.Some? ==> r.value == g && Filled(grantedQoSs[..], old(grantedQoSs[..]), g.stored))
  {
    ghost var codes, before := SignedChars(buf[start..enddata]), grantedQoSs[..];
    var curdata, count := start, 0;
    while curdata < enddata
      invariant start <= curdata <= enddata && count == curdata - start <= maxcount + 1
      invariant Filled(grantedQoSs[..], before, codes[..count])
    {
      if count > maxcount {
        return Some(Granted(-1, packetId, grantedQoSs[..count]));
      }
      if count == grantedQoSs.Length {
        return None;
      }
      grantedQoSs[count] := SignedChar(buf[curdata]);
      assert codes[..count + 1] == codes[..count] + [codes[count]];
      curdata, count := curdata + 1, count + 1;
    }
    assert codes[..count] == codes;
    r := Some(Granted(1, packetId, grantedQoSs[..count]));
  }
}
