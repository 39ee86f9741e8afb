/** CONNECT (section 3.1 of MQTT 3.1.1, and the 3.1 form with protocol name MQIsdp). */
module ConnectCodec {
  import opened Common
  import opened RemainingLength
  import opened PacketIO
  import Wire

  datatype Will = Will(topicName: MqttString, message: MqttString, retained: nat, qos: nat)

  /** MQTTPacket_connectData. */
  datatype ConnectData = ConnectData(
    mqttVersion: nat,
    clientID: MqttString,
    keepAliveInterval: nat,
    cleansession: nat,
    willFlag: bool,
    will: Will,
    username: MqttString,
    password: MqttString)
  {
    predicate StringsOneSet() {
      clientID.OneSet() && will.topicName.OneSet() && will.message.OneSet() && username.OneSet() && password.OneSet()
    }
  }

  /** What the wire carries. */
  datatype Session = Session(
    cleansession: nat,
    keepAlive: nat,
    clientID: seq<byte>,
    will: Option<WillData>,
    username: Option<seq<byte>>,
    password: Option<seq<byte>>)

  datatype WillData = WillData(topic: seq<byte>, message: seq<byte>, qos: nat, retained: nat)

  /** The session the options describe. */
  function Described(o: ConnectData): Session {
    Session(o.cleansession, o.keepAliveInterval, o.clientID.Text(),
            if o.willFlag then Some(WillData(o.will.topicName.Text(), o.will.message.Text(), o.will.qos, o.will.retained)) else None,
            TextIfAny(o.username), TextIfAny(o.password))
  }

  function TextIfAny(s: MqttString): Option<seq<byte>> {
    if s.Present() then Some(s.Text()) else None
  }

  // ---- Bytes ----

  /** "MQTT" and "MQIsdp". */
  const MQTT: seq<byte> := [77, 81, 84, 84]
  const MQISDP: seq<byte> := [77, 81, 73, 115, 100, 112]

  function Str(text: seq<byte>): seq<byte> {
    TwoBytes(|text|) + text
  }

  function Protocol(version: nat): seq<byte> {
    if version == 4 then Str(MQTT) + [4] else Str(MQISDP) + [3]
  }

  datatype Flags = Flags(cleansession: nat, will: nat, willQos: nat, willRetain: nat, password: nat, username: nat) {
    predicate Valid() {
      cleansession < 2 && will < 2 && willQos < 4 && willRetain < 2 && password < 2 && username < 2
    }
  }

  /** The bit fields of the flags byte; its lowest bit is unused. */
  function FlagsByte(f: Flags): byte {
    f.cleansession % 2 * 2 + f.will % 2 * 4 + f.willQos % 4 * 8 + f.willRetain % 2 * 32 + f.password % 2 * 64 + f.username % 2 * 128
  }

  function FlagsOf(b: byte): Flags {
    Flags(b / 2 % 2, b / 4 % 2, b / 8 % 4, b / 32 % 2, b / 64 % 2, b / 128)
  }

  /** Taking a number apart at a bit boundary. */
  lemma Cut(n: nat, k: nat, high: nat, low: nat)
    requires k in {2, 4, 8, 32, 64, 128} && n == k * high + low && low < k
    ensures n / k == high && n % k == low
  {
  }

  lemma FlagsByteSum(f: Flags)
    requires f.Valid()
    ensures FlagsByte(f) == 2 * (f.cleansession + 2 * (f.will + 2 * (f.willQos + 4 * (f.willRetain + 2 * (f.password + 2 * f.username)))))
  {
    Reduced(f.cleansession, 2);
    Reduced(f.will, 2);
    Reduced(f.willQos, 4);
    Reduced(f.willRetain, 2);
    Reduced(f.password, 2);
    Reduced(f.username, 2);
  }

  lemma Reduced(n: nat, k: nat)
    requires n < k
    ensures n % k == n
  {
  }

  lemma FlagsRoundTrip(f: Flags)
    requires f.Valid()
    ensures FlagsOf(FlagsByte(f)) == f
  {
    FlagsByteSum(f);
    BitsRoundTrip(FlagsByte(f), f.cleansession, f.will, f.willQos, f.willRetain, f.password, f.username);
  }

  lemma BitsRoundTrip(n: byte, c: nat, w: nat, q: nat, r: nat, p: nat, u: nat)
    requires c < 2 && w < 2 && q < 4 && r < 2 && p < 2 && u < 2
    requires n == 2 * (c + 2 * (w + 2 * (q + 4 * (r + 2 * (p + 2 * u)))))
    ensures FlagsOf(n) == Flags(c, w, q, r, p, u)
  {
    var x4 := p + 2 * u;
    var x3 := r + 2 * x4;
    var x2 := q + 4 * x3;
    var x1 := w + 2 * x2;
    var x0 := c + 2 * x1;
    Cut(n, 2, x0, 0);
    Cut(n, 4, x1, 2 * c);
    Cut(n, 8, x2, 2 * c + 4 * w);
    Cut(n, 32, x3, 2 * c + 4 * w + 8 * q);
    Cut(n, 64, x4, 2 * c + 4 * w + 8 * q + 32 * r);
    Cut(n, 128, u, 2 * c + 4 * w + 8 * q + 32 * r + 64 * p);
    Cut(x0, 2, x1, c);
    Cut(x1, 2, x2, w);
    Cut(x2, 4, x3, q);
    Cut(x3, 2, x4, r);
    Cut(x4, 2, u, p);
  }

  function FlagsFor(s: Session): Flags {
    Flags(s.cleansession, if s.will.Some? then 1 else 0,
          if s.will.Some? then s.will.value.qos else 0, if s.will.Some? then s.will.value.retained else 0,
          if s.password.Some? then 1 else 0, if s.username.Some? then 1 else 0)
  }

  function Optional(text: Option<seq<byte>>): seq<byte> {
    if text.Some? then Str(text.value) else []
  }

  function WillBytes(w: Option<WillData>): seq<byte> {
    if w.Some? then Str(w.value.topic) + Str(w.value.message) else []
  }

  /** Everything after flags and keep-alive. */
  function Payload(s: Session): seq<byte> {
    Str(s.clientID) + AfterClientID(s)
  }

  function AfterClientID(s: Session): seq<byte> {
    WillBytes(s.will) + (Optional(s.username) + Optional(s.password))
  }

  function ConnectBody(version: nat, s: Session): seq<byte> {
    Protocol(version) + ([FlagsByte(FlagsFor(s))] + TwoBytes(s.keepAlive) + Payload(s))
  }

  function ConnectBytes(version: nat, s: Session): seq<byte> {
    Packet(HeaderByte(FixedHeader(CONNECT, 0, 0, 0)), ConnectBody(version, s))
  }

  // ---- Reading ----

  /** MQTTPacket_checkVersion: name and version agree as far as the shorter of the two names goes. */
  predicate VersionOk(name: seq<byte>, version: int) {
    || (version == 3 && SamePrefix(name, MQISDP))
    || (version == 4 && SamePrefix(name, MQTT))
  }

  /** Names of four and six bytes, and the empty one, which is accepted with either version. */
  lemma VersionByName(name: seq<byte>, version: int)
    ensures |name| == 4 ==> (VersionOk(name, version) <==> (version == 4 && name == [77, 81, 84, 84])
                                                           || (version == 3 && name == [77, 81, 73, 115]))
    ensures |name| == 6 ==> (VersionOk(name, version) <==> (version == 4 && name[..4] == [77, 81, 84, 84])
                                                           || (version == 3 && name == [77, 81, 73, 115, 100, 112]))
    ensures name == [] ==> (VersionOk(name, version) <==> version in {3, 4})
    ensures version !in {3, 4} ==> !VersionOk(name, version)
  {
  }

  predicate SamePrefix(a: seq<byte>, b: seq<byte>) {
    a <= b || b <= a
  }

  function ReadWill(s: seq<byte>, f: Flags): Parsed<(Option<WillData>, seq<byte>)> {
    if f.will == 0 then Ok((None, s))
    else
      var (topic, afterTopic) :- ReadString(s);
      var (message, rest) :- ReadString(afterTopic);
      Ok((Some(WillData(topic, message, f.willQos, f.willRetain)), rest))
  }

  /** A user name or password needs at least one byte besides its length, or bytes of something else behind it. */
  function ReadCredential(s: seq<byte>): Parsed<(seq<byte>, seq<byte>)> {
    if |s| < 3 then Bad(0) else ReadString(s)
  }

  function ReadCredentials(s: seq<byte>, f: Flags): Parsed<(Option<seq<byte>>, Option<seq<byte>>)> {
    if f.username == 0 then
      if f.password != 0 then Bad(0) else Ok((None, None))
    else
      var (username, rest) :- ReadCredential(s);
      if f.password == 0 then Ok((Some(username), None))
      else
        var (password, _) :- ReadCredential(rest);
        Ok((Some(username), Some(password)))
  }

  function ReadPayload(s: seq<byte>, f: Flags, keepAlive: nat): Parsed<Session> {
    var (clientID, afterId) :- ReadString(s);
    var (will, afterWill) :- ReadWill(afterId, f);
    var (username, password) :- ReadCredentials(afterWill, f);
    Ok(Session(f.cleansession, keepAlive, clientID, will, username, password))
  }

  function ReadBody(s: seq<byte>): Parsed<Session> {
    var (name, rest) :- ReadString(s);
    ReadAfterName(name, rest)
  }

  function ReadAfterName(name: seq<byte>, rest: seq<byte>): Parsed<Session> {
    if rest == [] then Overread
    else if !VersionOk(name, SignedChar(rest[0])) then Bad(0)
    else if |rest| < 4 then Overread
    else ReadPayload(rest[4..], FlagsOf(rest[1]), IntOf(rest[2], rest[3]))
  }

  /** MQTTDeserialize_connect: the length field is skipped, whatever it says, and the end pointer is the end of the
      buffer. */
  function Parse(s: seq<byte>): Parsed<Session> {
    if s == [] then Overread
    else if HeaderOf(s[0]).packetType != CONNECT then Bad(0)
    else
      var f := DecodeLen(s[1..], MAX_NO_OF_REMAINING_LENGTH_BYTES);
      var start := 1 + f.count + if f.ending == TooLong then 1 else 0;
      if f.ending == Truncated then Overread else if start > |s| then Bad(0) else ReadBody(s[start..])
  }

  // ---- Round trip ----

  predicate Short(s: Session) {
    && |s.clientID| < 65536
    && (s.will.Some? ==> |s.will.value.topic| < 65536 && |s.will.value.message| < 65536)
    && (s.username.Some? ==> |s.username.value| < 65536)
    && (s.password.Some? ==> |s.password.value| < 65536)
  }

  predicate InRange(s: Session) {
    && s.cleansession < 2 && s.keepAlive < 65536 && Short(s)
    && (s.will.Some? ==> s.will.value.qos < 4 && s.will.value.retained < 2)
  }

  /** Credentials the reader accepts: a password only with a user name, and the last one not empty. */
  predicate Acceptable(s: Session) {
    if s.password.Some? then s.username.Some? && s.password.value != []
    else s.username.Some? ==> s.username.value != []
  }

  lemma StrRoundTrip(text: seq<byte>, rest: seq<byte>)
    requires |text| < 65536
    ensures ReadString(Str(text) + rest) == Ok((text, rest))
  {
    StringRoundTrip(text, rest);
  }

  lemma CredentialsRoundTrip(s: Session)
    requires InRange(s)
    ensures ReadCredentials(Optional(s.username) + Optional(s.password), FlagsFor(s))
         == if Acceptable(s) then Ok((s.username, s.password)) else Bad(0)
  {
    if s.username.Some? {
      StrRoundTrip(s.username.value, Optional(s.password));
      if s.password.Some? {
        StrRoundTrip(s.password.value, []);
        assert Optional(s.password) + [] == Optional(s.password);
      }
    }
  }

  lemma TwoStringsRoundTrip(a: seq<byte>, b: seq<byte>, rest: seq<byte>)
    requires |a| < 65536 && |b| < 65536
    ensures ReadString(Str(a) + Str(b) + rest) == Ok((a, Str(b) + rest)) && ReadString(Str(b) + rest) == Ok((b, rest))
  {
    StrRoundTrip(b, rest);
    StrRoundTrip(a, Str(b) + rest);
    assert Str(a) + Str(b) + rest == Str(a) + (Str(b) + rest);
  }

  lemma WillRoundTrip(s: Session, rest: seq<byte>)
    requires InRange(s)
    ensures ReadWill(WillBytes(s.will) + rest, FlagsFor(s)) == Ok((s.will, rest))
  {
    if s.will.Some? {
      TwoStringsRoundTrip(s.will.value.topic, s.will.value.message, rest);
      assert WillBytes(s.will) == Str(s.will.value.topic) + Str(s.will.value.message);
    } else {
      assert [] + rest == rest;
    }
  }

  lemma PayloadRoundTrip(s: Session)
    requires InRange(s)
    ensures ReadPayload(Payload(s), FlagsFor(s), s.keepAlive) == if Acceptable(s) then Ok(s) else Bad(0)
  {
    var credentials := Optional(s.username) + Optional(s.password);
    StrRoundTrip(s.clientID, WillBytes(s.will) + credentials);
    WillRoundTrip(s, credentials);
    CredentialsRoundTrip(s);
  }

  /** Version, flags, keep-alive and what follows. */
  function AfterName(version: byte, s: Session): seq<byte> {
    [version, FlagsByte(FlagsFor(s))] + (TwoBytes(s.keepAlive) + Payload(s))
  }

  lemma AfterNameParts(version: byte, s: Session)
    requires InRange(s)
    ensures var rest := AfterName(version, s);
            && |rest| >= 4 && rest[0] == version && FlagsOf(rest[1]) == FlagsFor(s)
            && IntOf(rest[2], rest[3]) == s.keepAlive && rest[4..] == Payload(s)
  {
    var flags := FlagsByte(FlagsFor(s));
    FlagsRoundTrip(FlagsFor(s));
    IdInFront(s.keepAlive, Payload(s));
    TwoInFront(version, flags, TwoBytes(s.keepAlive) + Payload(s));
  }

  lemma TwoInFront(a: byte, b: byte, tail: seq<byte>)
    requires |tail| >= 2
    ensures var s := [a, b] + tail;
            s[0] == a && s[1] == b && s[2] == tail[0] && s[3] == tail[1] && s[4..] == tail[2..]
  {
  }

  lemma BodyRoundTrip(version: nat, s: Session)
    requires InRange(s) && version in {3, 4}
    ensures ReadBody(ConnectBody(version, s)) == if Acceptable(s) then Ok(s) else Bad(0)
  {
    var name := if version == 4 then MQTT else MQISDP;
    var rest := AfterName(version, s);
    NameInFront(version, s);
    StrRoundTrip(name, rest);
    AfterNameParts(version, s);
    PayloadRoundTrip(s);
    assert VersionOk(name, SignedChar(version));
  }

  lemma NameInFront(version: nat, s: Session)
    requires version in {3, 4}
    ensures ConnectBody(version, s) == Str(if version == 4 then MQTT else MQISDP) + AfterName(version, s)
  {
    VersionBehindName(Str(if version == 4 then MQTT else MQISDP), version, FlagsByte(FlagsFor(s)), TwoBytes(s.keepAlive), Payload(s));
  }

  lemma VersionBehindName(name: seq<byte>, version: byte, flags: byte, keepAlive: seq<byte>, payload: seq<byte>)
    ensures name + [version] + ([flags] + keepAlive + payload) == name + ([version, flags] + (keepAlive + payload))
  {
  }

  /** A CONNECT of version 3 or 4 comes back whole exactly when its credentials are acceptable; otherwise
      the reader reports failure. */
  lemma ConnectRoundTrip(version: nat, s: Session)
    requires InRange(s) && version in {3, 4} && |ConnectBody(version, s)| < LENGTH_LIMIT
    ensures Parse(ConnectBytes(version, s)) == if Acceptable(s) then Ok(s) else Bad(0)
  {
    var header, body := FixedHeader(CONNECT, 0, 0, 0), ConnectBody(version, s);
    var bytes := ConnectBytes(version, s);
    HeaderRoundTrip(header);
    LengthInFront(HeaderByte(header), body, []);
    assert bytes + [] == bytes && body + [] == body;
    assert bytes[1 + |EncodeLen(|body|)|..] == bytes[1..][|EncodeLen(|body|)|..];
    BodyRoundTrip(version, s);
  }

  lemma StrReadIsWritten(s: seq<byte>)
    requires ReadString(s).Ok?
    ensures s == Str(ReadString(s).value.0) + ReadString(s).value.1
  {
    StringReadIsWritten(s);
  }

  lemma CredentialsReadAreWritten(s: seq<byte>, f: Flags)
    requires ReadCredentials(s, f).Ok?
    ensures var (username, password) := ReadCredentials(s, f).value;
            && (username.Some? <==> f.username != 0) && (password.Some? <==> f.password != 0)
            && Optional(username) + Optional(password) <= s
  {
    if f.username != 0 {
      StrReadIsWritten(s);
      var rest := ReadString(s).value.1;
      if f.password != 0 {
        StrReadIsWritten(rest);
        assert s == Str(ReadString(s).value.0) + Str(ReadString(rest).value.0) + ReadString(rest).value.1;
      }
    }
  }

  lemma WillReadIsWritten(s: seq<byte>, f: Flags)
    requires ReadWill(s, f).Ok?
    ensures var (w, rest) := ReadWill(s, f).value;
            && (w.Some? <==> f.will != 0) && (w.Some? ==> w.value.qos == f.willQos && w.value.retained == f.willRetain)
            && s == WillBytes(w) + rest
  {
    if f.will != 0 {
      StrReadIsWritten(s);
      StrReadIsWritten(ReadString(s).value.1);
    }
  }

  /** What is accepted behind flags and keep-alive begins with the payload of the session, written, and the flags say which
      parts it has. */
  lemma PayloadReadIsWritten(s: seq<byte>, f: Flags, keepAlive: nat)
    requires ReadPayload(s, f, keepAlive).Ok?
    ensures var x := ReadPayload(s, f, keepAlive).value;
            && Payload(x) <= s && x.cleansession == f.cleansession && x.keepAlive == keepAlive
            && (x.will.Some? <==> f.will != 0) && (x.will.Some? ==> x.will.value.qos == f.willQos && x.will.value.retained == f.willRetain)
            && (x.username.Some? <==> f.username != 0) && (x.password.Some? <==> f.password != 0)
  {
    StrReadIsWritten(s);
    var (clientID, afterId) := ReadString(s).value;
    WillReadIsWritten(afterId, f);
    var (will, afterWill) := ReadWill(afterId, f).value;
    CredentialsReadAreWritten(afterWill, f);
    var (username, password) := ReadCredentials(afterWill, f).value;
    PrefixBehind(Str(clientID), WillBytes(will), Optional(username) + Optional(password), afterWill);
  }

  lemma PrefixBehind(a: seq<byte>, b: seq<byte>, c: seq<byte>, rest: seq<byte>)
    requires c <= rest
    ensures a + (b + c) <= a + (b + rest)
  {
    assert a + (b + rest) == a + (b + c) + rest[|c|..];
  }

  /** A protocol that is not known is refused. */
  lemma UnknownProtocolRefused(name: seq<byte>, version: byte, rest: seq<byte>)
    requires |name| < 65536 && !VersionOk(name, SignedChar(version))
    ensures ReadBody(Str(name) + ([version] + rest)) == Bad(0)
    ensures |Str(name) + ([version] + rest)| < LENGTH_LIMIT ==> Parse(Packet(0x10, Str(name) + ([version] + rest))) == Bad(0)
  {
    var body := Str(name) + ([version] + rest);
    StrRoundTrip(name, [version] + rest);
    if |body| < LENGTH_LIMIT {
      LengthInFront(0x10, body, []);
      assert Packet(0x10, body) + [] == Packet(0x10, body) && body + [] == body;
    }
  }

  // ---- Against the standard ----

  function StandardWill(w: Option<WillData>): Option<Wire.Will> {
    if w.Some? then Some(Wire.Will(w.value.topic, w.value.message, w.value.qos, w.value.retained)) else None
  }

  function StandardBody(version: nat, s: Session): seq<byte>
    requires InRange(s) && version in {3, 4}
  {
    Wire.ConnectBody(version, s.cleansession, s.keepAlive, s.clientID, StandardWill(s.will), s.username, s.password)
  }

  lemma FlagsAsStandard(s: Session)
    requires InRange(s)
    ensures FlagsByte(FlagsFor(s)) == Wire.ConnectFlags(s.cleansession, StandardWill(s.will), s.username.Some?, s.password.Some?)
  {
    FlagsByteSum(FlagsFor(s));
  }

  lemma ProtocolAsStandard(version: nat)
    requires version in {3, 4}
    ensures Protocol(version) == Wire.ProtocolName(version)
  {
    TwoBytesAsStandard(4);
    TwoBytesAsStandard(6);
  }

  lemma TextAsStandard(text: seq<byte>)
    requires |text| < 65536
    ensures Str(text) == Wire.Text(text)
  {
    TwoBytesAsStandard(|text|);
  }

  lemma PayloadAsStandard(s: Session)
    requires InRange(s)
    ensures Payload(s) == Wire.Text(s.clientID)
                          + ((if s.will.Some? then Wire.Text(s.will.value.topic) + Wire.Text(s.will.value.message) else [])
                             + (Wire.OptionalText(s.username) + Wire.OptionalText(s.password)))
  {
    TextAsStandard(s.clientID);
    if s.will.Some? {
      TextAsStandard(s.will.value.topic);
      TextAsStandard(s.will.value.message);
    }
    if s.username.Some? {
      TextAsStandard(s.username.value);
    }
    if s.password.Some? {
      TextAsStandard(s.password.value);
    }
  }

  lemma SevenParts(a: seq<byte>, b: seq<byte>, c: seq<byte>, d: seq<byte>, e: seq<byte>, f: seq<byte>, g: seq<byte>)
    ensures a + (b + c + (d + (e + (f + g)))) == a + b + c + d + e + f + g
  {
  }

  /** A CONNECT is the packet that section 3.1 draws. */
  lemma ConnectAsStandard(version: nat, s: Session)
    requires InRange(s) && version in {3, 4} && |ConnectBody(version, s)| < LENGTH_LIMIT
    ensures ConnectBody(version, s) == StandardBody(version, s)
    ensures ConnectBytes(version, s) == Wire.Framed(0x10, StandardBody(version, s))
  {
    ProtocolAsStandard(version);
    FlagsAsStandard(s);
    TwoBytesAsStandard(s.keepAlive);
    PayloadAsStandard(s);
    SevenParts(Wire.ProtocolName(version),
               [Wire.ConnectFlags(s.cleansession, StandardWill(s.will), s.username.Some?, s.password.Some?)],
               Wire.Int16(s.keepAlive), Wire.Text(s.clientID),
               if s.will.Some? then Wire.Text(s.will.value.topic) + Wire.Text(s.will.value.message) else [],
               Wire.OptionalText(s.username), Wire.OptionalText(s.password));
    HeaderAsStandard(FixedHeader(CONNECT, 0, 0, 0));
    PacketAsStandard(0x10, ConnectBody(version, s));
  }

  lemma ConnectWritten(before: seq<byte>, version: nat, s: Session)
    requires version in {3, 4} && |ConnectBody(version, s)| < LENGTH_LIMIT && |ConnectBytes(version, s)| <= |before|
    ensures ConnectImage(Splice(before, 0, ConnectBytes(version, s)), |ConnectBytes(version, s)|, version, s)
  {
    if InRange(s) {
      ConnectAsStandard(version, s);
      SpliceFront(before, ConnectBytes(version, s));
    }
  }

  /** `buf` begins with the packet of the standard, `len` bytes long. */
  predicate ConnectImage(buf: seq<byte>, len: int, version: nat, s: Session)
    requires version in {3, 4}
  {
    InRange(s) ==>
      |StandardBody(version, s)| < LENGTH_LIMIT && 0 <= len <= |buf|
      && buf[..len] == Wire.Framed(0x10, StandardBody(version, s))
  }

  // ---- MQTTSerialize_connect ----

  /** MQTTSerialize_connectLength */
  function ConnectLength(o: ConnectData): nat {
    (if o.mqttVersion == 3 then 12 else if o.mqttVersion == 4 then 10 else 0)
    + o.clientID.Len() + 2
    + (if o.willFlag then o.will.topicName.Len() + 2 + o.will.message.Len() + 2 else 0)
    + (if o.username.Present() then o.username.Len() + 2 else 0)
    + (if o.password.Present() then o.password.Len() + 2 else 0)
  }

  /** The length function counts exactly the bytes that are written. */
  lemma ConnectLengthExact(o: ConnectData)
    requires o.mqttVersion in {3, 4} && o.StringsOneSet()
    ensures ConnectLength(o) == |ConnectBody(o.mqttVersion, Described(o))|
  {
  }

  method WriteOptional(buf: array<byte>, p: nat, s: MqttString) returns (ptr: nat)
    requires s.OneSet() && p + |Optional(TextIfAny(s))| <= buf.Length
    modifies buf
    ensures ptr == p + |Optional(TextIfAny(s))| && buf[..] == Splice(old(buf[..]), p, Optional(TextIfAny(s)))
  {
    if s.Present() {
      LenAgreesWithWritten(s);
      ptr := WriteMqttString(buf, p, s);
    } else {
      assert Splice(buf[..], p, []) == buf[..];
      ptr := p;
    }
  }

  method WriteCredentials(buf: array<byte>, p: nat, o: ConnectData) returns (ptr: nat)
    requires o.StringsOneSet()
    requires p + |Optional(Described(o).username) + Optional(Described(o).password)| <= buf.Length
    modifies buf
    ensures var bytes := Optional(Described(o).username) + Optional(Described(o).password);
            ptr == p + |bytes| && buf[..] == Splice(old(buf[..]), p, bytes)
  {
    SpliceSplice(buf[..], p, Optional(TextIfAny(o.username)), Optional(TextIfAny(o.password)));
    ptr := WriteOptional(buf, p, o.username);
    ptr := WriteOptional(buf, ptr, o.password);
  }

  method WriteWill(buf: array<byte>, p: nat, o: ConnectData) returns (ptr: nat)
    requires o.StringsOneSet() && p + |WillBytes(Described(o).will)| <= buf.Length
    modifies buf
    ensures ptr == p + |WillBytes(Described(o).will)|
    ensures buf[..] == Splice(old(buf[..]), p, WillBytes(Described(o).will))
  {
    ghost var before := buf[..];
    ptr := p;
    if o.willFlag {
      LenAgreesWithWritten(o.will.topicName);
      LenAgreesWithWritten(o.will.message);
      SpliceSplice(before, p, o.will.topicName.Written(), o.will.message.Written());
      ptr := WriteMqttString(buf, ptr, o.will.topicName);
      ptr := WriteMqttString(buf, ptr, o.will.message);
    } else {
      assert Splice(before, p, []) == before;
    }
  }

  method WriteAfterClientID(buf: array<byte>, p: nat, o: ConnectData) returns (ptr: nat)
    requires o.StringsOneSet() && p + |AfterClientID(Described(o))| <= buf.Length
    modifies buf
    ensures ptr == p + |AfterClientID(Described(o))| && buf[..] == Splice(old(buf[..]), p, AfterClientID(Described(o)))
  {
    ghost var s := Described(o);
    SpliceSplice(buf[..], p, WillBytes(s.will), Optional(s.username) + Optional(s.password));
    ptr := WriteWill(buf, p, o);
    ptr := WriteCredentials(buf, ptr, o);
  }

  method WritePayload(buf: array<byte>, p: nat, o: ConnectData) returns (ptr: nat)
    requires o.StringsOneSet() && p + |Payload(Described(o))| <= buf.Length
    modifies buf
    ensures ptr == p + |Payload(Described(o))| && buf[..] == Splice(old(buf[..]), p, Payload(Described(o)))
  {
    LenAgreesWithWritten(o.clientID);
    SpliceSplice(buf[..], p, Str(Described(o).clientID), AfterClientID(Described(o)));
    ptr := WriteMqttString(buf, p, o.clientID);
    ptr := WriteAfterClientID(buf, ptr, o);
  }

  /** Protocol name, version, flags and keep-alive. */
  function Prologue(version: nat, s: Session): seq<byte> {
    Protocol(version) + ([FlagsByte(FlagsFor(s))] + TwoBytes(s.keepAlive))
  }

  lemma BodyParts(version: nat, s: Session)
    ensures ConnectBody(version, s) == Prologue(version, s) + Payload(s)
  {
  }

  method WriteProtocol(buf: array<byte>, p: nat, mqttVersion: nat) returns (ptr: nat)
    requires p + |Protocol(mqttVersion)| <= buf.Length && mqttVersion in {3, 4}
    modifies buf
    ensures ptr == p + |Protocol(mqttVersion)| && buf[..] == Splice(old(buf[..]), p, Protocol(mqttVersion))
  {
    var name := if mqttVersion == 4 then MQTT else MQISDP;
    SpliceSplice(buf[..], p, Str(name), [mqttVersion]);
    ptr := WriteMqttString(buf, p, MqttString(Some(name), None));
    ptr := WriteChar(buf, ptr, mqttVersion);
  }

  method FlagsMade(o: ConnectData) returns (flags: Flags)
    ensures flags == FlagsFor(Described(o))
  {
    flags := Flags(o.cleansession, if o.willFlag then 1 else 0, 0, 0,
                   if o.password.Present() then 1 else 0, if o.username.Present() then 1 else 0);
    if o.willFlag {
      flags := flags.(willQos := o.will.qos, willRetain := o.will.retained);
    }
  }

  method WritePrologue(buf: array<byte>, p: nat, o: ConnectData) returns (ptr: nat)
    requires p + |Prologue(o.mqttVersion, Described(o))| <= buf.Length && o.mqttVersion in {3, 4}
    modifies buf
    ensures ptr == p + |Prologue(o.mqttVersion, Described(o))|
    ensures buf[..] == Splice(old(buf[..]), p, Prologue(o.mqttVersion, Described(o)))
  {
    ghost var before := buf[..];
    var flags := FlagsMade(o);
    ptr := WriteProtocol(buf, p, o.mqttVersion);
    SpliceSplice(before, p, Protocol(o.mqttVersion), [FlagsByte(flags)] + TwoBytes(o.keepAliveInterval));
    ptr := WriteFixed(buf, ptr, FlagsByte(flags), o.keepAliveInterval);
  }

  method WriteFixed(buf: array<byte>, p: nat, flags: byte, keepAlive: nat) returns (ptr: nat)
    requires p + 3 <= buf.Length
    modifies buf
    ensures ptr == p + 3 && buf[..] == Splice(old(buf[..]), p, [flags] + TwoBytes(keepAlive))
  {
    SpliceSplice(buf[..], p, [flags], TwoBytes(keepAlive));
    ptr := WriteChar(buf, p, flags);
    ptr := WriteInt(buf, ptr, keepAlive);
  }

  method WriteBody(buf: array<byte>, p: nat, o: ConnectData) returns (ptr: nat)
    requires o.mqttVersion in {3, 4} && o.StringsOneSet() && p + |ConnectBody(o.mqttVersion, Described(o))| <= buf.Length
    modifies buf
    ensures ptr == p + |ConnectBody(o.mqttVersion, Described(o))|
    ensures buf[..] == Splice(old(buf[..]), p, ConnectBody(o.mqttVersion, Described(o)))
  {
    BodyParts(o.mqttVersion, Described(o));
    SpliceSplice(buf[..], p, Prologue(o.mqttVersion, Described(o)), Payload(Described(o)));
    ptr := WritePrologue(buf, p, o);
    ptr := WritePayload(buf, ptr, o);
  }

  method SerializeConnect(buf: array<byte>, buflen: nat, o: ConnectData) returns (rc: int)
    requires buflen <= buf.Length && o.mqttVersion in {3, 4} && o.StringsOneSet() && ConnectLength(o) < LENGTH_LIMIT
    modifies buf
    ensures PacketLen(ConnectLength(o)) > buflen ==> rc == MQTTPACKET_BUFFER_TOO_SHORT && buf[..] == old(buf[..])
    ensures PacketLen(ConnectLength(o)) <= buflen ==>
      var bytes := ConnectBytes(o.mqttVersion, Described(o));
      rc == |bytes| <= buflen && buf[..] == Splice(old(buf[..]), 0, bytes)
    ensures PacketLen(ConnectLength(o)) <= buflen ==> ConnectImage(buf[..], rc, o.mqttVersion, Described(o))
  {
    var len := ConnectLength(o);
    if PacketLen(len) > buflen {
      return MQTTPACKET_BUFFER_TOO_SHORT;
    }
    ConnectLengthExact(o);
    PacketFits(len, buflen);
    ConnectWritten(buf[..], o.mqttVersion, Described(o));
    var header := HeaderByte(FixedHeader(CONNECT, 0, 0, 0));
    SpliceSplice(buf[..], 0, [header] + EncodeLen(len), ConnectBody(o.mqttVersion, Described(o)));
    var ptr := WriteFrame(buf, header, len);
    rc := WriteBody(buf, ptr, o);
  }

  // ---- MQTTDeserialize_connect ----

  method ReadWillAt(buf: array<byte>, p: nat, f: Flags) returns (r: Parsed<(Option<WillData>, nat)>)
    requires p <= buf.Length
    ensures r.Ok? ==> p <= r.value.1 <= buf.Length && ReadWill(buf[p..], f) == Ok((r.value.0, buf[r.value.1..]))
    ensures !r.Ok? ==> r == Bad(0) && ReadWill(buf[p..], f) == Bad(0)
  {
    if f.will == 0 {
      return Ok((None, p));
    }
    assert buf[p..] == buf[p..buf.Length];
    var topic := ReadLenString(buf, p, buf.Length);
    if !topic.Ok? {
      return Bad(0);
    }
    var message := ReadLenString(buf, topic.value.1, buf.Length);
    if !message.Ok? {
      return Bad(0);
    }
    assert buf[message.value.1..] == buf[message.value.1..buf.Length];
    r := Ok((Some(WillData(topic.value.0, message.value.0, f.willQos, f.willRetain)), message.value.1));
  }

  method ReadCredentialAt(buf: array<byte>, p: nat) returns (r: Parsed<(seq<byte>, nat)>)
    requires p <= buf.Length
    ensures r.Ok? ==> p <= r.value.1 <= buf.Length && ReadCredential(buf[p..]) == Ok((r.value.0, buf[r.value.1..]))
    ensures !r.Ok? ==> r == Bad(0) && ReadCredential(buf[p..]) == Bad(0)
  {
    assert buf[p..] == buf[p..buf.Length];
    if buf.Length - p < 3 {
      return Bad(0);
    }
    r := ReadLenString(buf, p, buf.Length);
    assert r.Ok? ==> buf[r.value.1..] == buf[r.value.1..buf.Length];
  }

  method ReadCredentialsAt(buf: array<byte>, p: nat, f: Flags)
    returns (r: Parsed<(Option<seq<byte>>, Option<seq<byte>>)>)
    requires p <= buf.Length
    ensures r == ReadCredentials(buf[p..], f)
  {
    if f.username != 0 {
      var username := ReadCredentialAt(buf, p);
      if !username.Ok? {
        return Bad(0);
      }
      if f.password != 0 {
        var password := ReadCredentialAt(buf, username.value.1);
        if !password.Ok? {
          return Bad(0);
        }
        return Ok((Some(username.value.0), Some(password.value.0)));
      }
      return Ok((Some(username.value.0), None));
    } else if f.password != 0 {
      return Bad(0);
    }
    r := Ok((None, None));
  }

  method ReadPayloadAt(buf: array<byte>, p: nat, f: Flags, keepAlive: nat) returns (r: Parsed<Session>)
    requires p <= buf.Length
    ensures r == ReadPayload(buf[p..], f, keepAlive)
  {
    assert buf[p..] == buf[p..buf.Length];
    var clientID := ReadLenString(buf, p, buf.Length);
    if !clientID.Ok? {
      return Bad(0);
    }
    assert buf[clientID.value.1..] == buf[clientID.value.1..buf.Length];
    var will := ReadWillAt(buf, clientID.value.1, f);
    if !will.Ok? {
      return Bad(0);
    }
    var credentials := ReadCredentialsAt(buf, will.value.1, f);
    if !credentials.Ok? {
      return credentials.PropagateFailure();
    }
    r := Ok(Session(f.cleansession, keepAlive, clientID.value.0, will.value.0, credentials.value.0, credentials.value.1));
  }

  method ReadAfterNameAt(buf: array<byte>, curdata: nat, name: seq<byte>) returns (r: Parsed<Session>)
    requires curdata <= buf.Length
    ensures r == ReadAfterName(name, buf[curdata..])
  {
    ghost var rest := buf[curdata..];
    if curdata == buf.Length {
      return Overread;
    }
    if !VersionOk(name, SignedChar(buf[curdata])) {
      return Bad(0);
    }
    if buf.Length - curdata < 4 {
      return Overread;
    }
    var flags := FlagsOf(buf[curdata + 1]);
    assert rest[4..] == buf[curdata + 4..];
    r := ReadPayloadAt(buf, curdata + 4, flags, IntOf(buf[curdata + 2], buf[curdata + 3]));
  }

  /** From the protocol name on. */
  method ReadBodyAt(buf: array<byte>, p: nat) returns (r: Parsed<Session>)
    requires p <= buf.Length
    ensures r == ReadBody(buf[p..])
  {
    assert buf[p..] == buf[p..buf.Length];
    var protocol := ReadLenString(buf, p, buf.Length);
    if !protocol.Ok? {
      return Bad(0);
    }
    var curdata := protocol.value.1;
    assert buf[curdata..] == buf[curdata..buf.Length];
    r := ReadAfterNameAt(buf, curdata, protocol.value.0);
  }

  method DeserializeConnect(buf: array<byte>) returns (r: Parsed<Session>)
    ensures r == Parse(buf[..])
    ensures buf.Length > 0 && buf[0] / 16 != 1 ==> r == Bad(0)
  {
    if buf.Length == 0 {
      return Overread;
    }
    if HeaderOf(buf[0]).packetType != CONNECT {
      return Bad(0);
    }
    assert buf[..][1..] == buf[1..];
    var f := DecodeBuf(buf, 1);
    var start := 1 + f.count + if f.ending == TooLong then 1 else 0;
    if f.ending == Truncated {
      return Overread;
    }
    if start > buf.Length {
      return Bad(0);
    }
    assert buf[..][start..] == buf[start..];
    r := ReadBodyAt(buf, start);
  }
}
