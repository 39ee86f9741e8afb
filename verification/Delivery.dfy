/**
 Guaranteed delivery as a step machine: one message in flight, a log of messages to retry, and the
 events that move messages between them (publish, waitForPubAck, saveFailedPublishedMessage,
 send_previously_unsent_data and the gate in start, all in instamsg.c).
 */
module Delivery {
  import opened Common
  import opened Json
  import opened LineFiles
  import opened DataLog
  import opened ResultHandlers

  const MAX_CYCLES_TO_WAIT_FOR_PUBACK: nat := 10

  /** Name of the callback publishMessageWithDeliveryGuarantee registers (publishAckReceived). */
  const PUBLISH_ACK_RECEIVED: nat := 1

  /** Name of the callback a PUBREC registers (publishQoS2CycleCompleted). */
  const QOS2_CYCLE_COMPLETED: nat := 2

  /** The identifier of a PUBREC that is too short to hold one. */
  const NO_MSG_ID: int := -1

  datatype Message = Message(topic: string, payload: string)

  // ---- The saved form of a message ----

  /** The line saveFailedPublishedMessage prints: {'topic' : '...', 'payload' : '...'} */
  function Record(m: Message): string {
    Print([QuotedPair("topic", m.topic), QuotedPair("payload", m.payload)])
  }

  /** What send_previously_unsent_data reads back from a line. */
  function Parsed(record: string): Message {
    Message(Lookup(record, "topic"), Lookup(record, "payload"))
  }

  predicate PlainMessage(m: Message) {
    Plain(m.topic) && Plain(m.payload)
  }

  lemma RecordParts(m: Message)
    ensures Record(m) == "{" + PrintBody([QuotedPair("topic", m.topic)]) + QuotedPair("payload", m.payload).Print() + "}"
    ensures PrintBody([QuotedPair("topic", m.topic)]) == QuotedPair("topic", m.topic).Print() + ", "
  {
    var ps := [QuotedPair("topic", m.topic), QuotedPair("payload", m.payload)];
    assert ps[..1] == [ps[0]];
    assert PrintBody([ps[0]]) == ps[0].Print() + ", " + PrintBody([]);
  }

  /** The line spelt out. */
  lemma RecordSpelt(m: Message)
    ensures Record(m) == "{'topic' : '" + m.topic + "', 'payload' : '" + m.payload + "'}"
  {
    RecordParts(m);
    PairSpelt("topic", m.topic);
    PairSpelt("payload", m.payload);
    assert ['\''] + "topic" + ['\''] == "'topic'" && ['\''] + "payload" + ['\''] == "'payload'";
    LineSpelt(m.topic, m.payload);
  }

  lemma PairSpelt(key: string, value: string)
    ensures QuotedPair(key, value).Print() == ['\''] + key + ['\''] + (" : '" + value + "'")
  {
  }

  lemma LineSpelt(topic: string, payload: string)
    ensures "{" + ("'topic'" + (" : '" + topic + "'") + ", ") + ("'payload'" + (" : '" + payload + "'")) + "}"
         == "{'topic' : '" + topic + "', 'payload' : '" + payload + "'}"
  {
    assert "{" + "'topic'" + " : '" == "{'topic' : '" && "'" + ", " + "'payload'" + " : '" == "', 'payload' : '" && "'" + "}" == "'}";
    assert "{" + ("'topic'" + (" : '" + topic + "'") + ", ") + ("'payload'" + (" : '" + payload + "'")) + "}"
        == ("{" + "'topic'" + " : '") + topic + ("'" + ", " + "'payload'" + " : '") + payload + ("'" + "}");
  }

  function TopicRest(m: Message): string {
    ", " + QuotedPair("payload", m.payload).Print() + "}"
  }

  lemma RecordStart(m: Message)
    ensures Record(m) == Field([], Token('\'', "topic"), '\'', m.topic, TopicRest(m))
  {
    RecordParts(m);
    var k := Token('\'', "topic").Print();
    assert QuotedPair("topic", m.topic).Print() == k + " : " + ['\''] + m.topic + ['\''];
  }

  lemma ParsedTopic(m: Message)
    ensures Parsed(Record(m)).topic == ReadBack(m.topic)
  {
    RecordStart(m);
    assert Blanked("topic") == "topic";
    LookupField([], Token('\'', "topic"), '\'', m.topic, TopicRest(m), "topic");
  }

  lemma ParsedPayload(m: Message)
    requires Plain(m.topic)
    ensures Parsed(Record(m)).payload == ReadBack(m.payload)
  {
    RecordParts(m);
    var first, k := QuotedPair("topic", m.topic), Token('\'', "payload");
    assert Record(m) == Field([first], k, '\'', m.payload, "}");
    assert Blanked("topic") == "topic" && Blanked("payload") == "payload";
    assert FirstValue([first], "payload") == FirstValue([first][1..], "payload");
    LookupField([first], k, '\'', m.payload, "}", "payload");
  }

  /** A message survives the trip through the log exactly when it holds no quote, CR or LF. */
  lemma RecordRoundTrip(m: Message)
    ensures Parsed(Record(m)) == m <==> PlainMessage(m)
  {
    ParsedTopic(m);
    ReadBackPlain(m.topic);
    if Plain(m.topic) {
      ParsedPayload(m);
      ReadBackPlain(m.payload);
    }
  }

  /** The line fits the line file: not empty, no newline inside, no CR at its end. */
  lemma RecordIsClean(m: Message)
    requires PlainMessage(m) && |Record(m)| < LINE_BUFFER
    ensures Clean(Record(m))
  {
    RecordParts(m);
    var r := Record(m);
    assert r[|r| - 1] == '}';
    assert '\n' !in QuotedPair("topic", m.topic).Print() && '\n' !in QuotedPair("payload", m.payload).Print();
  }

  // ---- States ----

  datatype PubackState = WAITING_FOR_PUBACK | NOT_WAITING_FOR_PUBACK | PUBACK_TIMEOUT
  datatype MessageSource = PERSISTENT_STORAGE | GENERAL

  /** The variables of instamsg.c that delivery depends on.  `lastPub` stands for lastPubTopic and
      lastPubPayload, which are allocated and freed together. */
  datatype Vars = Vars(
    pubAckMsgId: nat,
    pubAckRecvAttempts: nat,
    waitingForPuback: PubackState,
    lastPub: Option<Message>,
    msgSource: MessageSource,
    rebootPending: bool,
    ensureGuarantee: bool,
    connected: bool,
    socketCorrupted: bool,
    exited: bool,
    ping: Ping)

  /** pingReqResponsePending and pingRespAttempts. */
  datatype Ping = Ping(pending: bool, attempts: nat)

  const MAX_CYCLES_TO_WAIT_FOR_PINGRESP: nat := 10

  /** Handler table, identifier counter, variables, and the records in data.txt. */
  datatype State = State(slots: seq<Slot>, nextPacketId: nat, vars: Vars, records: seq<string>)

  /** Where the messages handed to the client have gone. */
  datatype Ledger = Ledger(
    submitted: multiset<Message>,
    acked: multiset<Message>,
    evicted: multiset<Message>,
    lost: multiset<Message>)

  datatype World = World(st: State, ledger: Ledger)

  // ---- Events ----

  /** Packets from the server as far as delivery is concerned.  Ack stands for PUBACK, SUBACK and PUBCOMP; ShortPubRec is
      a PUBREC without an identifier. */
  datatype Packet =
    | Ack(id: nat)
    | PubRecPacket(id: nat)
    | ShortPubRec
    | ConnAck(code: nat, messageAckEnabled: bool)
    | PingResp
    | OtherPacket

  datatype Event =
    | Submit(m: Message, handler: Option<nat>, timeout: nat)  // a QoS 1 or 2 publish by the application
    | Subscribe(handler: Option<nat>, timeout: nat)           // takes an identifier and a row
    | Drain                                                   // the oldest record is published again
    | SendFailed                                              // the packet did not reach the socket
    | SocketBroken
    | Receive(p: Packet)
    | Missed                                                  // a read round ended without the acknowledgement
    | LogExhausted
    | Tick
    | PingSent
    | PingMissed                                              // a read round ended without the PINGRESP
    | StartDraining                                           // first business-logic run
    | StopDraining                                            // main loop: rebootPending closes the gate
    | Exit
    | Restart(newProcess: bool, socketUp: bool, storedAck: bool, connectSent: bool)

  function Messages(records: seq<string>): multiset<Message> {
    if records == [] then multiset{} else multiset{Parsed(records[0])} + Messages(records[1..])
  }

  function InFlight(st: State): multiset<Message> {
    if st.vars.lastPub.Some? then multiset{st.vars.lastPub.value} else multiset{}
  }

  function Begin(st: State, m: Message, handler: Option<nat>, timeout: nat): State {
    var id := NextId(st.nextPacketId);
    st.(nextPacketId := id,
        vars := st.vars.(pubAckMsgId := id, waitingForPuback := WAITING_FOR_PUBACK, lastPub := Some(m)),
        slots := WithRow(st.slots, Slot(id, timeout, handler)))
  }

  /** attachResultHandler */
  function WithRow(slots: seq<Slot>, s: Slot): seq<Slot> {
    if s.handler == None then slots else Attached(slots, s)
  }

  function WithVars(w: World, vars: Vars): World {
    w.(st := w.st.(vars := vars))
  }

  /** A reply fires the handler of the first row with its id; if that is the awaited one, the message is done. Id 0 finds
      a free row; if that row was never used, NULL is called and the process dies. */
  function FireHandler(w: World, id: nat): World {
    var st, i := w.st, IndexOf(w.st.slots, id);
    if i == |st.slots| then w
    else if st.slots[i].handler == None then WithVars(w, st.vars.(exited := true))
    else
      var slots := Removed(st.slots, id);
      if id != st.vars.pubAckMsgId then WithSlots(w, slots) else Acknowledged(w, slots)
  }

  function WithSlots(w: World, slots: seq<Slot>): World {
    w.(st := w.st.(slots := slots))
  }

  function Acknowledged(w: World, slots: seq<Slot>): World {
    World(w.st.(slots := slots,
                vars := w.st.vars.(lastPub := None, waitingForPuback := NOT_WAITING_FOR_PUBACK, pubAckRecvAttempts := 0)),
          w.ledger.(acked := w.ledger.acked + InFlight(w.st)))
  }

  /** The row a PUBREC leaves for the PUBCOMP. */
  function PubRelAwaited(w: World, id: int): World {
    WithSlots(w, Attached(w.st.slots, Slot(id, MQTT_RESULT_HANDLER_TIMEOUT, Some(QOS2_CYCLE_COMPLETED))))
  }

  function ReceivePacket(w: World, p: Packet): World {
    match p
    case Ack(id) => FireHandler(w, id)
    case PubRecPacket(id) =>
      var fired := FireHandler(w, id);
      if fired.st.vars.exited then fired else PubRelAwaited(fired, id)
    case ShortPubRec => PubRelAwaited(w, NO_MSG_ID)
    case ConnAck(code, enabled) =>
      WithVars(w, if code == 0 || code == 6
                  then w.st.vars.(connected := true, msgSource := PERSISTENT_STORAGE, ensureGuarantee := enabled)
                  else w.st.vars.(exited := true))
    case PingResp => WithVars(w, w.st.vars.(ping := w.st.vars.ping.(pending := false)))
    case OtherPacket => w
  }

  /** saveFailedPublishedMessage: the message in flight goes to the end of the log. */
  function SaveFailed(w: World): World {
    if w.st.vars.lastPub.None? then w
    else
      var record := Record(w.st.vars.lastPub.value);
      World(w.st.(records := Saved(w.st.records, record),
                  vars := w.st.vars.(rebootPending := true, waitingForPuback := PUBACK_TIMEOUT, lastPub := None)),
            w.ledger.(evicted := w.ledger.evicted + (Messages(w.st.records) - Messages(Evicted(w.st.records)))))
  }

  predicate DrainGateOpen(st: State) {
    st.vars.msgSource == PERSISTENT_STORAGE && st.vars.waitingForPuback != WAITING_FOR_PUBACK && !st.vars.rebootPending
  }

  function Step(w: World, e: Event): World {
    var st, vars := w.st, w.st.vars;
    if vars.exited && !e.Restart? then w
    else match e
      case Submit(m, handler, timeout) =>
        World(Begin(st, m, handler, timeout), w.ledger.(submitted := w.ledger.submitted + multiset{m}))
      case Drain =>
        if st.records == [] then w
        else
          var rest := st.(records := st.records[1..]);
          w.(st := if st.vars.ensureGuarantee
                   then Begin(rest, Parsed(st.records[0]), Some(PUBLISH_ACK_RECEIVED), MQTT_RESULT_HANDLER_TIMEOUT)
                   else rest)
      case Subscribe(handler, timeout) =>
        var id := NextId(st.nextPacketId);
        w.(st := st.(nextPacketId := id, slots := WithRow(st.slots, Slot(id, timeout, handler))))
      case SendFailed => SaveFailed(w)
      case SocketBroken => WithVars(w, vars.(socketCorrupted := true))
      case Receive(p) => ReceivePacket(w, p)
      case Missed =>
        if vars.waitingForPuback != WAITING_FOR_PUBACK then w
        else if vars.pubAckRecvAttempts + 1 >= MAX_CYCLES_TO_WAIT_FOR_PUBACK
        then SaveFailed(WithVars(w, vars.(pubAckRecvAttempts := 0)))
        else WithVars(w, vars.(pubAckRecvAttempts := vars.pubAckRecvAttempts + 1))
      case LogExhausted => WithVars(w, vars.(msgSource := GENERAL))
      case Tick => WithSlots(w, AllAged(st.slots))
      case PingSent => WithVars(w, vars.(ping := vars.ping.(pending := true)))
      case PingMissed => if vars.ping.pending then WithVars(w, PingRoundMissed(vars)) else w
      case StartDraining => WithVars(w, vars.(msgSource := PERSISTENT_STORAGE))
      case StopDraining => if vars.rebootPending then WithVars(w, vars.(msgSource := GENERAL)) else w
      case Exit => WithVars(w, vars.(exited := true))
      case Restart(newProcess, socketUp, storedAck, connectSent) =>
        World(st.(slots := Cleared(st.slots), nextPacketId := MAX_PACKET_ID, vars := Initialised(vars, e)),
              w.ledger.(lost := w.ledger.lost + InFlight(st)))
  }

  /** A read round without the PINGRESP; after ten of them, answered pings in between or not, a reboot is due. */
  function PingRoundMissed(vars: Vars): Vars {
    if vars.ping.attempts + 1 >= MAX_CYCLES_TO_WAIT_FOR_PINGRESP
    then vars.(ping := vars.ping.(attempts := 0), rebootPending := true)
    else vars.(ping := vars.ping.(attempts := vars.ping.attempts + 1))
  }

  /** initInstaMsg, after the globals were zeroed if the process is new.  With the socket down the connection is simulated,
      which reads the stored setting of message acknowledgement; else the CONNECT is sent, which may break the socket. */
  function Initialised(vars: Vars, e: Event): Vars
    requires e.Restart?
  {
    Vars(if e.newProcess then 0 else vars.pubAckMsgId, 0, NOT_WAITING_FOR_PUBACK, None,
         if !e.socketUp then GENERAL else if e.newProcess then PERSISTENT_STORAGE else vars.msgSource,
         false, e.socketUp || e.storedAck, false, !e.socketUp || !e.connectSent, false,
         if e.newProcess then Ping(false, 0) else vars.ping)
  }

  /** A CONNECT that fails breaks the socket, and changes nothing else of a restart. */
  lemma ConnectFails(w: World, newProcess: bool, socketUp: bool, storedAck: bool)
    ensures var v := Step(w, Restart(newProcess, socketUp, storedAck, true));
            Step(w, Restart(newProcess, socketUp, storedAck, false)) == WithVars(v, v.st.vars.(socketCorrupted := true))
  {
  }

  lemma PingSteps(w: World)
    requires !w.st.vars.exited
    ensures Step(w, PingSent) == WithVars(w, w.st.vars.(ping := w.st.vars.ping.(pending := true)))
    ensures Step(w, PingMissed) == if w.st.vars.ping.pending then WithVars(w, PingRoundMissed(w.st.vars)) else w
    ensures Step(w, Receive(PingResp)) == WithVars(w, w.st.vars.(ping := w.st.vars.ping.(pending := false)))
  {
  }

  function Exec(w: World, es: seq<Event>): World
    decreases |es|
  {
    if es == [] then w else Exec(Step(w, es[0]), es[1..])
  }

  /** What the program allows: a second publish never starts while one is waiting (callbacks do not publish
      at QoS 1 or 2), draining respects the gate, a failed send is noticed before any read round, and messages
      are plain and fit the buffers. */
  predicate Allowed(w: World, e: Event) {
    match e
    case Submit(m, _, _) => Sendable(m) && w.st.vars.waitingForPuback != WAITING_FOR_PUBACK
    case Drain => DrainGateOpen(w.st)
    case SendFailed => w.st.vars.pubAckRecvAttempts == 0
    case _ => true
  }

  predicate AllAllowed(w: World, es: seq<Event>)
    decreases |es|
  {
    es == [] || (Allowed(w, es[0]) && AllAllowed(Step(w, es[0]), es[1..]))
  }

  /** Message acknowledgement (config ENABLE_MESSAGE_ACK) is on whenever a record is drained. */
  predicate AckOn(w: World, es: seq<Event>)
    decreases |es|
  {
    es == [] || ((es[0].Drain? ==> w.st.vars.ensureGuarantee) && AckOn(Step(w, es[0]), es[1..]))
  }

  // ---- No message is lost ----

  /** Capacities of lastPubTopic and lastPubPayload, where a publish keeps the message, and of messageBuffer, into which
      its record is copied when it is drained. */
  predicate FitsBuffers(m: Message) {
    |m.topic| < 100 && |m.payload| < MAX_BUFFER_SIZE && |Record(m)| < MAX_BUFFER_SIZE
  }

  /** A message that a publish can keep has a record that overruns messageBuffer exactly from 970 characters on. */
  lemma KeptMessageFits(m: Message)
    requires |m.topic| < 100 && |m.payload| < MAX_BUFFER_SIZE
    ensures FitsBuffers(m) <==> |m.topic| + |m.payload| < 970
  {
    RecordParts(m);
    var k := QuotedPair("topic", m.topic);
    assert [k][1..] == [] && PrintBody([k]) == k.Print() + ", " + PrintBody([]);
  }

  predicate Sendable(m: Message) {
    PlainMessage(m) && FitsBuffers(m)
  }

  predicate GoodRecord(record: string) {
    record == Record(Parsed(record)) && Sendable(Parsed(record))
  }

  predicate GoodLog(records: seq<string>) {
    records == [] || (GoodRecord(records[0]) && GoodLog(records[1..]))
  }

  lemma {:induction false} GoodLogConcat(a: seq<string>, b: seq<string>)
    ensures GoodLog(a + b) <==> GoodLog(a) && GoodLog(b)
  {
    if a == [] {
      assert a + b == b;
    } else {
      assert (a + b)[1..] == a[1..] + b;
      GoodLogConcat(a[1..], b);
    }
  }

  lemma {:induction false} GoodLogMember(records: seq<string>, r: string)
    requires GoodLog(records) && r in records
    ensures GoodRecord(r)
  {
    if r != records[0] {
      GoodLogMember(records[1..], r);
    }
  }

  /** Every submitted message is in exactly one place. */
  predicate Conserved(w: World) {
    w.ledger.submitted
      == Sum(w.ledger.acked, w.ledger.evicted, w.ledger.lost, Messages(w.st.records), InFlight(w.st))
  }

  function Sum(acked: multiset<Message>, evicted: multiset<Message>, lost: multiset<Message>,
               logged: multiset<Message>, inFlight: multiset<Message>): multiset<Message> {
    acked + evicted + lost + logged + inFlight
  }

  /** Moving the message in flight to another place keeps the sum. */
  lemma SumMoves(a: multiset<Message>, e: multiset<Message>, l: multiset<Message>, g: multiset<Message>, f: multiset<Message>)
    ensures Sum(a + f, e, l, g, multiset{}) == Sum(a, e, l, g, f)
    ensures Sum(a, e, l + f, g, multiset{}) == Sum(a, e, l, g, f)
    ensures Sum(a, e, l, g + f, multiset{}) == Sum(a, e, l, g, f)
    ensures Sum(a, e, l, f + g, multiset{}) == Sum(a, e, l, g, f)
  {
  }

  lemma SumEvicts(a: multiset<Message>, e: multiset<Message>, l: multiset<Message>, g: multiset<Message>,
                  kept: multiset<Message>, f: multiset<Message>)
    requires kept <= g
    ensures Sum(a, e + (g - kept), l, kept, f) == Sum(a, e, l, g, f)
  {
  }

  /** What every step keeps about the variables themselves. */
  predicate Sound(w: World) {
    && (w.st.vars.waitingForPuback == WAITING_FOR_PUBACK <==> w.st.vars.lastPub.Some?)
    && (w.st.vars.lastPub.Some? ==> Sendable(w.st.vars.lastPub.value) && w.st.vars.pubAckMsgId != 0)
    && GoodLog(w.st.records)
    && w.st.vars.pubAckRecvAttempts < MAX_CYCLES_TO_WAIT_FOR_PUBACK
    && (w.st.vars.waitingForPuback != WAITING_FOR_PUBACK ==> w.st.vars.pubAckRecvAttempts == 0)
    && w.st.vars.ping.attempts < MAX_CYCLES_TO_WAIT_FOR_PINGRESP
  }

  lemma {:induction false} MessagesConcat(a: seq<string>, b: seq<string>)
    ensures Messages(a + b) == Messages(a) + Messages(b)
  {
    if a == [] {
      assert a + b == b;
    } else {
      assert (a + b)[1..] == a[1..] + b;
      MessagesConcat(a[1..], b);
    }
  }

  lemma MessagesOnly(records: seq<string>, m: Message)
    requires m in Messages(records)
    ensures exists r :: r in records && Parsed(r) == m
  {
    if Parsed(records[0]) != m {
      MessagesOnly(records[1..], m);
    }
  }

  lemma {:induction false} EvictedMessages(records: seq<string>)
    ensures Messages(Evicted(records)) <= Messages(records)
    decreases |records|
  {
    if Size(records) >= MAX_DATA_LOGGER_SIZE_BYTES {
      EvictedMessages(records[1..]);
    }
  }

  lemma SavedMessages(records: seq<string>, record: string)
    ensures Messages(Saved(records, record)) == Messages(Evicted(records)) + multiset{Parsed(record)}
  {
    MessagesConcat(Evicted(records), [record]);
    assert [record][1..] == [];
    assert Messages([record]) == multiset{Parsed(record)} + Messages([]);
  }

  lemma SavedGood(records: seq<string>, m: Message)
    requires Sendable(m) && GoodLog(records)
    ensures GoodLog(Saved(records, Record(m)))
  {
    RecordRoundTrip(m);
    var dropped := EvictedIsLongestSuffix(records);
    GoodLogConcat(records[..dropped], records[dropped..]);
    assert records[..dropped] + records[dropped..] == records;
    GoodLogConcat(Evicted(records), [Record(m)]);
    assert [Record(m)][1..] == [];
  }

  /** A reply does nothing, frees a row, or completes the message in flight. */
  lemma FireHandlerCases(w: World, id: nat)
    ensures var slots := Removed(w.st.slots, id);
            FireHandler(w, id) in {w, WithVars(w, w.st.vars.(exited := true)), WithSlots(w, slots), Acknowledged(w, slots)}
  {
  }

  /** Soundness speaks of the log, the message in flight, the wait and the count of missed pings only. */
  lemma SoundFrame(w: World, v: World)
    requires Sound(w) && v.st.records == w.st.records && v.st.vars.lastPub == w.st.vars.lastPub
    requires v.st.vars.pubAckMsgId == w.st.vars.pubAckMsgId && v.st.vars.ping.attempts < MAX_CYCLES_TO_WAIT_FOR_PINGRESP
    requires v.st.vars.waitingForPuback == w.st.vars.waitingForPuback && v.st.vars.pubAckRecvAttempts == w.st.vars.pubAckRecvAttempts
    ensures Sound(v)
  {
  }

  lemma FireHandlerKeepsSound(w: World, id: nat)
    requires Sound(w)
    ensures Sound(FireHandler(w, id))
  {
    var slots := Removed(w.st.slots, id);
    FireHandlerCases(w, id);
    SoundFrame(w, WithSlots(w, slots));
    SoundFrame(w, WithVars(w, w.st.vars.(exited := true)));
    assert Sound(Acknowledged(w, slots));
  }

  lemma PubRecKeepsSound(w: World, id: nat)
    requires Sound(w)
    ensures Sound(ReceivePacket(w, PubRecPacket(id)))
  {
    FireHandlerKeepsSound(w, id);
    SoundFrame(FireHandler(w, id), ReceivePacket(w, PubRecPacket(id)));
  }

  lemma ConnAckKeepsSound(w: World, code: nat, enabled: bool)
    requires Sound(w)
    ensures Sound(ReceivePacket(w, ConnAck(code, enabled)))
  {
    if code == 0 || code == 6 {
      SoundFrame(w, WithVars(w, w.st.vars.(connected := true, msgSource := PERSISTENT_STORAGE, ensureGuarantee := enabled)));
    } else {
      SoundFrame(w, WithVars(w, w.st.vars.(exited := true)));
    }
  }

  lemma ReceiveKeepsSound(w: World, p: Packet)
    requires Sound(w)
    ensures Sound(ReceivePacket(w, p))
  {
    match p
    case Ack(id) => FireHandlerKeepsSound(w, id);
    case PubRecPacket(id) => PubRecKeepsSound(w, id);
    case ShortPubRec => SoundFrame(w, PubRelAwaited(w, NO_MSG_ID));
    case ConnAck(code, enabled) => ConnAckKeepsSound(w, code, enabled);
    case PingResp => SoundFrame(w, ReceivePacket(w, p));
    case OtherPacket =>
  }

  lemma SaveFailedKeepsSound(w: World)
    requires Sound(w)
    ensures Sound(SaveFailed(WithVars(w, w.st.vars.(pubAckRecvAttempts := 0))))
  {
    if w.st.vars.lastPub.Some? {
      SavedGood(w.st.records, w.st.vars.lastPub.value);
      var v := SaveFailed(WithVars(w, w.st.vars.(pubAckRecvAttempts := 0)));
      assert v.st.records == Saved(w.st.records, Record(w.st.vars.lastPub.value));
      assert v.st.vars.lastPub == None && v.st.vars.waitingForPuback == PUBACK_TIMEOUT && v.st.vars.pubAckRecvAttempts == 0;
    }
  }

  predicate Quiet(e: Event) {
    e.Subscribe? || e.SocketBroken? || e.LogExhausted? || e.Tick? || e.StartDraining? || e.StopDraining? || e.Exit? ||
    e.PingSent? || e.PingMissed?
  }

  lemma QuietStepKeepsSound(w: World, e: Event)
    requires Sound(w) && Quiet(e)
    ensures Sound(Step(w, e))
  {
    SoundFrame(w, Step(w, e));
  }

  lemma StepKeepsSound(w: World, e: Event)
    requires Sound(w) && Allowed(w, e)
    ensures Sound(Step(w, e))
  {
    if w.st.vars.exited && !e.Restart? {
    } else {
      match e
      case SendFailed =>
        SaveFailedKeepsSound(w);
        assert w.st.vars == w.st.vars.(pubAckRecvAttempts := 0);
      case Missed => SaveFailedKeepsSound(w);
      case Receive(p) => ReceiveKeepsSound(w, p);
      case Submit(_, _, _) =>
      case Drain =>
      case Restart(_, _, _, _) =>
      case _ => QuietStepKeepsSound(w, e);
    }
  }

  lemma SaveFailedConserves(w: World)
    requires Conserved(w) && w.st.vars.lastPub.Some? && PlainMessage(w.st.vars.lastPub.value)
    ensures Conserved(SaveFailed(w))
  {
    var m, l, g := w.st.vars.lastPub.value, w.ledger, Messages(w.st.records);
    var kept := Messages(Evicted(w.st.records));
    var v := SaveFailed(w);
    assert v.st.records == Saved(w.st.records, Record(m)) && v.st.vars.lastPub == None;
    assert v.ledger == l.(evicted := l.evicted + (g - kept));
    RecordRoundTrip(m);
    EvictedMessages(w.st.records);
    SavedMessages(w.st.records, Record(m));
    SumEvicts(l.acked, l.evicted, l.lost, g, kept, multiset{m});
    SumMoves(l.acked, l.evicted + (g - kept), l.lost, kept, multiset{m});
  }

  lemma AcknowledgedConserves(w: World, slots: seq<Slot>)
    requires Conserved(w)
    ensures Conserved(Acknowledged(w, slots))
  {
    var v := Acknowledged(w, slots);
    assert v.st.records == w.st.records && v.st.vars.lastPub == None;
    SumMoves(w.ledger.acked, w.ledger.evicted, w.ledger.lost, Messages(w.st.records), InFlight(w.st));
  }

  /** The law speaks of the ledger, the log and the message in flight only. */
  lemma ConservedFrame(w: World, v: World)
    requires Conserved(w) && v.ledger == w.ledger && v.st.records == w.st.records && v.st.vars.lastPub == w.st.vars.lastPub
    ensures Conserved(v)
  {
  }

  lemma FireHandlerConserves(w: World, id: nat)
    requires Conserved(w)
    ensures Conserved(FireHandler(w, id))
  {
    var slots := Removed(w.st.slots, id);
    FireHandlerCases(w, id);
    AcknowledgedConserves(w, slots);
    ConservedFrame(w, WithSlots(w, slots));
    ConservedFrame(w, WithVars(w, w.st.vars.(exited := true)));
  }

  lemma ReceiveConserves(w: World, p: Packet)
    requires Conserved(w)
    ensures Conserved(ReceivePacket(w, p))
  {
    match p
    case Ack(id) => FireHandlerConserves(w, id);
    case PubRecPacket(id) =>
      FireHandlerConserves(w, id);
      ConservedFrame(FireHandler(w, id), ReceivePacket(w, p));
    case ShortPubRec => ConservedFrame(w, ReceivePacket(w, p));
    case ConnAck(_, _) => ConservedFrame(w, ReceivePacket(w, p));
    case PingResp => ConservedFrame(w, ReceivePacket(w, p));
    case OtherPacket =>
  }

  lemma QuietStepConserves(w: World, e: Event)
    requires Conserved(w) && Quiet(e)
    ensures Conserved(Step(w, e))
  {
    var v := Step(w, e);
    assert v.st.records == w.st.records && v.st.vars.lastPub == w.st.vars.lastPub && v.ledger == w.ledger;
  }

  lemma SubmitConserves(w: World, e: Event)
    requires Conserved(w) && Sound(w) && Allowed(w, e) && e.Submit?
    ensures Conserved(Step(w, e))
  {
  }

  lemma DrainStepConserves(w: World)
    requires Conserved(w) && Sound(w) && Allowed(w, Drain) && w.st.vars.ensureGuarantee
    ensures Conserved(Step(w, Drain))
  {
    if w.st.records != [] {
      SumMoves(w.ledger.acked, w.ledger.evicted, w.ledger.lost, Messages(w.st.records[1..]),
               multiset{Parsed(w.st.records[0])});
    }
  }

  lemma RestartConserves(w: World, e: Event)
    requires Conserved(w) && e.Restart?
    ensures Conserved(Step(w, e))
  {
    var v := Step(w, e);
    assert v.st.records == w.st.records && v.st.vars.lastPub == None;
    SumMoves(w.ledger.acked, w.ledger.evicted, w.ledger.lost, Messages(w.st.records), InFlight(w.st));
  }

  lemma MissedConserves(w: World)
    requires Conserved(w) && Sound(w)
    ensures Conserved(Step(w, Missed))
  {
    if w.st.vars.lastPub.Some? {
      var v := WithVars(w, w.st.vars.(pubAckRecvAttempts := 0));
      ConservedFrame(w, v);
      SaveFailedConserves(v);
    }
  }

  lemma StepConserves(w: World, e: Event)
    requires Conserved(w) && Sound(w) && Allowed(w, e) && (e.Drain? ==> w.st.vars.ensureGuarantee)
    ensures Conserved(Step(w, e))
  {
    if w.st.vars.exited && !e.Restart? {
    } else {
      match e
      case SendFailed =>
        if w.st.vars.lastPub.Some? {
          SaveFailedConserves(w);
        }
      case Missed => MissedConserves(w);
      case Receive(p) => ReceiveConserves(w, p);
      case Drain => DrainStepConserves(w);
      case Submit(_, _, _) => SubmitConserves(w, e);
      case Restart(_, _, _, _) => RestartConserves(w, e);
      case _ => QuietStepConserves(w, e);
    }
  }

  lemma {:induction false} RunKeepsSound(w: World, es: seq<Event>)
    requires Sound(w) && AllAllowed(w, es)
    ensures Sound(Exec(w, es))
    decreases |es|
  {
    if es != [] {
      StepKeepsSound(w, es[0]);
      RunKeepsSound(Step(w, es[0]), es[1..]);
    }
  }

  /** The conservation law in every run: no submitted message disappears and none is invented. */
  lemma {:induction false} NoMessageIsLost(w: World, es: seq<Event>)
    requires Conserved(w) && Sound(w) && AllAllowed(w, es) && AckOn(w, es)
    ensures Conserved(Exec(w, es)) && Sound(Exec(w, es))
    decreases |es|
  {
    if es != [] {
      StepConserves(w, es[0]);
      StepKeepsSound(w, es[0]);
      NoMessageIsLost(Step(w, es[0]), es[1..]);
    }
  }

  /** So, after any run, every message submitted up to then can be found. */
  lemma WhereEveryMessageIs(w: World, es: seq<Event>, m: Message)
    requires Conserved(w) && Sound(w) && AllAllowed(w, es) && AckOn(w, es)
    requires m in Exec(w, es).ledger.submitted
    ensures var v := Exec(w, es);
            || m in v.ledger.acked || m in v.ledger.evicted || m in v.ledger.lost
            || v.st.vars.lastPub == Some(m)
            || exists r :: r in v.st.records && r == Record(m)
  {
    NoMessageIsLost(w, es);
    var v := Exec(w, es);
    if m in Messages(v.st.records) {
      MessagesOnly(v.st.records, m);
      var r :| r in v.st.records && Parsed(r) == m;
      GoodLogMember(v.st.records, r);
    }
  }

  function Restarts(es: seq<Event>): nat {
    if es == [] then 0 else (if es[0].Restart? then 1 else 0) + Restarts(es[1..])
  }

  /** A restart loses the message in flight and nothing else; no other event loses any. */
  lemma {:induction false} RestartLosesAtMostOne(w: World, es: seq<Event>)
    ensures |Exec(w, es).ledger.lost| <= |w.ledger.lost| + Restarts(es)
    decreases |es|
  {
    if es != [] {
      var v := Step(w, es[0]);
      assert v.ledger.lost == w.ledger.lost + (if es[0].Restart? then InFlight(w.st) else multiset{});
      RestartLosesAtMostOne(v, es[1..]);
    }
  }

  /** A message counts as acknowledged only when a reply with its identifier arrives while it is in flight
      and its handler row is still live. */
  lemma AckedOnlyByItsReply(w: World, e: Event)
    requires Step(w, e).ledger.acked != w.ledger.acked
    ensures e.Receive? && (e.p.Ack? || e.p.PubRecPacket?) && e.p.id == w.st.vars.pubAckMsgId && (Sound(w) ==> e.p.id != 0)
    ensures w.st.vars.lastPub.Some? && Step(w, e).ledger.acked == w.ledger.acked + multiset{w.st.vars.lastPub.value}
    ensures exists k :: 0 <= k < |w.st.slots| && w.st.slots[k].msgId == e.p.id
  {
    assert w.st.slots[IndexOf(w.st.slots, e.p.id)].msgId == e.p.id;
  }

  /** Eviction needs a full log, and takes the oldest records only until the log is below its limit. */
  lemma EvictedOnlyWhenFull(w: World, e: Event)
    requires Step(w, e).ledger.evicted != w.ledger.evicted
    ensures (e.SendFailed? || e.Missed?) && Size(w.st.records) >= MAX_DATA_LOGGER_SIZE_BYTES
  {
  }

  lemma RebootStaysPending(w: World, e: Event)
    requires w.st.vars.rebootPending && !e.Restart?
    ensures Step(w, e).st.vars.rebootPending
  {
    if e.Receive? && (e.p.Ack? || e.p.PubRecPacket?) {
      FireHandlerCases(w, e.p.id);
    }
  }

  /** Once a message went to the log, nothing is taken out of it before the next restart. */
  lemma {:induction false} NoDrainUntilRestart(w: World, es: seq<Event>)
    requires w.st.vars.rebootPending && AllAllowed(w, es) && Restarts(es) == 0
    ensures Exec(w, es).st.vars.rebootPending && Drain !in es
    decreases |es|
  {
    if es != [] {
      RebootStaysPending(w, es[0]);
      NoDrainUntilRestart(Step(w, es[0]), es[1..]);
    }
  }

  /** With message acknowledgement off, draining takes the record out of the log and tracks it no longer:
      the law holds for a drain exactly when acknowledgement is on (or there is nothing to drain). */
  lemma DrainConserves(w: World)
    requires Conserved(w) && Sound(w) && DrainGateOpen(w.st) && !w.st.vars.exited
    ensures Conserved(Step(w, Drain)) <==> w.st.vars.ensureGuarantee || w.st.records == []
  {
    if w.st.vars.ensureGuarantee {
      DrainStepConserves(w);
    } else if w.st.records != [] {
      var v := Step(w, Drain);
      assert v.ledger.submitted[Parsed(w.st.records[0])] > 0;
    }
  }
}
