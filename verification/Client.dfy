/**
 The client object of instamsg.c as far as guaranteed delivery goes.  Each method is proved to perform
 exactly the events of the step machine in Delivery that its inputs call for.
 */
module Client {
  import opened Common
  import opened LineFiles
  import opened DataLog
  import opened ResultHandlers
  import opened Delivery
  import opened RemainingLength
  import Json
  import PublishCodec

  /** What one call of the packet reader finds: packets, and possibly a broken socket after them. */
  datatype Round = Round(packets: seq<Packet>, broken: bool)

  function NextRound(rounds: seq<Round>): Round {
    if rounds == [] then Round([], false) else rounds[0]
  }

  function Dropped<T>(s: seq<T>, n: nat): seq<T> {
    if n <= |s| then s[n..] else []
  }

  /** The outside world: outcomes of the coming writes (none left: they succeed) and read rounds. */
  class Network {
    var writes: seq<bool>
    var rounds: seq<Round>

    constructor (writes: seq<bool>, rounds: seq<Round>)
      ensures this.writes == writes && this.rounds == rounds
    {
      this.writes, this.rounds := writes, rounds;
    }

    method Write() returns (rc: Status)
      modifies this`writes
      ensures rc == if WriteSucceeds(old(writes)) then SUCCESS else FAILURE
      ensures writes == Dropped(old(writes), 1)
    {
      rc := if writes == [] || writes[0] then SUCCESS else FAILURE;
      writes := if writes == [] then [] else writes[1..];
    }

    method Read() returns (r: Round)
      modifies this`rounds
      ensures r == NextRound(old(rounds)) && rounds == Dropped(old(rounds), 1)
    {
      r := if rounds == [] then Round([], false) else rounds[0];
      rounds := if rounds == [] then [] else rounds[1..];
    }
  }

  predicate WriteSucceeds(writes: seq<bool>) {
    writes == [] || writes[0]
  }

  // ---- The events each operation stands for ----

  function Received(packets: seq<Packet>): seq<Event> {
    seq(|packets|, i requires 0 <= i < |packets| => Receive(packets[i]))
  }

  /** One call of readAndProcessIncomingMQTTPacketsIfAny. */
  function ReadEvents(w: World, rounds: seq<Round>): seq<Event> {
    if w.st.vars.socketCorrupted then []
    else
      var r := NextRound(rounds);
      Received(r.packets) + if r.broken then [SocketBroken] else []
  }

  function RoundsAfterRead(w: World, rounds: seq<Round>): seq<Round> {
    if w.st.vars.socketCorrupted then rounds else Dropped(rounds, 1)
  }

  /** Events of a stretch of the program, the rounds left over, and the number of read calls in it. */
  datatype Stretch = Stretch(events: seq<Event>, rounds: seq<Round>, calls: nat)

  predicate OnlyReads(es: seq<Event>) {
    forall e :: e in es ==> e.Receive? || e.SocketBroken?
  }

  lemma {:induction false} ExecConcat(w: World, a: seq<Event>, b: seq<Event>)
    ensures Exec(w, a + b) == Exec(Exec(w, a), b)
    ensures AllAllowed(w, a + b) <==> AllAllowed(w, a) && AllAllowed(Exec(w, a), b)
    decreases |a|
  {
    if a == [] {
      assert a + b == b;
    } else {
      assert (a + b)[0] == a[0] && (a + b)[1..] == a[1..] + b;
      ExecConcat(Step(w, a[0]), a[1..], b);
    }
  }

  lemma ExecAppend(w: World, a: seq<Event>, e: Event)
    ensures Exec(w, a + [e]) == Step(Exec(w, a), e)
  {
    ExecConcat(w, a, [e]);
    var v := Exec(w, a);
    assert [e][1..] == [];
    assert Exec(v, [e]) == Exec(Step(v, e), []);
  }

  lemma {:induction false} ExitedIgnores(w: World, es: seq<Event>)
    requires w.st.vars.exited && OnlyReads(es)
    ensures Exec(w, es) == w
    decreases |es|
  {
    if es != [] {
      assert es[0] in es;
      ExitedIgnores(Step(w, es[0]), es[1..]);
    }
  }

  /** Reading either completes the message in flight or leaves the wait as it was. */
  lemma {:induction false} ReadsKeepWait(w: World, es: seq<Event>)
    requires OnlyReads(es)
    ensures var v := Exec(w, es);
            v.st.vars.waitingForPuback == WAITING_FOR_PUBACK ==>
              w.st.vars.waitingForPuback == WAITING_FOR_PUBACK && v.st.vars.pubAckRecvAttempts == w.st.vars.pubAckRecvAttempts
    decreases |es|
  {
    if es != [] {
      assert es[0] in es;
      ReadKeepsWait(w, es[0]);
      ReadsKeepWait(Step(w, es[0]), es[1..]);
    }
  }

  lemma ReadKeepsWait(w: World, e: Event)
    requires e.Receive? || e.SocketBroken?
    ensures var v := Step(w, e);
            v.st.vars.waitingForPuback == WAITING_FOR_PUBACK ==>
              w.st.vars.waitingForPuback == WAITING_FOR_PUBACK && v.st.vars.pubAckRecvAttempts == w.st.vars.pubAckRecvAttempts
  {
    if e.Receive? && (e.p.Ack? || e.p.PubRecPacket?) {
      FireHandlerCases(w, e.p.id);
    }
  }

  /** waitForPubAck: read until the wait is over, at most MAX_CYCLES_TO_WAIT_FOR_PUBACK times. */
  function WaitStretch(w: World, rounds: seq<Round>): Stretch
    requires w.st.vars.pubAckRecvAttempts < MAX_CYCLES_TO_WAIT_FOR_PUBACK
    decreases MAX_CYCLES_TO_WAIT_FOR_PUBACK - w.st.vars.pubAckRecvAttempts
  {
    var es := ReadEvents(w, rounds);
    var left := RoundsAfterRead(w, rounds);
    var v := Exec(w, es);
    ReadsKeepWait(w, es);
    if v.st.vars.exited || v.st.vars.waitingForPuback != WAITING_FOR_PUBACK then Stretch(es, left, 1)
    else if v.st.vars.pubAckRecvAttempts + 1 >= MAX_CYCLES_TO_WAIT_FOR_PUBACK then Stretch(es + [Missed], left, 1)
    else
      var more := WaitStretch(Step(v, Missed), left);
      Stretch(es + [Missed] + more.events, more.rounds, more.calls + 1)
  }

  lemma ReadsAllowed(w: World, rounds: seq<Round>)
    ensures AllAllowed(w, ReadEvents(w, rounds)) && OnlyReads(ReadEvents(w, rounds))
  {
    AllowedReads(w, ReadEvents(w, rounds));
  }

  lemma {:induction false} AllowedReads(w: World, es: seq<Event>)
    requires OnlyReads(es)
    ensures AllAllowed(w, es)
    decreases |es|
  {
    if es != [] {
      assert es[0] in es;
      AllowedReads(Step(w, es[0]), es[1..]);
    }
  }

  /** Waiting always ends: the message is acknowledged or in the log, the counter is back at 0, and the
      socket was read at most ten times. */
  lemma {:induction false} WaitEnds(w: World, rounds: seq<Round>)
    requires Sound(w)
    ensures var s := WaitStretch(w, rounds);
            var v := Exec(w, s.events);
            && AllAllowed(w, s.events)
            && s.calls <= MAX_CYCLES_TO_WAIT_FOR_PUBACK - w.st.vars.pubAckRecvAttempts
            && PublishDone(v)
    decreases MAX_CYCLES_TO_WAIT_FOR_PUBACK - w.st.vars.pubAckRecvAttempts
  {
    var es := ReadEvents(w, rounds);
    var left := RoundsAfterRead(w, rounds);
    var v := Exec(w, es);
    ReadsAllowed(w, rounds);
    ReadsKeepWait(w, es);
    RunKeepsSound(w, es);
    if !v.st.vars.exited && v.st.vars.waitingForPuback == WAITING_FOR_PUBACK {
      StepKeepsSound(v, Missed);
      ExecAppend(w, es, Missed);
      ExecConcat(w, es, [Missed]);
      assert AllAllowed(v, [Missed]);
      if v.st.vars.pubAckRecvAttempts + 1 < MAX_CYCLES_TO_WAIT_FOR_PUBACK {
        var u := Step(v, Missed);
        WaitEnds(u, left);
        ExecConcat(w, es + [Missed], WaitStretch(u, left).events);
      }
    }
  }

  // ---- Publishing ----

  /** State of the outside and of the publish counter. */
  datatype Io = Io(writes: seq<bool>, rounds: seq<Round>, publishCount: nat)

  datatype Outcome = Outcome(rc: Status, events: seq<Event>, io: Io, calls: nat)

  predicate FitsPacket(m: Message, qos: nat) {
    PacketLen(PublishCodec.PublishLength(qos, |m.topic|, |m.payload|)) <= MAX_BUFFER_SIZE
  }

  predicate CanWrite(st: State, m: Message, qos: nat) {
    FitsPacket(m, qos) && !st.vars.socketCorrupted && st.vars.connected
  }

  /** The unsigned publish counter. */
  function Counted(publishCount: nat): nat {
    (publishCount + 1) % 0x1_0000_0000
  }

  predicate CompulsoryRead(publishCount: nat, interval: nat) {
    interval != 0 && publishCount % interval == 0
  }

  /** What follows a successful send. */
  function ReplyStretch(w: World, qos: nat, rounds: seq<Round>, publishCount: nat, interval: nat): Stretch
    requires Sound(w)
  {
    var early := CompulsoryRead(publishCount, interval);
    var es := if early then ReadEvents(w, rounds) else [];
    var left := if early then RoundsAfterRead(w, rounds) else rounds;
    ReadsAllowed(w, rounds);
    RunKeepsSound(w, es);
    var v := Exec(w, es);
    if qos == 0 || v.st.vars.exited then Stretch(es, left, if early then 1 else 0)
    else
      var s := WaitStretch(v, left);
      Stretch(es + s.events, s.rounds, s.calls + if early then 1 else 0)
  }

  /** Everything publish does once the message is tracked: send, maybe read, then wait or save. */
  function PublishOutcome(w: World, m: Message, qos: nat, io: Io, interval: nat): Outcome
    requires Sound(w)
  {
    if !CanWrite(w.st, m, qos) then
      Outcome(FAILURE, if qos > 0 then [SendFailed] else [], io, 0)
    else if !WriteSucceeds(io.writes) then
      Outcome(FAILURE, [SocketBroken] + (if qos > 0 then [SendFailed] else []), io.(writes := Dropped(io.writes, 1)), 0)
    else
      var count := Counted(io.publishCount);
      var s := ReplyStretch(w, qos, io.rounds, count, interval);
      Outcome(SUCCESS, s.events, Io(Dropped(io.writes, 1), s.rounds, count), s.calls)
  }

  predicate PublishDone(v: World) {
    || v.st.vars.exited
    || (v.st.vars.waitingForPuback != WAITING_FOR_PUBACK && v.st.vars.lastPub == None && v.st.vars.pubAckRecvAttempts == 0)
  }

  lemma OneEvent(w: World, e: Event)
    ensures Exec(w, [e]) == Step(w, e)
  {
    assert [e] == [] + [e];
    ExecAppend(w, [], e);
  }

  lemma ReplyEnds(w: World, qos: nat, rounds: seq<Round>, publishCount: nat, interval: nat)
    requires Sound(w)
    ensures var s := ReplyStretch(w, qos, rounds, publishCount, interval);
            && AllAllowed(w, s.events) && s.calls <= MAX_CYCLES_TO_WAIT_FOR_PUBACK + 1
            && (qos > 0 ==> PublishDone(Exec(w, s.events)))
  {
    var early := CompulsoryRead(publishCount, interval);
    var es := if early then ReadEvents(w, rounds) else [];
    var left := if early then RoundsAfterRead(w, rounds) else rounds;
    ReadsAllowed(w, rounds);
    RunKeepsSound(w, es);
    var v := Exec(w, es);
    if qos > 0 && !v.st.vars.exited {
      WaitEnds(v, left);
      ExecConcat(w, es, WaitStretch(v, left).events);
    }
  }

  /** Whenever a publish at QoS 1 or 2 is over, nothing is in flight any more; whatever the network did,
      the socket was read at most eleven times (ten of them waiting). */
  lemma PublishEnds(w: World, m: Message, qos: nat, io: Io, interval: nat)
    requires Sound(w) && !w.st.vars.exited
    requires qos > 0 ==> w.st.vars.lastPub == Some(m) && w.st.vars.pubAckRecvAttempts == 0
    ensures var o := PublishOutcome(w, m, qos, io, interval);
            && AllAllowed(w, o.events) && o.calls <= MAX_CYCLES_TO_WAIT_FOR_PUBACK + 1
            && (qos > 0 ==> PublishDone(Exec(w, o.events)))
  {
    if CanWrite(w.st, m, qos) && WriteSucceeds(io.writes) {
      ReplyEnds(w, qos, io.rounds, Counted(io.publishCount), interval);
    } else {
      OneEvent(w, SendFailed);
      OneEvent(w, SocketBroken);
      OneEvent(Step(w, SocketBroken), SendFailed);
      ExecConcat(w, [SocketBroken], [SendFailed]);
      assert AllAllowed(w, [SocketBroken]);
    }
  }

  lemma BegunIsSound(w: World, m: Message, handler: Option<nat>, timeout: nat, drained: bool)
    requires Sound(w) && Sendable(m) && w.st.vars.waitingForPuback != WAITING_FOR_PUBACK
    ensures var v := Begun(w, m, handler, timeout, drained);
            Sound(v) && v.st.vars.lastPub == Some(m) && v.st.vars.pubAckRecvAttempts == 0
  {
  }

  // ---- One turn of the main loop ----

  /** Tracking a message: for a fresh one the ledger counts it as submitted, a drained one was counted before. */
  function Begun(w: World, m: Message, handler: Option<nat>, timeout: nat, drained: bool): World {
    World(Begin(w.st, m, handler, timeout),
          if drained then w.ledger else w.ledger.(submitted := w.ledger.submitted + multiset{m}))
  }

  predicate CanPublish(w: World, m: Message, qos: nat) {
    qos > 0 ==> Sendable(m) && w.st.vars.waitingForPuback != WAITING_FOR_PUBACK
  }

  datatype Finished = Finished(rc: Status, world: World, io: Io)

  /** A publish at QoS `qos`, from its first line to its return. */
  function Published(w: World, m: Message, qos: nat, handler: Option<nat>, timeout: nat, drained: bool,
                     io: Io, interval: nat): Finished
    requires Sound(w) && CanPublish(w, m, qos)
  {
    if qos > 0 then
      BegunIsSound(w, m, handler, timeout, drained);
      var v := Begun(w, m, handler, timeout, drained);
      var o := PublishOutcome(v, m, qos, io, interval);
      Finished(o.rc, Exec(v, o.events), o.io)
    else
      var o := PublishOutcome(w, m, qos, io, interval);
      Finished(o.rc, Exec(w, o.events), o.io)
  }

  function GuaranteeQos(st: State): nat {
    if st.vars.ensureGuarantee then 1 else 0
  }

  /** publishMessageWithDeliveryGuarantee: QoS 1 with the standard callback, or QoS 0 when acknowledgements are off. */
  function Guaranteed(w: World, m: Message, drained: bool, io: Io, interval: nat): Finished
    requires Sound(w) && CanPublish(w, m, GuaranteeQos(w.st))
  {
    if w.st.vars.ensureGuarantee
    then Published(w, m, 1, Some(PUBLISH_ACK_RECEIVED), MQTT_RESULT_HANDLER_TIMEOUT, drained, io, interval)
    else Published(w, m, 0, None, MQTT_RESULT_HANDLER_TIMEOUT, drained, io, interval)
  }

  function OldestTaken(w: World): World
    requires w.st.records != []
  {
    w.(st := w.st.(records := w.st.records[1..]))
  }

  /** The oldest record has room in messageBuffer. */
  lemma OldestFits(w: World)
    requires Sound(w)
    ensures w.st.records != [] ==> |w.st.records[0]| < MAX_BUFFER_SIZE
  {
  }

  lemma OldestIsSendable(w: World)
    requires Sound(w) && w.st.records != []
    ensures Sound(OldestTaken(w)) && Sendable(Parsed(w.st.records[0]))
  {
  }

  /** send_previously_unsent_data: SUCCESS says that there was a record, whatever became of its publish. */
  function Drained(w: World, io: Io, interval: nat): Finished
    requires Sound(w) && w.st.vars.waitingForPuback != WAITING_FOR_PUBACK
  {
    if w.st.records == [] then Finished(FAILURE, w, io)
    else
      OldestIsSendable(w);
      var r := Guaranteed(OldestTaken(w), Parsed(w.st.records[0]), true, io, interval);
      Finished(SUCCESS, r.world, r.io)
  }

  /** The drain gate of the main loop and what is behind it. */
  function GatePassed(w: World, io: Io, interval: nat): Finished
    requires Sound(w)
  {
    if !DrainGateOpen(w.st) then Finished(SUCCESS, w, io)
    else
      var r := Drained(w, io, interval);
      if r.world.st.vars.exited || r.rc == SUCCESS then r else r.(world := Step(r.world, LogExhausted))
  }

  /** The part of a turn done with a working socket: read, drain, and note a pending reboot. */
  function SocketServed(w: World, io: Io, interval: nat): Finished
    requires Sound(w)
  {
    var es := ReadEvents(w, io.rounds);
    ReadsAllowed(w, io.rounds);
    RunKeepsSound(w, es);
    var v := Exec(w, es);
    var left := io.(rounds := RoundsAfterRead(w, io.rounds));
    if v.st.vars.exited then Finished(SUCCESS, v, left)
    else
      var r := GatePassed(v, left, interval);
      if r.world.st.vars.exited then r else r.(world := Step(r.world, StopDraining))
  }

  /** One turn of the inner loop of start, up to the business logic: serve the socket, expire handlers. */
  function Turned(w: World, io: Io, interval: nat): Finished
    requires Sound(w)
  {
    if w.st.vars.socketCorrupted then Finished(SUCCESS, Step(w, Tick), io)
    else
      var r := SocketServed(w, io, interval);
      if r.world.st.vars.exited then r else r.(world := Step(r.world, Tick))
  }

  class InstaMsg {
    const table: HandlerTable
    const logger: DataLogger
    const net: Network
    var vars: Vars
    var publishCount: nat
    var compulsorySocketReadAfterMQTTPublishInterval: nat
    ghost var ledger: Ledger

    ghost function World(): World
      reads this, table, table.slots, logger
    {
      Delivery.World(State(table.slots[..], table.nextPacketId, vars, logger.records), ledger)
    }

    ghost predicate Valid()
      reads this, table, table.slots, logger, logger.disk, net
    {
      && table.Valid() && logger.Valid() && DATA_FILE in logger.disk.files
     
    }

    /** A new process over the records of an earlier run. */
    constructor (disk: Disk, ghost records: seq<string>, net: Network, interval: nat)
      requires DATA_FILE in disk.files && disk.files[DATA_FILE] == Join(records) && TEMP_FILE !in disk.files
      requires GoodLog(records)
      ensures Valid() && Sound(World()) && Conserved(World()) && PublishDone(World()) && logger.records == records
    {
      GoodLogIsClean(records);
      table := new HandlerTable();
      logger := new DataLogger(disk, records);
      this.net := net;
      vars := Vars(0, 0, NOT_WAITING_FOR_PUBACK, None, PERSISTENT_STORAGE, false, true, false, true, false, Ping(false, 0));
      publishCount, compulsorySocketReadAfterMQTTPublishInterval := 0, interval;
      ledger := Ledger(Messages(records), multiset{}, multiset{}, multiset{});
    }

    /** initInstaMsg; `newProcess` says that the globals were zeroed before, `storedAck` is the stored setting of message
        acknowledgement, which the simulated connection reads when the socket is down. */
    method InitInstaMsg(newProcess: bool, socketUp: bool, storedAck: bool)
      requires Valid()
      modifies this`vars, this`ledger, table, table.slots, net`writes
      ensures Valid() && World() == Step(old(World()), Restart(newProcess, socketUp, storedAck, WriteSucceeds(old(net.writes))))
      ensures net.writes == if socketUp then Dropped(old(net.writes), 1) else old(net.writes)
    {
      ConnectFails(World(), newProcess, socketUp, storedAck);
      InitVariables(newProcess, socketUp, storedAck);
      MQTTConnect();
    }

    /** What initInstaMsg does before it connects. */
    method InitVariables(newProcess: bool, socketUp: bool, storedAck: bool)
      requires Valid()
      modifies this`vars, this`ledger, table, table.slots
      ensures Valid() && World() == Step(old(World()), Restart(newProcess, socketUp, storedAck, true))
      ensures vars.socketCorrupted == !socketUp
    {
      ledger := ledger.(lost := ledger.lost + InFlight(World().st));
      if newProcess {
        vars := vars.(pubAckMsgId := 0, msgSource := PERSISTENT_STORAGE, ping := Ping(false, 0));
      }
      vars := vars.(lastPub := None, exited := false, ensureGuarantee := true, socketCorrupted := !socketUp);
      if vars.socketCorrupted {
        vars := vars.(msgSource := GENERAL, ensureGuarantee := storedAck);
      }
      table.Reset();
      vars := vars.(connected := false, pubAckRecvAttempts := 0, waitingForPuback := NOT_WAITING_FOR_PUBACK,
                    rebootPending := false);
    }

    /** MQTTConnect: the CONNECT goes out although there is no connection yet. */
    method MQTTConnect()
      modifies this`vars, net`writes
      ensures vars == if old(vars.socketCorrupted) || WriteSucceeds(old(net.writes)) then old(vars)
                      else old(vars).(socketCorrupted := true)
      ensures net.writes == if old(vars.socketCorrupted) then old(net.writes) else Dropped(old(net.writes), 1)
    {
      if !vars.socketCorrupted {
        var rc := net.Write();
        if rc == FAILURE {
          vars := vars.(socketCorrupted := true);
        }
      }
    }

    method FireResultHandlerAndRemove(msgId: nat)
      requires Valid()
      modifies this`vars, this`ledger, table.slots
      ensures Valid() && World() == FireHandler(old(World()), msgId)
    {
      var found, fp := table.FireResultHandlerAndRemove(msgId);
      if found {
        if fp == None {
          // the call of NULL ends the process
          vars := vars.(exited := true);
        } else if msgId == vars.pubAckMsgId {
          ledger := ledger.(acked := ledger.acked + InFlight(World().st));
          vars := vars.(lastPub := None, waitingForPuback := NOT_WAITING_FOR_PUBACK, pubAckRecvAttempts := 0);
        }
      }
    }

    /** The switch of readAndProcessIncomingMQTTPacketsIfAny. */
    method ProcessPacket(p: Packet)
      requires Valid() && !vars.exited
      modifies this`vars, this`ledger, table.slots
      ensures Valid() && World() == Step(old(World()), Receive(p))
    {
      match p {
        case Ack(id) =>
          FireResultHandlerAndRemove(id);
        case PubRecPacket(id) =>
          FireResultHandlerAndRemove(id);
          if !vars.exited {
            table.AttachResultHandler(id, MQTT_RESULT_HANDLER_TIMEOUT, Some(QOS2_CYCLE_COMPLETED));
          }
        case ShortPubRec =>
          table.AttachResultHandler(NO_MSG_ID, MQTT_RESULT_HANDLER_TIMEOUT, Some(QOS2_CYCLE_COMPLETED));
        case ConnAck(code, messageAckEnabled) =>
          if code == 0 || code == 6 {
            vars := vars.(connected := true, msgSource := PERSISTENT_STORAGE, ensureGuarantee := messageAckEnabled);
          } else {
            vars := vars.(exited := true);
          }
        case PingResp =>
          vars := vars.(ping := vars.ping.(pending := false));
        case OtherPacket =>
      }
    }

    method ReadAndProcessIncomingMQTTPacketsIfAny()
      requires Valid() && !vars.exited
      modifies this`vars, this`ledger, table.slots, net`rounds
      ensures Valid() && World() == Exec(old(World()), ReadEvents(old(World()), old(net.rounds)))
      ensures net.rounds == RoundsAfterRead(old(World()), old(net.rounds))
    {
      ghost var w, rounds := World(), net.rounds;
      ReadsAllowed(w, rounds);
      if vars.socketCorrupted {
        return;
      }
      var round := net.Read();
      assert World() == w;
      var i := 0;
      while i < |round.packets| && !vars.exited
        invariant 0 <= i <= |round.packets| && Valid() && net.rounds == Dropped(rounds, 1)
        invariant World() == Exec(w, Received(round.packets[..i]))
      {
        ProcessPacket(round.packets[i]);
        ExecAppend(w, Received(round.packets[..i]), Receive(round.packets[i]));
        assert Received(round.packets[..i]) + [Receive(round.packets[i])] == Received(round.packets[..i + 1]);
        i := i + 1;
      }
      RoundDone(w, rounds, round, i);
      if !vars.exited && round.broken {
        vars := vars.(socketCorrupted := true);
      }
    }

    /** saveFailedPublishedMessage, called only while a message is tracked. */
    method SaveFailedPublishedMessage()
      requires Valid() && vars.lastPub.Some? && Sendable(vars.lastPub.value)
      modifies this`vars, this`ledger, logger, logger.disk
      ensures Valid() && World() == SaveFailed(old(World()))
    {
      ghost var records := logger.records;
      vars := vars.(rebootPending := true);
      var messageSavingJson := Record(vars.lastPub.value);
      RecordIsClean(vars.lastPub.value);
      logger.SaveRecord(messageSavingJson);
      ledger := ledger.(evicted := ledger.evicted + (Messages(records) - Messages(Evicted(records))));
      vars := vars.(waitingForPuback := PUBACK_TIMEOUT, lastPub := None);
    }

    /** The counting part of the loop in waitForPubAck; `over` says that the message went to the log. */
    method CountMissedRound() returns (over: bool)
      requires Valid() && Sound(World()) && !vars.exited && vars.waitingForPuback == WAITING_FOR_PUBACK
      modifies this`vars, this`ledger, logger, logger.disk
      ensures Valid() && World() == Step(old(World()), Missed)
      ensures over <==> old(vars.pubAckRecvAttempts) + 1 >= MAX_CYCLES_TO_WAIT_FOR_PUBACK
    {
      over := vars.pubAckRecvAttempts + 1 >= MAX_CYCLES_TO_WAIT_FOR_PUBACK;
      vars := vars.(pubAckRecvAttempts := vars.pubAckRecvAttempts + 1);
      if over {
        vars := vars.(pubAckRecvAttempts := 0);
        SaveFailedPublishedMessage();
      }
    }

    /** One turn of the loop in waitForPubAck; `over` says that it is the last one. */
    method WaitTurn() returns (over: bool)
      requires Valid() && Sound(World()) && !vars.exited
      modifies this`vars, this`ledger, table.slots, logger, logger.disk, net`rounds
      ensures Valid() && WaitStep(old(World()), old(net.rounds), World(), net.rounds, over)
    {
      ghost var w, rounds := World(), net.rounds;
      WaitUnfolds(w, rounds);
      ReadAndProcessIncomingMQTTPacketsIfAny();
      if vars.exited || vars.waitingForPuback != WAITING_FOR_PUBACK {
        return true;
      }
      over := CountMissedRound();
    }

    method WaitForPubAck()
      requires Valid() && Sound(World()) && !vars.exited
      modifies this`vars, this`ledger, table.slots, logger, logger.disk, net`rounds
      ensures Valid() && (World(), net.rounds) == WaitResult(old(World()), old(net.rounds))
    {
      ghost var w, rounds := World(), net.rounds;
      while true
        invariant Valid() && !vars.exited && Sound(World())
        invariant WaitResult(w, rounds) == WaitResult(World(), net.rounds)
        decreases MAX_CYCLES_TO_WAIT_FOR_PUBACK - vars.pubAckRecvAttempts
      {
        var over := WaitTurn();
        if over {
          break;
        }
      }
    }

    /** Identifier, tracking variables and handler row of a publish at QoS 1 or 2. */
    method Track(m: Message, resultHandler: Option<nat>, resultHandlerTimeout: nat, ghost drained: bool)
      requires Valid()
      modifies this`vars, this`ledger, table, table.slots
      ensures Valid() && World() == Begun(old(World()), m, resultHandler, resultHandlerTimeout, drained)
    {
      var id := table.GetNextPacketId();
      vars := vars.(pubAckMsgId := id, waitingForPuback := WAITING_FOR_PUBACK, lastPub := Some(m));
      table.AttachResultHandler(id, resultHandlerTimeout, resultHandler);
      if !drained {
        ledger := ledger.(submitted := ledger.submitted + multiset{m});
      }
    }

    /** Serialising the PUBLISH into the global buffer and handing it to the socket (sendPacket). */
    method SendPublish(m: Message, qos: nat) returns (rc: Status)
      requires Valid() && !vars.exited
      modifies this`vars, this`publishCount, net`writes
      ensures Valid()
      ensures !CanWrite(old(World()).st, m, qos) ==>
        rc == FAILURE && World() == old(World()) && net.writes == old(net.writes)
      ensures CanWrite(old(World()).st, m, qos) ==>
        && rc == (if WriteSucceeds(old(net.writes)) then SUCCESS else FAILURE)
        && World() == (if rc == SUCCESS then old(World()) else Step(old(World()), SocketBroken))
        && net.writes == Dropped(old(net.writes), 1)
      ensures publishCount == if rc == SUCCESS then Counted(old(publishCount)) else old(publishCount)
    {
      if PacketLen(PublishCodec.PublishLength(qos, |m.topic|, |m.payload|)) > MAX_BUFFER_SIZE {
        return FAILURE;
      }
      if vars.socketCorrupted || !vars.connected {
        return FAILURE;
      }
      rc := net.Write();
      if rc == FAILURE {
        vars := vars.(socketCorrupted := true);
      } else {
        publishCount := (publishCount + 1) % 0x1_0000_0000;
      }
    }

    /** The compulsory read after every so many publishes, then the wait for the acknowledgement. */
    method AwaitReply(qos: nat)
      requires Valid() && Sound(World()) && !vars.exited
      modifies this`vars, this`ledger, table.slots, logger, logger.disk, net`rounds
      ensures Valid()
      ensures var s := ReplyStretch(old(World()), qos, old(net.rounds), publishCount, compulsorySocketReadAfterMQTTPublishInterval);
              World() == Exec(old(World()), s.events) && net.rounds == s.rounds
    {
      ghost var w, rounds := World(), net.rounds;
      ReadsAllowed(w, rounds);
      if compulsorySocketReadAfterMQTTPublishInterval != 0 {
        if publishCount % compulsorySocketReadAfterMQTTPublishInterval == 0 {
          RunKeepsSound(w, ReadEvents(w, rounds));
          ReadAndProcessIncomingMQTTPacketsIfAny();
        }
      }
      ghost var v, left := World(), net.rounds;
      if qos > 0 && !vars.exited {
        WaitForPubAck();
        ExecConcat(w, if CompulsoryRead(publishCount, compulsorySocketReadAfterMQTTPublishInterval) then ReadEvents(w, rounds) else [],
                   WaitStretch(v, left).events);
      }
    }

    /** The outside and the counter, as one value. */
    ghost function Outside(): Io
      reads this`publishCount, net
    {
      Io(net.writes, net.rounds, publishCount)
    }

    /** What publish does after tracking the message. */
    method SendAndAwait(m: Message, qos: nat) returns (rc: Status)
      requires Valid() && Sound(World()) && !vars.exited
      requires qos > 0 ==> vars.lastPub == Some(m) && Sendable(m) && vars.pubAckRecvAttempts == 0
      modifies this`vars, this`ledger, this`publishCount, table.slots, logger, logger.disk, net
      ensures Valid()
      ensures var o := PublishOutcome(old(World()), m, qos, old(Outside()), compulsorySocketReadAfterMQTTPublishInterval);
              rc == o.rc && World() == Exec(old(World()), o.events) && Outside() == o.io
    {
      ghost var w, io := World(), Outside();
      FailedSend(w, m, qos, io, compulsorySocketReadAfterMQTTPublishInterval);
      rc := SendPublish(m, qos);
      if rc == SUCCESS {
        AwaitReply(qos);
      } else if qos > 0 {
        SaveFailedPublishedMessage();
      }
    }

    /** publish.  In-flight invariant: whatever the network did, nothing is tracked any more when it returns. */
    method Publish(m: Message, qos: nat, resultHandler: Option<nat>, resultHandlerTimeout: nat, ghost drained: bool)
      returns (rc: Status)
      requires Valid() && Sound(World()) && !vars.exited && CanPublish(World(), m, qos)
      modifies this`vars, this`ledger, this`publishCount, table, table.slots, logger, logger.disk, net
      ensures Valid()
      ensures Finished(rc, World(), Outside())
           == Published(old(World()), m, qos, resultHandler, resultHandlerTimeout, drained, old(Outside()),
                        compulsorySocketReadAfterMQTTPublishInterval)
      ensures qos > 0 ==> PublishDone(World())
    {
      if qos > 0 {
        BegunIsSound(World(), m, resultHandler, resultHandlerTimeout, drained);
        Track(m, resultHandler, resultHandlerTimeout, drained);
        PublishEnds(World(), m, qos, Outside(), compulsorySocketReadAfterMQTTPublishInterval);
      }
      rc := SendAndAwait(m, qos);
    }

    method PublishMessageWithDeliveryGuarantee(m: Message, ghost drained: bool) returns (rc: Status)
      requires Valid() && Sound(World()) && !vars.exited && CanPublish(World(), m, GuaranteeQos(World().st))
      modifies this`vars, this`ledger, this`publishCount, table, table.slots, logger, logger.disk, net
      ensures Valid()
      ensures Finished(rc, World(), Outside())
           == Guaranteed(old(World()), m, drained, old(Outside()), compulsorySocketReadAfterMQTTPublishInterval)
    {
      if !vars.ensureGuarantee {
        rc := Publish(m, 0, None, MQTT_RESULT_HANDLER_TIMEOUT, drained);
      } else {
        rc := Publish(m, 1, Some(PUBLISH_ACK_RECEIVED), MQTT_RESULT_HANDLER_TIMEOUT, drained);
      }
    }

    method SendPreviouslyUnsentData() returns (rc: Status)
      requires Valid() && Sound(World()) && !vars.exited && vars.waitingForPuback != WAITING_FOR_PUBACK
      modifies this`vars, this`ledger, this`publishCount, table, table.slots, logger, logger.disk, net
      ensures Valid()
      ensures Finished(rc, World(), Outside())
           == Drained(old(World()), old(Outside()), compulsorySocketReadAfterMQTTPublishInterval)
    {
      ghost var w := World();
      var messageBuffer, overrun;
      rc, messageBuffer, overrun := logger.GetNextRecord(MAX_BUFFER_SIZE);
      OldestFits(w);
      assert !overrun;
      if rc == SUCCESS {
        var topic := Json.GetJsonKeyValueIfPresent(messageBuffer, "topic", "");
        var payload := Json.GetJsonKeyValueIfPresent(messageBuffer, "payload", "");
        assert messageBuffer == w.st.records[0] && World() == OldestTaken(w);
        assert Message(topic, payload) == Parsed(messageBuffer);
        OldestIsSendable(w);
        var _ := PublishMessageWithDeliveryGuarantee(Message(topic, payload), true);
      }
    }

    method DrainIfGateOpen()
      requires Valid() && Sound(World()) && !vars.exited
      modifies this`vars, this`ledger, this`publishCount, table, table.slots, logger, logger.disk, net
      ensures Valid()
      ensures var r := GatePassed(old(World()), old(Outside()), compulsorySocketReadAfterMQTTPublishInterval);
              World() == r.world && Outside() == r.io
    {
      if vars.msgSource == PERSISTENT_STORAGE && vars.waitingForPuback != WAITING_FOR_PUBACK && !vars.rebootPending {
        var retrieved := SendPreviouslyUnsentData();
        if retrieved != SUCCESS && !vars.exited {
          vars := vars.(msgSource := GENERAL);
        }
      }
    }

    /** What follows the read: the gate, and closing it when a reboot is due. */
    method DrainAndCloseGate()
      requires Valid() && Sound(World()) && !vars.exited
      modifies this`vars, this`ledger, this`publishCount, table, table.slots, logger, logger.disk, net
      ensures Valid()
      ensures var r := GatePassed(old(World()), old(Outside()), compulsorySocketReadAfterMQTTPublishInterval);
              World() == (if r.world.st.vars.exited then r.world else Step(r.world, StopDraining)) && Outside() == r.io
    {
      DrainIfGateOpen();
      if !vars.exited && vars.rebootPending {
        vars := vars.(msgSource := GENERAL);
      }
    }

    method ServeSocket()
      requires Valid() && Sound(World()) && !vars.exited
      modifies this`vars, this`ledger, this`publishCount, table, table.slots, logger, logger.disk, net
      ensures Valid()
      ensures var r := SocketServed(old(World()), old(Outside()), compulsorySocketReadAfterMQTTPublishInterval);
              World() == r.world && Outside() == r.io
    {
      ReadsAllowed(World(), net.rounds);
      RunKeepsSound(World(), ReadEvents(World(), net.rounds));
      ReadAndProcessIncomingMQTTPacketsIfAny();
      if !vars.exited {
        DrainAndCloseGate();
      }
    }

    /** The counting part of the loop in waitForPingResp. */
    method CountMissedPing() returns (over: bool)
      requires Valid() && !vars.exited && vars.ping.pending
      modifies this`vars
      ensures Valid() && World() == Step(old(World()), PingMissed) && vars == PingRoundMissed(old(vars))
      ensures over <==> old(vars.ping.attempts) + 1 >= MAX_CYCLES_TO_WAIT_FOR_PINGRESP
    {
      PingSteps(World());
      vars := vars.(ping := vars.ping.(attempts := vars.ping.attempts + 1));
      over := vars.ping.attempts >= MAX_CYCLES_TO_WAIT_FOR_PINGRESP;
      if over {
        vars := vars.(ping := vars.ping.(attempts := 0), rebootPending := true);
      }
    }

    /** One turn of the loop in waitForPingResp; `over` says that it is the last one. */
    method PingTurn() returns (over: bool)
      requires Valid() && Sound(World()) && !vars.exited
      modifies this`vars, this`ledger, table.slots, net`rounds
      ensures Valid() && PingStep(old(World()), old(net.rounds), World(), net.rounds, over)
    {
      ghost var w, rounds := World(), net.rounds;
      PingUnfolds(w, rounds);
      ReadAndProcessIncomingMQTTPacketsIfAny();
      if vars.exited || !vars.ping.pending {
        return true;
      }
      over := CountMissedPing();
    }

    method WaitForPingResp()
      requires Valid() && Sound(World()) && !vars.exited
      modifies this`vars, this`ledger, table.slots, net`rounds
      ensures Valid() && (World(), net.rounds) == PingResult(old(World()), old(net.rounds))
    {
      ghost var w, rounds := World(), net.rounds;
      while true
        invariant Valid() && !vars.exited && Sound(World())
        invariant PingResult(w, rounds) == PingResult(World(), net.rounds)
        decreases MAX_CYCLES_TO_WAIT_FOR_PINGRESP - vars.ping.attempts
      {
        var over := PingTurn();
        if over {
          break;
        }
      }
    }

    method SendPingReqToServer()
      requires Valid() && Sound(World()) && !vars.exited
      modifies this`vars, this`ledger, table.slots, net
      ensures Valid() && World() == Exec(old(World()), PingEvents(old(World()), old(Outside())))
    {
      if vars.socketCorrupted {
        return;
      }
      PingSentOff(World(), Outside());
      SendPing();
      WaitForPingResp();
    }

    /** The PINGREQ itself, which sendPacket drops without a connection. */
    method SendPing()
      requires Valid() && !vars.exited && !vars.socketCorrupted
      modifies this`vars, net`writes
      ensures Valid() && World() == Pinged(old(World()), old(Outside())) && !vars.exited
    {
      vars := vars.(ping := vars.ping.(pending := true));
      if vars.connected {
        var rc := net.Write();
        if rc == FAILURE {
          vars := vars.(socketCorrupted := true);
        }
      }
    }

    method MainLoopTurn()
      requires Valid() && Sound(World()) && !vars.exited
      modifies this`vars, this`ledger, this`publishCount, table, table.slots, logger, logger.disk, net
      ensures Valid()
      ensures var r := Turned(old(World()), old(Outside()), compulsorySocketReadAfterMQTTPublishInterval);
              World() == r.world && Outside() == r.io
    {
      if !vars.socketCorrupted {
        ServeSocket();
        if vars.exited {
          return;
        }
      }
      table.RemoveExpiredResultHandlers();
    }
  }

  /** What a publish that could not be sent does. */
  lemma FailedSend(w: World, m: Message, qos: nat, io: Io, interval: nat)
    requires Sound(w) && !w.st.vars.exited
    ensures var o := PublishOutcome(w, m, qos, io, interval);
            var v := if CanWrite(w.st, m, qos) then Step(w, SocketBroken) else w;
            !CanWrite(w.st, m, qos) || !WriteSucceeds(io.writes) ==>
              o.rc == FAILURE && Exec(w, o.events) == if qos > 0 then SaveFailed(v) else v
  {
    OneEvent(w, SocketBroken);
    OneEvent(w, SendFailed);
    OneEvent(Step(w, SocketBroken), SendFailed);
    ExecConcat(w, [SocketBroken], [SendFailed]);
    assert [SocketBroken] + [] == [SocketBroken];
  }

  /** The world when waiting is over, and the rounds not read. */
  function WaitResult(w: World, rounds: seq<Round>): (World, seq<Round>)
    requires Sound(w)
  {
    var s := WaitStretch(w, rounds);
    (Exec(w, s.events), s.rounds)
  }

  /** A turn of the waiting loop went from `w` to `u`: it was the last one, or the rest of the wait lies ahead. */
  predicate WaitStep(w: World, rounds: seq<Round>, u: World, left: seq<Round>, over: bool)
    requires Sound(w)
  {
    if over then WaitResult(w, rounds) == (u, left)
    else
      && Sound(u) && !u.st.vars.exited && u.st.vars.pubAckRecvAttempts == w.st.vars.pubAckRecvAttempts + 1
      && WaitResult(w, rounds) == WaitResult(u, left)
  }

  /** One turn of the waiting loop. */
  lemma WaitUnfolds(w: World, rounds: seq<Round>)
    requires Sound(w)
    ensures var v, left := Exec(w, ReadEvents(w, rounds)), RoundsAfterRead(w, rounds);
            var u := Step(v, Missed);
            && Sound(v)
            && (v.st.vars.exited || v.st.vars.waitingForPuback != WAITING_FOR_PUBACK ==>
                  WaitResult(w, rounds) == (v, left))
            && (!v.st.vars.exited && v.st.vars.waitingForPuback == WAITING_FOR_PUBACK ==>
                  && v.st.vars.pubAckRecvAttempts == w.st.vars.pubAckRecvAttempts && Sound(u)
                  && (v.st.vars.pubAckRecvAttempts + 1 >= MAX_CYCLES_TO_WAIT_FOR_PUBACK ==>
                        WaitResult(w, rounds) == (u, left))
                  && (v.st.vars.pubAckRecvAttempts + 1 < MAX_CYCLES_TO_WAIT_FOR_PUBACK ==>
                        u.st.vars.pubAckRecvAttempts == v.st.vars.pubAckRecvAttempts + 1 && !u.st.vars.exited &&
                        WaitResult(w, rounds) == WaitResult(u, left)))
  {
    var es, left := ReadEvents(w, rounds), RoundsAfterRead(w, rounds);
    var v := Exec(w, es);
    ReadsAllowed(w, rounds);
    ReadsKeepWait(w, es);
    RunKeepsSound(w, es);
    if !v.st.vars.exited && v.st.vars.waitingForPuback == WAITING_FOR_PUBACK {
      StepKeepsSound(v, Missed);
      ExecAppend(w, es, Missed);
      if v.st.vars.pubAckRecvAttempts + 1 < MAX_CYCLES_TO_WAIT_FOR_PUBACK {
        ExecConcat(w, es + [Missed], WaitStretch(Step(v, Missed), left).events);
      }
    }
  }

  /** Once the process has exited, the rest of a round is ignored. */
  lemma RoundCutShort(w: World, es: seq<Event>, i: nat)
    requires i <= |es| && OnlyReads(es) && Exec(w, es[..i]).st.vars.exited
    ensures Exec(w, es) == Exec(w, es[..i])
  {
    ExecConcat(w, es[..i], es[i..]);
    assert es[..i] + es[i..] == es;
    ExitedIgnores(Exec(w, es[..i]), es[i..]);
  }

  /** After `i` packets of a round the rest of it is ignored, or only the broken socket is left. */
  lemma RoundDone(w: World, rounds: seq<Round>, round: Round, i: nat)
    requires !w.st.vars.socketCorrupted && round == NextRound(rounds) && i <= |round.packets|
    requires Exec(w, Received(round.packets[..i])).st.vars.exited || i == |round.packets|
    ensures var v := Exec(w, Received(round.packets[..i]));
            Exec(w, ReadEvents(w, rounds)) == if !v.st.vars.exited && round.broken then Step(v, SocketBroken) else v
  {
    var es := ReadEvents(w, rounds);
    assert es[..i] == Received(round.packets[..i]);
    if Exec(w, es[..i]).st.vars.exited {
      RoundCutShort(w, es, i);
    } else if round.broken {
      assert es == es[..i] + [SocketBroken];
      ExecAppend(w, es[..i], SocketBroken);
    } else {
      assert es == es[..i];
    }
  }

  lemma {:induction false} GoodLogIsClean(records: seq<string>)
    requires GoodLog(records)
    ensures AllClean(records)
  {
    if records != [] {
      RecordIsClean(Parsed(records[0]));
      GoodLogIsClean(records[1..]);
      assert forall l :: l in records ==> l == records[0] || l in records[1..];
    }
  }

  // ---- Pings ----

  /** waitForPingResp: read until the PINGRESP is there, at most MAX_CYCLES_TO_WAIT_FOR_PINGRESP times. */
  function PingStretch(w: World, rounds: seq<Round>): Stretch
    requires w.st.vars.ping.attempts < MAX_CYCLES_TO_WAIT_FOR_PINGRESP
    decreases MAX_CYCLES_TO_WAIT_FOR_PINGRESP - w.st.vars.ping.attempts
  {
    var es := ReadEvents(w, rounds);
    var left := RoundsAfterRead(w, rounds);
    var v := Exec(w, es);
    ReadsAllowed(w, rounds);
    ReadsKeepPings(w, es);
    if v.st.vars.exited || !v.st.vars.ping.pending then Stretch(es, left, 1)
    else if v.st.vars.ping.attempts + 1 >= MAX_CYCLES_TO_WAIT_FOR_PINGRESP then Stretch(es + [PingMissed], left, 1)
    else
      var more := PingStretch(Step(v, PingMissed), left);
      Stretch(es + [PingMissed] + more.events, more.rounds, more.calls + 1)
  }

  /** Reading never changes the count of missed rounds, not even reading a PINGRESP. */
  lemma {:induction false} ReadsKeepPings(w: World, es: seq<Event>)
    requires OnlyReads(es)
    ensures Exec(w, es).st.vars.ping.attempts == w.st.vars.ping.attempts
    decreases |es|
  {
    if es != [] {
      assert es[0] in es;
      ReadKeepsPings(w, es[0]);
      ReadsKeepPings(Step(w, es[0]), es[1..]);
    }
  }

  lemma ReadKeepsPings(w: World, e: Event)
    requires e.Receive? || e.SocketBroken?
    ensures Step(w, e).st.vars.ping.attempts == w.st.vars.ping.attempts
  {
    if e.Receive? && (e.p.Ack? || e.p.PubRecPacket?) {
      FireHandlerCases(w, e.p.id);
    }
  }

  function PingResult(w: World, rounds: seq<Round>): (World, seq<Round>)
    requires Sound(w)
  {
    var s := PingStretch(w, rounds);
    (Exec(w, s.events), s.rounds)
  }

  /** A turn of the loop went from `w` to `u`: it was the last one, or the rest of the wait lies ahead. */
  predicate PingStep(w: World, rounds: seq<Round>, u: World, left: seq<Round>, over: bool)
    requires Sound(w)
  {
    if over then PingResult(w, rounds) == (u, left)
    else
      && Sound(u) && !u.st.vars.exited && u.st.vars.ping.attempts == w.st.vars.ping.attempts + 1
      && PingResult(w, rounds) == PingResult(u, left)
  }

  lemma PingUnfolds(w: World, rounds: seq<Round>)
    requires Sound(w)
    ensures var v, left := Exec(w, ReadEvents(w, rounds)), RoundsAfterRead(w, rounds);
            var u := Step(v, PingMissed);
            && Sound(v) && v.st.vars.ping.attempts == w.st.vars.ping.attempts
            && (v.st.vars.exited || !v.st.vars.ping.pending ==> PingResult(w, rounds) == (v, left))
            && (!v.st.vars.exited && v.st.vars.ping.pending ==>
                  if v.st.vars.ping.attempts + 1 >= MAX_CYCLES_TO_WAIT_FOR_PINGRESP then PingResult(w, rounds) == (u, left)
                  else Sound(u) && PingResult(w, rounds) == PingResult(u, left))
  {
    var es, left := ReadEvents(w, rounds), RoundsAfterRead(w, rounds);
    var v := Exec(w, es);
    ReadsAllowed(w, rounds);
    ReadsKeepPings(w, es);
    RunKeepsSound(w, es);
    if !v.st.vars.exited && v.st.vars.ping.pending {
      StepKeepsSound(v, PingMissed);
      ExecAppend(w, es, PingMissed);
      if v.st.vars.ping.attempts + 1 < MAX_CYCLES_TO_WAIT_FOR_PINGRESP {
        ExecConcat(w, es + [PingMissed], PingStretch(Step(v, PingMissed), left).events);
      }
    }
  }

  /** The world behind a PINGREQ: without a connection nothing is written, and the answer is waited for all the same. */
  function Pinged(w: World, io: Io): World {
    var v := Step(w, PingSent);
    if w.st.vars.connected && !WriteSucceeds(io.writes) then Step(v, SocketBroken) else v
  }

  function PingStart(w: World, io: Io): seq<Event> {
    [PingSent] + if w.st.vars.connected && !WriteSucceeds(io.writes) then [SocketBroken] else []
  }

  /** sendPingReqToServer */
  function PingEvents(w: World, io: Io): seq<Event>
    requires Sound(w)
  {
    if w.st.vars.socketCorrupted then []
    else
      PingSentOff(w, io);
      PingStart(w, io) + PingStretch(Pinged(w, io), io.rounds).events
  }

  lemma PingSentOff(w: World, io: Io)
    requires Sound(w)
    ensures Sound(Pinged(w, io)) && Exec(w, PingStart(w, io)) == Pinged(w, io)
    ensures Exec(w, PingStart(w, io) + PingStretch(Pinged(w, io), io.rounds).events)
         == Exec(Pinged(w, io), PingStretch(Pinged(w, io), io.rounds).events)
  {
    StepKeepsSound(w, PingSent);
    var v := Step(w, PingSent);
    StepKeepsSound(v, SocketBroken);
    OneEvent(w, PingSent);
    ExecAppend(w, [PingSent], SocketBroken);
    assert [PingSent] + [] == [PingSent];
    ExecConcat(w, PingStart(w, io), PingStretch(Pinged(w, io), io.rounds).events);
  }

  /** The events of a ping: reads, and its own. */
  predicate PingsAndReads(es: seq<Event>) {
    forall e :: e in es ==> e.Receive? || e.SocketBroken? || e.PingSent? || e.PingMissed?
  }

  lemma {:induction false} StretchPingsAndReads(w: World, rounds: seq<Round>)
    requires w.st.vars.ping.attempts < MAX_CYCLES_TO_WAIT_FOR_PINGRESP
    ensures PingsAndReads(PingStretch(w, rounds).events)
    decreases MAX_CYCLES_TO_WAIT_FOR_PINGRESP - w.st.vars.ping.attempts
  {
    var es := ReadEvents(w, rounds);
    var v, left := Exec(w, es), RoundsAfterRead(w, rounds);
    ReadsAllowed(w, rounds);
    ReadsKeepPings(w, es);
    if !v.st.vars.exited && v.st.vars.ping.pending && v.st.vars.ping.attempts + 1 < MAX_CYCLES_TO_WAIT_FOR_PINGRESP {
      PingSteps(v);
      StretchPingsAndReads(Step(v, PingMissed), left);
    }
  }

  /** The wait for the answer always ends, after at most ten read rounds: with the answer, with a reboot pending, or with
      the end of the process. */
  lemma {:induction false} PingEnds(w: World, rounds: seq<Round>)
    requires Sound(w)
    ensures var s := PingStretch(w, rounds);
            var v := Exec(w, s.events).st.vars;
            && s.calls <= MAX_CYCLES_TO_WAIT_FOR_PINGRESP - w.st.vars.ping.attempts
            && (v.exited || !v.ping.pending || (v.rebootPending && v.ping.attempts == 0))
    decreases MAX_CYCLES_TO_WAIT_FOR_PINGRESP - w.st.vars.ping.attempts
  {
    var v, left := Exec(w, ReadEvents(w, rounds)), RoundsAfterRead(w, rounds);
    PingUnfolds(w, rounds);
    if !v.st.vars.exited && v.st.vars.ping.pending {
      PingSteps(v);
      if v.st.vars.ping.attempts + 1 < MAX_CYCLES_TO_WAIT_FOR_PINGRESP {
        PingEnds(Step(v, PingMissed), left);
      }
    }
  }

  /** They are allowed at any time, and put nothing in flight. */
  lemma {:induction false} PingsKeepDone(w: World, es: seq<Event>)
    requires PingsAndReads(es) && Sound(w)
    ensures AllAllowed(w, es) && AckOn(w, es) && Restarts(es) == 0
    ensures PublishDone(w) ==> PublishDone(Exec(w, es))
    decreases |es|
  {
    if es != [] {
      assert es[0] in es;
      StepKeepsSound(w, es[0]);
      if es[0].Receive? || es[0].SocketBroken? {
        OneEvent(w, es[0]);
        if PublishDone(w) {
          ReadsKeepDone(w, [es[0]]);
        }
      }
      PingsKeepDone(Step(w, es[0]), es[1..]);
    }
  }

  /** A ping and the wait for its answer are a run that leaves nothing in flight. */
  lemma PingIsRun(w: World, io: Io)
    requires Sound(w) && PublishDone(w)
    ensures var v := Exec(w, PingEvents(w, io));
            IsRun(w, PingEvents(w, io), v, true) && PublishDone(v)
  {
    if !w.st.vars.socketCorrupted {
      PingSentOff(w, io);
      StretchPingsAndReads(Pinged(w, io), io.rounds);
      PingsKeepDone(w, PingEvents(w, io));
    } else {
      PingsKeepDone(w, []);
    }
  }

  /** Pings that are answered one round late. */
  function LatePings(n: nat): seq<Event> {
    if n == 0 then [] else [PingSent, PingMissed, Receive(PingResp)] + LatePings(n - 1)
  }

  /** One of them: the count goes up, or a reboot is due. */
  function LatePing(w: World): World {
    var vars := PingRoundMissed(w.st.vars.(ping := w.st.vars.ping.(pending := true)));
    WithVars(w, vars.(ping := vars.ping.(pending := false)))
  }

  lemma LatePingSteps(w: World)
    requires !w.st.vars.exited
    ensures Step(Step(Step(w, PingSent), PingMissed), Receive(PingResp)) == LatePing(w)
  {
    PingSteps(w);
    PingSteps(Step(w, PingSent));
    PingSteps(Step(Step(w, PingSent), PingMissed));
  }

  lemma LatePingCounts(w: World)
    requires Sound(w) && !w.st.vars.exited
    ensures var v := LatePing(w);
            && Sound(v) && !v.st.vars.exited
            && (if w.st.vars.ping.attempts + 1 >= MAX_CYCLES_TO_WAIT_FOR_PINGRESP then v.st.vars.rebootPending
                else v.st.vars.ping.attempts == w.st.vars.ping.attempts + 1 && v.st.vars.rebootPending == w.st.vars.rebootPending)
  {
    SoundFrame(w, LatePing(w));
  }

  /** The answer does not reset the count, so that rounds missed by different pings add up: a reboot becomes due with the
      tenth of them although every ping was answered. */
  lemma {:induction false} AnsweredPingsForceReboot(w: World, n: nat)
    requires Sound(w) && !w.st.vars.exited && !w.st.vars.rebootPending
    requires n <= MAX_CYCLES_TO_WAIT_FOR_PINGRESP - w.st.vars.ping.attempts
    ensures Exec(w, LatePings(n)).st.vars.rebootPending <==> n == MAX_CYCLES_TO_WAIT_FOR_PINGRESP - w.st.vars.ping.attempts
    decreases n
  {
    if n > 0 {
      LatePingCounts(w);
      OneLatePing(w, LatePings(n - 1));
      if w.st.vars.ping.attempts + 1 < MAX_CYCLES_TO_WAIT_FOR_PINGRESP {
        AnsweredPingsForceReboot(LatePing(w), n - 1);
      }
    }
  }

  lemma OneLatePing(w: World, more: seq<Event>)
    requires !w.st.vars.exited
    ensures Exec(w, [PingSent, PingMissed, Receive(PingResp)] + more) == Exec(LatePing(w), more)
  {
    LatePingSteps(w);
    OneEvent(w, PingSent);
    ExecAppend(w, [PingSent], PingMissed);
    ExecAppend(w, [PingSent] + [PingMissed], Receive(PingResp));
    assert [PingSent] + [PingMissed] + [Receive(PingResp)] == [PingSent, PingMissed, Receive(PingResp)];
    ExecConcat(w, [PingSent, PingMissed, Receive(PingResp)], more);
  }

  // ---- Operations are allowed runs ----

  /** The events inside a publish: no message enters, none is drained, nothing restarts. */
  predicate Inner(es: seq<Event>) {
    forall e :: e in es ==> e.Receive? || e.SocketBroken? || e.Missed? || e.SendFailed?
  }

  lemma {:induction false} InnerAckOn(w: World, es: seq<Event>)
    requires Inner(es)
    ensures AckOn(w, es) && Restarts(es) == 0
    decreases |es|
  {
    if es != [] {
      assert es[0] in es;
      InnerAckOn(Step(w, es[0]), es[1..]);
    }
  }

  lemma {:induction false} WaitIsInner(w: World, rounds: seq<Round>)
    requires Sound(w)
    ensures Inner(WaitStretch(w, rounds).events)
    decreases MAX_CYCLES_TO_WAIT_FOR_PUBACK - w.st.vars.pubAckRecvAttempts
  {
    var v, left := Exec(w, ReadEvents(w, rounds)), RoundsAfterRead(w, rounds);
    WaitUnfolds(w, rounds);
    if !v.st.vars.exited && v.st.vars.waitingForPuback == WAITING_FOR_PUBACK &&
       v.st.vars.pubAckRecvAttempts + 1 < MAX_CYCLES_TO_WAIT_FOR_PUBACK {
      WaitIsInner(Step(v, Missed), left);
    }
  }

  lemma PublishIsInner(w: World, m: Message, qos: nat, io: Io, interval: nat)
    requires Sound(w)
    ensures Inner(PublishOutcome(w, m, qos, io, interval).events)
  {
    if CanWrite(w.st, m, qos) && WriteSucceeds(io.writes) {
      var early := CompulsoryRead(Counted(io.publishCount), interval);
      var es := if early then ReadEvents(w, io.rounds) else [];
      ReadsAllowed(w, io.rounds);
      RunKeepsSound(w, es);
      WaitIsInner(Exec(w, es), if early then RoundsAfterRead(w, io.rounds) else io.rounds);
    }
  }

  lemma ReadsKeepDone(w: World, es: seq<Event>)
    requires Sound(w) && PublishDone(w) && OnlyReads(es)
    ensures PublishDone(Exec(w, es))
  {
    AllowedReads(w, es);
    RunKeepsSound(w, es);
    if w.st.vars.exited {
      ExitedIgnores(w, es);
    } else {
      ReadsKeepWait(w, es);
    }
  }

  lemma Qos0OnlyReads(w: World, m: Message, io: Io, interval: nat)
    requires Sound(w)
    ensures OnlyReads(PublishOutcome(w, m, 0, io, interval).events)
  {
    ReadsAllowed(w, io.rounds);
  }

  /** A run without a restart that ends in `v`; `ack` says that acknowledgement was on whenever it drained the log. */
  predicate IsRun(w: World, es: seq<Event>, v: World, ack: bool) {
    AllAllowed(w, es) && Exec(w, es) == v && Restarts(es) == 0 && (ack ==> AckOn(w, es))
  }

  lemma RunThen(w: World, a: seq<Event>, v: World, b: seq<Event>, u: World, ack: bool)
    requires IsRun(w, a, v, ack) && IsRun(v, b, u, ack)
    ensures IsRun(w, a + b, u, ack)
  {
    ExecConcat(w, a, b);
    AckOnConcat(w, a, b);
  }

  lemma {:induction false} AckOnConcat(w: World, a: seq<Event>, b: seq<Event>)
    ensures AckOn(w, a + b) <==> AckOn(w, a) && AckOn(Exec(w, a), b)
    ensures Restarts(a + b) == Restarts(a) + Restarts(b)
    decreases |a|
  {
    if a == [] {
      assert a + b == b;
    } else {
      assert (a + b)[0] == a[0] && (a + b)[1..] == a[1..] + b;
      AckOnConcat(Step(w, a[0]), a[1..], b);
    }
  }

  /** One event as a run. */
  lemma EventIsRun(w: World, e: Event)
    requires Allowed(w, e) && !e.Restart?
    ensures IsRun(w, [e], Step(w, e), w.st.vars.ensureGuarantee || !e.Drain?)
  {
    OneEvent(w, e);
    assert [e][1..] == [];
  }

  lemma InnerIsRun(w: World, es: seq<Event>)
    requires Inner(es) && AllAllowed(w, es)
    ensures IsRun(w, es, Exec(w, es), true)
  {
    InnerAckOn(w, es);
  }

  /** The events of a publish: the submission, at QoS 1 and 2, then what the network makes of it. */
  function PublishedEvents(w: World, m: Message, qos: nat, handler: Option<nat>, timeout: nat, io: Io, interval: nat): seq<Event>
    requires Sound(w) && CanPublish(w, m, qos)
  {
    if qos > 0 then
      BegunIsSound(w, m, handler, timeout, false);
      [Submit(m, handler, timeout)] + PublishOutcome(Begun(w, m, handler, timeout, false), m, qos, io, interval).events
    else PublishOutcome(w, m, qos, io, interval).events
  }

  /** A publish at any QoS is a run that ends with nothing in flight. */
  lemma PublishedIsRun(w: World, m: Message, qos: nat, handler: Option<nat>, timeout: nat, io: Io, interval: nat)
    requires Sound(w) && !w.st.vars.exited && CanPublish(w, m, qos)
    ensures var r := Published(w, m, qos, handler, timeout, false, io, interval);
            && IsRun(w, PublishedEvents(w, m, qos, handler, timeout, io, interval), r.world, true)
            && (qos > 0 || PublishDone(w) ==> PublishDone(r.world))
  {
    if qos > 0 {
      BegunIsSound(w, m, handler, timeout, false);
      var v := Begun(w, m, handler, timeout, false);
      var more := PublishOutcome(v, m, qos, io, interval).events;
      EventIsRun(w, Submit(m, handler, timeout));
      PublishEnds(v, m, qos, io, interval);
      PublishIsInner(v, m, qos, io, interval);
      InnerIsRun(v, more);
      RunThen(w, [Submit(m, handler, timeout)], v, more, Exec(v, more), true);
    } else {
      PublishEnds(w, m, qos, io, interval);
      PublishIsInner(w, m, qos, io, interval);
      InnerIsRun(w, PublishOutcome(w, m, qos, io, interval).events);
      Qos0OnlyReads(w, m, io, interval);
      if PublishDone(w) {
        ReadsKeepDone(w, PublishOutcome(w, m, qos, io, interval).events);
      }
    }
  }

  function DrainedEvents(w: World, io: Io, interval: nat): seq<Event>
    requires Sound(w) && DrainGateOpen(w.st)
  {
    if w.st.records == [] then []
    else
      StepKeepsSound(w, Drain);
      [Drain] + PublishOutcome(Step(w, Drain), Parsed(w.st.records[0]), GuaranteeQos(w.st), io, interval).events
  }

  lemma DrainedIsRun(w: World, io: Io, interval: nat)
    requires Sound(w) && !w.st.vars.exited && DrainGateOpen(w.st)
    ensures var r := Drained(w, io, interval);
            IsRun(w, DrainedEvents(w, io, interval), r.world, w.st.vars.ensureGuarantee) && PublishDone(r.world)
  {
    if w.st.records != [] {
      OldestIsSendable(w);
      var rest, m, v, qos := OldestTaken(w), Parsed(w.st.records[0]), Step(w, Drain), GuaranteeQos(w.st);
      StepKeepsSound(w, Drain);
      assert v == if w.st.vars.ensureGuarantee
                  then Begun(rest, m, Some(PUBLISH_ACK_RECEIVED), MQTT_RESULT_HANDLER_TIMEOUT, true) else rest;
      EventIsRun(w, Drain);
      PublishEnds(v, m, qos, io, interval);
      var more := PublishOutcome(v, m, qos, io, interval).events;
      PublishIsInner(v, m, qos, io, interval);
      InnerIsRun(v, more);
      RunThen(w, [Drain], v, more, Exec(v, more), w.st.vars.ensureGuarantee);
      if qos == 0 {
        Qos0OnlyReads(v, m, io, interval);
        ReadsKeepDone(v, more);
      }
    }
  }

  function GateEvents(w: World, io: Io, interval: nat): seq<Event>
    requires Sound(w)
  {
    if !DrainGateOpen(w.st) then []
    else
      var r := Drained(w, io, interval);
      DrainedEvents(w, io, interval) + if r.world.st.vars.exited || r.rc == SUCCESS then [] else [LogExhausted]
  }

  lemma GateIsRun(w: World, io: Io, interval: nat)
    requires Sound(w) && !w.st.vars.exited
    ensures var r := GatePassed(w, io, interval);
            && IsRun(w, GateEvents(w, io, interval), r.world, w.st.vars.ensureGuarantee)
            && (PublishDone(w) ==> PublishDone(r.world))
  {
    if DrainGateOpen(w.st) {
      var r, es, ack := Drained(w, io, interval), DrainedEvents(w, io, interval), w.st.vars.ensureGuarantee;
      DrainedIsRun(w, io, interval);
      if r.world.st.vars.exited || r.rc == SUCCESS {
        assert es + [] == es;
      } else {
        EventIsRun(r.world, LogExhausted);
        RunThen(w, es, r.world, [LogExhausted], Step(r.world, LogExhausted), ack);
      }
    }
  }

  /** What is done behind the read of a turn, in the state it leaves. */
  function ServedEvents(v: World, io: Io, interval: nat): seq<Event>
    requires Sound(v)
  {
    if v.st.vars.exited then []
    else
      var r := GatePassed(v, io, interval);
      GateEvents(v, io, interval) + if r.world.st.vars.exited then [] else [StopDraining]
  }

  function AfterRead(w: World, io: Io): (r: (World, Io))
    requires Sound(w)
    ensures Sound(r.0)
  {
    var es := ReadEvents(w, io.rounds);
    ReadsAllowed(w, io.rounds);
    RunKeepsSound(w, es);
    (Exec(w, es), io.(rounds := RoundsAfterRead(w, io.rounds)))
  }

  lemma ServedIsRun(w: World, io: Io, interval: nat)
    requires Sound(w)
    ensures var r, (v, left) := SocketServed(w, io, interval), AfterRead(w, io);
            && IsRun(w, ReadEvents(w, io.rounds) + ServedEvents(v, left, interval), r.world, v.st.vars.ensureGuarantee)
            && (PublishDone(w) ==> PublishDone(r.world))
  {
    var heard := ReadEvents(w, io.rounds);
    var (v, left) := AfterRead(w, io);
    var ack := v.st.vars.ensureGuarantee;
    ReadsAllowed(w, io.rounds);
    InnerIsRun(w, heard);
    if PublishDone(w) {
      ReadsKeepDone(w, heard);
    }
    if v.st.vars.exited {
      assert heard + [] == heard;
    } else {
      BehindRead(v, left, interval);
      RunThen(w, heard, v, ServedEvents(v, left, interval), SocketServed(w, io, interval).world, ack);
    }
  }

  lemma BehindRead(v: World, io: Io, interval: nat)
    requires Sound(v) && !v.st.vars.exited
    ensures var r := GatePassed(v, io, interval);
            var u := if r.world.st.vars.exited then r.world else Step(r.world, StopDraining);
            && IsRun(v, ServedEvents(v, io, interval), u, v.st.vars.ensureGuarantee)
            && (PublishDone(v) ==> PublishDone(u))
  {
    var r, gate := GatePassed(v, io, interval), GateEvents(v, io, interval);
    GateIsRun(v, io, interval);
    if r.world.st.vars.exited {
      assert gate + [] == gate;
    } else {
      EventIsRun(r.world, StopDraining);
      RunThen(v, gate, r.world, [StopDraining], Step(r.world, StopDraining), v.st.vars.ensureGuarantee);
    }
  }

  function TurnEvents(w: World, io: Io, interval: nat): seq<Event>
    requires Sound(w)
  {
    if w.st.vars.socketCorrupted then [Tick]
    else
      var (v, left) := AfterRead(w, io);
      var es := ReadEvents(w, io.rounds) + ServedEvents(v, left, interval);
      if SocketServed(w, io, interval).world.st.vars.exited then es else es + [Tick]
  }

  /** Acknowledgement is on when a turn may drain the log. */
  predicate AckAtTurn(w: World, io: Io) {
    w.st.vars.socketCorrupted || Exec(w, ReadEvents(w, io.rounds)).st.vars.ensureGuarantee
  }

  /** Every turn of the main loop is a run of allowed events without a restart. */
  lemma TurnIsRun(w: World, io: Io, interval: nat)
    requires Sound(w)
    ensures var r := Turned(w, io, interval);
            && IsRun(w, TurnEvents(w, io, interval), r.world, AckAtTurn(w, io))
            && (PublishDone(w) ==> PublishDone(r.world))
  {
    if w.st.vars.socketCorrupted {
      EventIsRun(w, Tick);
    } else {
      var (v, left) := AfterRead(w, io);
      var es, u := ReadEvents(w, io.rounds) + ServedEvents(v, left, interval), SocketServed(w, io, interval).world;
      ServedIsRun(w, io, interval);
      if !u.st.vars.exited {
        EventIsRun(u, Tick);
        RunThen(w, es, u, [Tick], Step(u, Tick), AckAtTurn(w, io));
      }
    }
  }

  /** Power may fail between any two events of any operation: the next process starts from a sound state in
      which every message submitted so far is accounted for, and only the message in flight was lost. */
  lemma CrashAnywhere(w: World, es: seq<Event>, k: nat, socketUp: bool, storedAck: bool, connectSent: bool)
    requires Conserved(w) && Sound(w) && AllAllowed(w, es) && AckOn(w, es) && k <= |es|
    ensures var before := Exec(w, es[..k]);
            var v := Step(before, Restart(true, socketUp, storedAck, connectSent));
            && Conserved(v) && Sound(v) && PublishDone(v)
            && v.st.records == before.st.records
            && v.ledger == before.ledger.(lost := before.ledger.lost + InFlight(before.st))
  {
    PrefixConserves(w, es, k);
    RestartFrom(Exec(w, es[..k]), Restart(true, socketUp, storedAck, connectSent));
  }

  lemma PrefixConserves(w: World, es: seq<Event>, k: nat)
    requires Conserved(w) && Sound(w) && AllAllowed(w, es) && AckOn(w, es) && k <= |es|
    ensures Conserved(Exec(w, es[..k])) && Sound(Exec(w, es[..k])) && Restarts(es[..k]) <= Restarts(es)
  {
    PrefixIsRun(w, es, k);
    NoMessageIsLost(w, es[..k]);
  }

  lemma PrefixIsRun(w: World, es: seq<Event>, k: nat)
    requires AllAllowed(w, es) && AckOn(w, es) && k <= |es|
    ensures AllAllowed(w, es[..k]) && AckOn(w, es[..k]) && Restarts(es[..k]) <= Restarts(es)
  {
    assert es[..k] + es[k..] == es;
    ExecConcat(w, es[..k], es[k..]);
    AckOnConcat(w, es[..k], es[k..]);
  }

  lemma RestartFrom(before: World, e: Event)
    requires Conserved(before) && Sound(before) && e.Restart?
    ensures var v := Step(before, e);
            && Conserved(v) && Sound(v) && PublishDone(v)
            && v.st.records == before.st.records
            && v.ledger == before.ledger.(lost := before.ledger.lost + InFlight(before.st))
  {
    StepConserves(before, e);
    StepKeepsSound(before, e);
  }

  // ---- The whole program ----

  /** What the program does, one call after the other: turns of the main loop; publishes and subscriptions of the
      application and pings between them; the end of a business-logic run, which opens the gate the first time and reboots later if
      that is due; restarts; and operations that the process does not survive. */
  datatype Operation =
    | Turn(io: Io, interval: nat)
    | AppPublish(m: Message, qos: nat, handler: Option<nat>, timeout: nat, io: Io, interval: nat)
    | AppSubscribe(handler: Option<nat>, timeout: nat, breaks: bool)
    | PingServer(io: Io)
    | BusinessEnd(first: bool)
    | Boot(newProcess: bool, socketUp: bool, storedAck: bool, connectSent: bool)
    | Dies(op: Operation, k: nat, socketUp: bool, storedAck: bool, connectSent: bool)

  predicate Possible(w: World, op: Operation) {
    match op
    case AppPublish(m, qos, _, _, _, _) => !w.st.vars.exited && CanPublish(w, m, qos)
    case Boot(_, _, _, _) => true
    case Dies(inner, _, _, _, _) => !inner.Dies? && !inner.Boot? && Possible(w, inner)
    case _ => !w.st.vars.exited
  }

  predicate AckAround(w: World, op: Operation) {
    match op
    case Turn(io, _) => AckAtTurn(w, io)
    case Dies(inner, _, _, _, _) => AckAround(w, inner)
    case _ => true
  }

  function Taken(es: seq<Event>, k: nat): seq<Event> {
    if k <= |es| then es[..k] else es
  }

  function EventsOf(w: World, op: Operation): seq<Event>
    requires Sound(w) && Possible(w, op)
  {
    match op
    case Turn(io, interval) => TurnEvents(w, io, interval)
    case AppPublish(m, qos, handler, timeout, io, interval) => PublishedEvents(w, m, qos, handler, timeout, io, interval)
    case PingServer(io) => PingEvents(w, io)
    case AppSubscribe(handler, timeout, breaks) => [Subscribe(handler, timeout)] + if breaks then [SocketBroken] else []
    case BusinessEnd(first) => if first then [StartDraining] else if w.st.vars.rebootPending then [Exit] else []
    case Boot(newProcess, socketUp, storedAck, connectSent) => [Restart(newProcess, socketUp, storedAck, connectSent)]
    case Dies(inner, k, socketUp, storedAck, connectSent) => Taken(EventsOf(w, inner), k) + [Restart(true, socketUp, storedAck, connectSent)]
  }

  function Perform(w: World, op: Operation): World
    requires Sound(w) && Possible(w, op)
  {
    Exec(w, EventsOf(w, op))
  }

  /** The operations after which a message may be lost: a death, and the restart of a process that ended itself. */
  predicate Fatal(w: World, op: Operation) {
    op.Dies? || (op.Boot? && w.st.vars.exited)
  }

  /** The program went from `w` through these operations to `v`, with acknowledgement on. */
  predicate Leads(w: World, ops: seq<Operation>, v: World)
    decreases |ops|
  {
    if ops == [] then v == w
    else Sound(w) && Possible(w, ops[0]) && AckAround(w, ops[0]) && Leads(Perform(w, ops[0]), ops[1..], v)
  }

  function Deaths(w: World, ops: seq<Operation>, v: World): nat
    requires Leads(w, ops, v)
    decreases |ops|
  {
    if ops == [] then 0 else (if Fatal(w, ops[0]) then 1 else 0) + Deaths(Perform(w, ops[0]), ops[1..], v)
  }

  /** The operations that the program survives are runs without a restart. */
  lemma SurvivedIsRun(w: World, op: Operation)
    requires Sound(w) && PublishDone(w) && Possible(w, op) && AckAround(w, op) && !op.Boot? && !op.Dies?
    ensures IsRun(w, EventsOf(w, op), Perform(w, op), true) && PublishDone(Perform(w, op))
  {
    match op
    case Turn(io, interval) => TurnIsRun(w, io, interval);
    case AppPublish(m, qos, handler, timeout, io, interval) => PublishedIsRun(w, m, qos, handler, timeout, io, interval);
    case AppSubscribe(handler, timeout, breaks) => SubscribedIsRun(w, handler, timeout, breaks);
    case PingServer(io) => PingIsRun(w, io);
    case BusinessEnd(first) =>
      EventIsRun(w, StartDraining);
      EventIsRun(w, Exit);
  }

  lemma SubscribedIsRun(w: World, handler: Option<nat>, timeout: nat, breaks: bool)
    requires Sound(w) && PublishDone(w) && !w.st.vars.exited
    ensures var op := AppSubscribe(handler, timeout, breaks);
            IsRun(w, EventsOf(w, op), Perform(w, op), true) && PublishDone(Perform(w, op))
  {
    var e := Subscribe(handler, timeout);
    var v := Step(w, e);
    EventIsRun(w, e);
    if breaks {
      EventIsRun(v, SocketBroken);
      RunThen(w, [e], v, [SocketBroken], Step(v, SocketBroken), true);
    } else {
      assert [e] + [] == [e];
    }
  }

  /** Each operation, from its first event to its last or to the death of the process, keeps every message in one place and
      leaves nothing in flight; only a death, or a restart after the process ended itself, may lose one. */
  lemma OperationConserves(w: World, op: Operation)
    requires Conserved(w) && Sound(w) && PublishDone(w) && Possible(w, op) && AckAround(w, op)
    ensures var v := Perform(w, op);
            && Conserved(v) && Sound(v) && PublishDone(v)
            && |v.ledger.lost| <= |w.ledger.lost| + if Fatal(w, op) then 1 else 0
  {
    match op
    case Boot(newProcess, socketUp, storedAck, connectSent) =>
      OneEvent(w, Restart(newProcess, socketUp, storedAck, connectSent));
      RestartFrom(w, Restart(newProcess, socketUp, storedAck, connectSent));
    case Dies(inner, k, socketUp, storedAck, connectSent) =>
      SurvivedIsRun(w, inner);
      DeathConserves(w, EventsOf(w, inner), k, Restart(true, socketUp, storedAck, connectSent));
    case _ => SurvivedConserves(w, op);
  }

  lemma SurvivedConserves(w: World, op: Operation)
    requires Conserved(w) && Sound(w) && PublishDone(w) && Possible(w, op) && AckAround(w, op) && !op.Boot? && !op.Dies?
    ensures var v := Perform(w, op);
            Conserved(v) && Sound(v) && PublishDone(v) && |v.ledger.lost| <= |w.ledger.lost|
  {
    SurvivedIsRun(w, op);
    NoMessageIsLost(w, EventsOf(w, op));
    RestartLosesAtMostOne(w, EventsOf(w, op));
  }

  lemma DeathConserves(w: World, es: seq<Event>, k: nat, e: Event)
    requires Conserved(w) && Sound(w) && AllAllowed(w, es) && AckOn(w, es) && Restarts(es) == 0 && e.Restart?
    ensures var v := Exec(w, Taken(es, k) + [e]);
            Conserved(v) && Sound(v) && PublishDone(v) && |v.ledger.lost| <= |w.ledger.lost| + 1
  {
    var n := if k <= |es| then k else |es|;
    assert Taken(es, k) == es[..n];
    PrefixConserves(w, es, n);
    RestartLosesAtMostOne(w, es[..n]);
    RestartFrom(Exec(w, es[..n]), e);
    ExecAppend(w, es[..n], e);
  }

  /** The guarantee for the program as a whole: whatever the network does, in whatever order turns, publishes, restarts and
      deaths follow each other, every message published so far is in exactly one place and none is in flight between two
      operations, unless the process has ended itself; at most one message is lost a death. */
  lemma {:induction false} ProgramLosesNothing(w: World, ops: seq<Operation>, v: World)
    requires Conserved(w) && Sound(w) && PublishDone(w) && Leads(w, ops, v)
    ensures Conserved(v) && Sound(v) && PublishDone(v) && |v.ledger.lost| <= |w.ledger.lost| + Deaths(w, ops, v)
    decreases |ops|
  {
    if ops != [] {
      OperationConserves(w, ops[0]);
      ProgramLosesNothing(Perform(w, ops[0]), ops[1..], v);
    }
  }
}
