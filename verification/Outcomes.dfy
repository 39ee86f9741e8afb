/** What publishing, draining and the turns of the main loop come to, told by the log, the ledger and the rows alone. */
module Outcomes {
  import opened Common
  import opened LineFiles
  import opened DataLog
  import opened ResultHandlers
  import opened Delivery
  import opened Client
  import RemainingLength

  // ---- Acknowledgement ----

  /** The first row with the id holds a handler. */
  ghost predicate Answerable(slots: seq<Slot>, id: int) {
    exists k :: FirstRow(slots, k, id) && slots[k].handler.Some?
  }

  ghost predicate FirstRow(slots: seq<Slot>, k: int, id: int) {
    0 <= k < |slots| && slots[k].msgId == id && forall j :: 0 <= j < k ==> slots[j].msgId != id
  }

  /** A reply to the message in flight: PUBACK, PUBREC, PUBCOMP or SUBACK with the awaited id, whose row is still there. */
  ghost predicate IsReply(w: World, e: Event) {
    && !w.st.vars.exited && w.st.vars.lastPub.Some?
    && e.Receive? && (e.p.Ack? || e.p.PubRecPacket?)
    && e.p.id == w.st.vars.pubAckMsgId && Answerable(w.st.slots, e.p.id)
  }

  /** A message is acknowledged exactly by a reply to it, at once, and the log stays as it is. */
  lemma AcknowledgedExactly(w: World, e: Event)
    ensures var v := Step(w, e);
            if IsReply(w, e) then
              && v.ledger == w.ledger.(acked := w.ledger.acked + multiset{w.st.vars.lastPub.value})
              && v.st.vars.lastPub == None && v.st.vars.waitingForPuback == NOT_WAITING_FOR_PUBACK
              && v.st.vars.pubAckRecvAttempts == 0 && v.st.records == w.st.records
            else v.ledger.acked == w.ledger.acked
  {
    if e.Receive? && (e.p.Ack? || e.p.PubRecPacket?) {
      FirstRowIs(w.st.slots, e.p.id);
    }
  }

  lemma FirstRowIs(slots: seq<Slot>, id: int)
    ensures var k := IndexOf(slots, id);
            if k < |slots| then FirstRow(slots, k, id) && (Answerable(slots, id) <==> slots[k].handler.Some?)
            else !Answerable(slots, id)
  {
    var k := IndexOf(slots, id);
    if k < |slots| {
      assert FirstRow(slots, k, id);
    }
  }

  /** Some event of the run is a reply to the message in flight. */
  ghost predicate Replied(w: World, es: seq<Event>)
    decreases |es|
  {
    es != [] && (IsReply(w, es[0]) || Replied(Step(w, es[0]), es[1..]))
  }

  /** The message is still in flight, or it is in the log and a reboot is due. */
  predicate FlyingOrSaved(w: World, v: World, m: Message) {
    || (v.st.vars.lastPub == Some(m) && v.st.records == w.st.records)
    || (v.st.vars.lastPub == None && v.st.records == Saved(w.st.records, Record(m)) && v.st.vars.rebootPending)
  }

  lemma InnerStep(w: World, e: Event, m: Message)
    requires Sound(w) && w.st.vars.lastPub == Some(m) && Inner([e]) && Allowed(w, e)
    ensures !IsReply(w, e) ==> Step(w, e).ledger.acked == w.ledger.acked && FlyingOrSaved(w, Step(w, e), m)
  {
    assert e in [e];
    if e.Receive? {
      if !IsReply(w, e) {
        ReceivedWithoutReply(w, e.p, m);
      }
    } else {
      GivenUpOrNot(w, e, m);
    }
  }

  lemma ReceivedWithoutReply(w: World, p: Packet, m: Message)
    requires w.st.vars.lastPub == Some(m) && !IsReply(w, Receive(p))
    ensures var v := Step(w, Receive(p));
            v.st.vars.lastPub == Some(m) && v.st.records == w.st.records && v.ledger.acked == w.ledger.acked
  {
    if p.Ack? || p.PubRecPacket? {
      FirstRowIs(w.st.slots, p.id);
    }
  }

  lemma GivenUpOrNot(w: World, e: Event, m: Message)
    requires w.st.vars.lastPub == Some(m) && (e.Missed? || e.SendFailed? || e.SocketBroken?)
    ensures Step(w, e).ledger.acked == w.ledger.acked && FlyingOrSaved(w, Step(w, e), m)
  {
  }

  /** Once nothing is in flight, the events inside a publish acknowledge nothing and leave the log alone. */
  lemma {:induction false} DoneStays(w: World, es: seq<Event>)
    requires Sound(w) && w.st.vars.lastPub == None && Inner(es) && AllAllowed(w, es)
    ensures var v := Exec(w, es);
            && v.st.vars.lastPub == None && v.ledger.acked == w.ledger.acked && v.st.records == w.st.records
            && (w.st.vars.rebootPending ==> v.st.vars.rebootPending) && !Replied(w, es)
    decreases |es|
  {
    if es != [] {
      assert es[0] in es;
      DoneStep(w, es[0]);
      StepKeepsSound(w, es[0]);
      DoneStays(Step(w, es[0]), es[1..]);
    }
  }

  lemma DoneStep(w: World, e: Event)
    requires Sound(w) && w.st.vars.lastPub == None && Inner([e])
    ensures var v := Step(w, e);
            && v.st.vars.lastPub == None && v.ledger.acked == w.ledger.acked && v.st.records == w.st.records
            && (w.st.vars.rebootPending ==> v.st.vars.rebootPending)
  {
    assert e in [e];
    if e.Receive? {
      DoneReceive(w, e.p);
    }
  }

  lemma DoneReceive(w: World, p: Packet)
    requires w.st.vars.lastPub == None
    ensures var v := Step(w, Receive(p));
            && v.st.vars.lastPub == None && v.ledger.acked == w.ledger.acked && v.st.records == w.st.records
            && v.st.vars.rebootPending == w.st.vars.rebootPending
  {
    if p.Ack? || p.PubRecPacket? {
      FireHandlerCases(w, p.id);
    }
  }

  /** What becomes of a message while it is tracked: acknowledged exactly if a reply comes, and else in flight or saved. */
  lemma {:induction false} InnerOutcome(w: World, es: seq<Event>, m: Message)
    requires Sound(w) && w.st.vars.lastPub == Some(m) && Inner(es) && AllAllowed(w, es)
    ensures var v := Exec(w, es);
            if Replied(w, es) then
              v.ledger.acked == w.ledger.acked + multiset{m} && v.st.records == w.st.records && v.st.vars.lastPub == None
            else v.ledger.acked == w.ledger.acked && FlyingOrSaved(w, v, m)
    decreases |es|
  {
    if es != [] {
      var u := Step(w, es[0]);
      assert es[0] in es;
      StepKeepsSound(w, es[0]);
      AcknowledgedExactly(w, es[0]);
      InnerStep(w, es[0], m);
      if u.st.vars.lastPub == None {
        DoneStays(u, es[1..]);
      } else {
        InnerOutcome(u, es[1..], m);
      }
    }
  }

  /** What a tracked publish comes to. */
  ghost predicate EndsAs(w: World, v: World, m: Message, replied: bool) {
    if replied then v.ledger.acked == w.ledger.acked + multiset{m} && v.st.records == w.st.records && v.st.vars.lastPub == None
    else
      && v.ledger.acked == w.ledger.acked
      && (!v.st.vars.exited ==>
            v.st.records == Saved(w.st.records, Record(m)) && v.st.vars.rebootPending && v.st.vars.lastPub == None)
  }

  lemma TrackedEnds(w: World, m: Message, qos: nat, io: Io, interval: nat)
    requires Sound(w) && !w.st.vars.exited && qos > 0 && w.st.vars.lastPub == Some(m) && w.st.vars.pubAckRecvAttempts == 0
    ensures var es := PublishOutcome(w, m, qos, io, interval).events;
            EndsAs(w, Exec(w, es), m, Replied(w, es))
  {
    var es := PublishOutcome(w, m, qos, io, interval).events;
    PublishEnds(w, m, qos, io, interval);
    PublishIsInner(w, m, qos, io, interval);
    InnerOutcome(w, es, m);
  }

  /** A publish at QoS 1 or 2 ends with the message acknowledged and the log as it was if and only if a reply to it was
      read; without one the message is the last record of the log and a reboot is due, unless the process exited. */
  lemma PublishEndsAs(w: World, m: Message, qos: nat, handler: Option<nat>, timeout: nat, io: Io, interval: nat)
    requires Sound(w) && !w.st.vars.exited && qos > 0 && CanPublish(w, m, qos)
    ensures var r := Published(w, m, qos, handler, timeout, false, io, interval);
            EndsAs(w, r.world, m, Replied(w, PublishedEvents(w, m, qos, handler, timeout, io, interval)))
  {
    BegunIsSound(w, m, handler, timeout, false);
    var u := Begun(w, m, handler, timeout, false);
    TrackedEnds(u, m, qos, io, interval);
    var more := PublishOutcome(u, m, qos, io, interval).events;
    var es := PublishedEvents(w, m, qos, handler, timeout, io, interval);
    assert es[0] == Submit(m, handler, timeout) && es[1..] == more;
    assert Replied(w, es) <==> Replied(u, more);
  }

  // ---- Ten rounds ----

  /** A read round in which nothing comes. */
  predicate Silent(r: Round) {
    r.packets == [] && !r.broken
  }

  predicate RepliesFirst(r: Round, id: nat) {
    r.packets != [] && r.packets[0] == Ack(id)
  }

  /** The state of a client that waits for a reply it can receive. */
  ghost predicate Waiting(w: World, id: nat) {
    && Sound(w) && !w.st.vars.exited && !w.st.vars.socketCorrupted && w.st.vars.lastPub.Some?
    && w.st.vars.pubAckMsgId == id && Answerable(w.st.slots, id)
  }

  lemma SilentRead(w: World, rounds: seq<Round>)
    requires rounds != [] && Silent(rounds[0])
    ensures ReadEvents(w, rounds) == [] && Exec(w, ReadEvents(w, rounds)) == w
  {
    assert Received([]) == [];
  }

  lemma MissedWaits(w: World, id: nat)
    requires Waiting(w, id) && w.st.vars.pubAckRecvAttempts + 1 < MAX_CYCLES_TO_WAIT_FOR_PUBACK
    ensures var u := Step(w, Missed);
            && Waiting(u, id) && u.st.vars.pubAckRecvAttempts == w.st.vars.pubAckRecvAttempts + 1
            && u.st.slots == w.st.slots && u.ledger == w.ledger && u.st.records == w.st.records
  {
    StepKeepsSound(w, Missed);
  }

  /** A round that begins with the reply acknowledges the message, and the waiting loop does not read another one. */
  lemma ReplyRead(w: World, rounds: seq<Round>, id: nat)
    requires Waiting(w, id) && rounds != [] && RepliesFirst(rounds[0], id)
    ensures var es := ReadEvents(w, rounds);
            && Replied(w, es) && Exec(w, es).st.vars.waitingForPuback != WAITING_FOR_PUBACK
            && es[0] == Receive(Ack(id)) && IsReply(w, es[0])
  {
    var es := ReadEvents(w, rounds);
    assert es[0] == Receive(Ack(id)) && IsReply(w, es[0]);
    AcknowledgedExactly(w, es[0]);
    ReadsAllowed(w, rounds);
    assert OnlyReads(es[1..]);
    ReadsKeepWait(Step(w, es[0]), es[1..]);
  }

  /** A reply within ten rounds is in time, and the loop ends with its round. */
  lemma {:induction false} ReplyInTime(w: World, rounds: seq<Round>, n: nat, id: nat)
    requires Waiting(w, id) && n < |rounds| && w.st.vars.pubAckRecvAttempts + n < MAX_CYCLES_TO_WAIT_FOR_PUBACK
    requires (forall i :: 0 <= i < n ==> Silent(rounds[i])) && RepliesFirst(rounds[n], id)
    ensures var s := WaitStretch(w, rounds);
            Replied(w, s.events) && s.rounds == rounds[n + 1..] && s.calls == n + 1
    decreases n
  {
    if n == 0 {
      ReplyRead(w, rounds, id);
    } else {
      SilentRead(w, rounds);
      MissedWaits(w, id);
      var u := Step(w, Missed);
      ReplyInTime(u, rounds[1..], n - 1, id);
      var more := WaitStretch(u, rounds[1..]);
      assert rounds[1..][n..] == rounds[n + 1..];
      var es := WaitStretch(w, rounds).events;
      assert es == [Missed] + more.events;
      assert es[0] == Missed && es[1..] == more.events;
    }
  }

  /** Without a reply the message is given up only after all ten rounds. */
  lemma {:induction false} GivenUpAfterTenRounds(w: World, rounds: seq<Round>)
    requires Sound(w) && !w.st.vars.exited && w.st.vars.waitingForPuback == WAITING_FOR_PUBACK
    ensures var s := WaitStretch(w, rounds);
            !Replied(w, s.events) && !Exec(w, s.events).st.vars.exited ==>
              s.calls == 10 - w.st.vars.pubAckRecvAttempts
    decreases MAX_CYCLES_TO_WAIT_FOR_PUBACK - w.st.vars.pubAckRecvAttempts
  {
    var es, left := ReadEvents(w, rounds), RoundsAfterRead(w, rounds);
    var v, m := Exec(w, es), w.st.vars.lastPub.value;
    ReadsAllowed(w, rounds);
    ReadsKeepWait(w, es);
    RunKeepsSound(w, es);
    if v.st.vars.exited || v.st.vars.waitingForPuback != WAITING_FOR_PUBACK {
      ReadsOnlyByReply(w, es, m);
    } else if v.st.vars.pubAckRecvAttempts + 1 < MAX_CYCLES_TO_WAIT_FOR_PUBACK {
      var u := Step(v, Missed);
      StepKeepsSound(v, Missed);
      ExecAppend(w, es, Missed);
      var more := WaitStretch(u, left).events;
      GivenUpAfterTenRounds(u, left);
      ExecConcat(w, es + [Missed], more);
      RepliedLater(w, es + [Missed], more);
    }
  }

  /** Reading ends the wait only by a reply. */
  lemma {:induction false} ReadsOnlyByReply(w: World, es: seq<Event>, m: Message)
    requires OnlyReads(es) && w.st.vars.lastPub == Some(m)
    ensures !Replied(w, es) ==> Exec(w, es).st.vars.lastPub == Some(m)
    decreases |es|
  {
    if es != [] {
      assert es[0] in es;
      if es[0].Receive? && !IsReply(w, es[0]) {
        ReceivedWithoutReply(w, es[0].p, m);
      }
      if !IsReply(w, es[0]) {
        ReadsOnlyByReply(Step(w, es[0]), es[1..], m);
      }
    }
  }

  lemma {:induction false} RepliedLater(w: World, a: seq<Event>, b: seq<Event>)
    ensures Replied(w, a + b) <==> Replied(w, a) || Replied(Exec(w, a), b)
    decreases |a|
  {
    if a == [] {
      assert a + b == b;
    } else {
      assert (a + b)[0] == a[0] && (a + b)[1..] == a[1..] + b;
      RepliedLater(Step(w, a[0]), a[1..], b);
    }
  }

  /** A free row for the handler, and no row that has the id already. */
  ghost predicate RoomFor(slots: seq<Slot>, id: nat) {
    (exists k :: 0 <= k < |slots| && slots[k].msgId == 0) && forall k :: 0 <= k < |slots| ==> slots[k].msgId != id
  }

  lemma TrackedCanWait(w: World, m: Message, handler: Option<nat>, timeout: nat, drained: bool)
    requires Sound(w) && !w.st.vars.exited && Sendable(m) && w.st.vars.waitingForPuback != WAITING_FOR_PUBACK
    requires !w.st.vars.socketCorrupted && handler.Some? && w.st.nextPacketId >= 1 && RoomFor(w.st.slots, NextId(w.st.nextPacketId))
    ensures var u := Begun(w, m, handler, timeout, drained);
            Waiting(u, NextId(w.st.nextPacketId)) && u.st.vars.lastPub == Some(m) && u.st.vars.pubAckRecvAttempts == 0
  {
    var id, i := NextId(w.st.nextPacketId), IndexOf(w.st.slots, 0);
    BegunIsSound(w, m, handler, timeout, drained);
    var u := Begun(w, m, handler, timeout, drained);
    assert u.st.slots == w.st.slots[i := Slot(id, timeout, handler)];
    assert FirstRow(u.st.slots, i, id);
  }

  /** A publish that is written, and whose reply comes first in one of the next ten rounds after silent ones, ends with its
      message acknowledged and the log as it was; without a compulsory read it ends with that very round. */
  lemma RepliedInTime(w: World, m: Message, qos: nat, handler: Option<nat>, timeout: nat, io: Io, interval: nat, n: nat)
    requires Sound(w) && !w.st.vars.exited && qos > 0 && CanPublish(w, m, qos) && CanWrite(w.st, m, qos) && WriteSucceeds(io.writes)
    requires handler.Some? && w.st.nextPacketId >= 1 && RoomFor(w.st.slots, NextId(w.st.nextPacketId))
    requires n < |io.rounds| && n < 10 && (forall i :: 0 <= i < n ==> Silent(io.rounds[i]))
    requires RepliesFirst(io.rounds[n], NextId(w.st.nextPacketId))
    ensures var r := Published(w, m, qos, handler, timeout, false, io, interval);
            && r.rc == SUCCESS && r.world.ledger.acked == w.ledger.acked + multiset{m}
            && r.world.st.records == w.st.records && r.world.st.vars.lastPub == None
            && (interval == 0 ==> r.io.rounds == io.rounds[n + 1..])
  {
    var id := NextId(w.st.nextPacketId);
    TrackedCanWait(w, m, handler, timeout, false);
    var u := Begun(w, m, handler, timeout, false);
    ReplyToTracked(u, m, qos, io, interval, n, id);
    TrackedEnds(u, m, qos, io, interval);
  }

  lemma ReplyToTracked(u: World, m: Message, qos: nat, io: Io, interval: nat, n: nat, id: nat)
    requires Waiting(u, id) && qos > 0 && u.st.vars.pubAckRecvAttempts == 0 && CanWrite(u.st, m, qos) && WriteSucceeds(io.writes)
    requires n < |io.rounds| && n < 10 && (forall i :: 0 <= i < n ==> Silent(io.rounds[i])) && RepliesFirst(io.rounds[n], id)
    ensures var o := PublishOutcome(u, m, qos, io, interval);
            o.rc == SUCCESS && Replied(u, o.events) && (interval == 0 ==> o.io.rounds == io.rounds[n + 1..])
  {
    var count, rounds := Counted(io.publishCount), io.rounds;
    if !CompulsoryRead(count, interval) {
      ReplyInTime(u, rounds, n, id);
      var es := WaitStretch(u, rounds).events;
      assert [] + es == es;
    } else if n == 0 {
      ReplyRead(u, rounds, id);
      RepliedLater(u, ReadEvents(u, rounds), ReplyStretch(u, qos, rounds, count, interval).events[|ReadEvents(u, rounds)|..]);
    } else {
      SilentRead(u, rounds);
      ReplyInTime(u, rounds[1..], n - 1, id);
      var es := WaitStretch(u, rounds[1..]).events;
      assert [] + es == es;
    }
  }

  // ---- Draining the log ----

  /** Reading leaves the log alone. */
  lemma {:induction false} ReadsKeepLog(w: World, es: seq<Event>)
    requires OnlyReads(es)
    ensures Exec(w, es).st.records == w.st.records
    decreases |es|
  {
    if es != [] {
      assert es[0] in es;
      if es[0].Receive? {
        ReceiveKeepsLog(w, es[0].p);
      }
      ReadsKeepLog(Step(w, es[0]), es[1..]);
    }
  }

  lemma ReceiveKeepsLog(w: World, p: Packet)
    ensures Step(w, Receive(p)).st.records == w.st.records
  {
    if p.Ack? || p.PubRecPacket? {
      FireHandlerCases(w, p.id);
    }
  }

  /** The log is drained from this state: its records come first, nothing is waited for, and no reboot is due. */
  predicate Drains(vars: Vars) {
    vars.msgSource == PERSISTENT_STORAGE && vars.waitingForPuback != WAITING_FOR_PUBACK && !vars.rebootPending
  }

  /** The message of a record: published, and no longer in the log unless it was saved there again, as the last one. */
  ghost predicate TookOldest(v: World, u: World) {
    v.st.records != [] &&
    var m := Parsed(v.st.records[0]);
    || (u.st.records == v.st.records[1..] && (v.st.vars.ensureGuarantee && !u.st.vars.exited ==> u.ledger.acked == v.ledger.acked + multiset{m}))
    || (v.st.vars.ensureGuarantee && u.st.records == Saved(v.st.records[1..], v.st.records[0]) && u.ledger.acked == v.ledger.acked
        && u.st.vars.rebootPending)
  }

  lemma DrainTakesOldest(w: World, io: Io, interval: nat)
    requires Sound(w) && !w.st.vars.exited && w.st.vars.waitingForPuback != WAITING_FOR_PUBACK && w.st.records != []
    ensures var r := Drained(w, io, interval);
            && r.rc == SUCCESS && TookOldest(w, r.world)
            && r.io.writes == if w.st.vars.connected && !w.st.vars.socketCorrupted then Dropped(io.writes, 1) else io.writes
  {
    var left, m := OldestTaken(w), Parsed(w.st.records[0]);
    OldestIsSendable(w);
    RecordFitsPacket(m);
    if w.st.vars.ensureGuarantee {
      BegunIsSound(left, m, Some(PUBLISH_ACK_RECEIVED), MQTT_RESULT_HANDLER_TIMEOUT, true);
      var u := Begun(left, m, Some(PUBLISH_ACK_RECEIVED), MQTT_RESULT_HANDLER_TIMEOUT, true);
      TrackedEnds(u, m, 1, io, interval);
      TrackedInFlight(u, m, io, interval);
    } else {
      Qos0OnlyReads(left, m, io, interval);
      ReadsKeepLog(left, PublishOutcome(left, m, 0, io, interval).events);
    }
  }

  /** A process that exits while a message is in flight has not touched the log. */
  lemma TrackedInFlight(u: World, m: Message, io: Io, interval: nat)
    requires Sound(u) && !u.st.vars.exited && u.st.vars.lastPub == Some(m) && u.st.vars.pubAckRecvAttempts == 0
    ensures var es := PublishOutcome(u, m, 1, io, interval).events;
            !Replied(u, es) ==> FlyingOrSaved(u, Exec(u, es), m)
  {
    PublishEnds(u, m, 1, io, interval);
    PublishIsInner(u, m, 1, io, interval);
    InnerOutcome(u, PublishOutcome(u, m, 1, io, interval).events, m);
  }

  /** The PUBLISH of a message with a record below 1000 bytes fits its buffer. */
  lemma RecordFitsPacket(m: Message)
    requires Sendable(m)
    ensures FitsPacket(m, 0) && FitsPacket(m, 1)
  {
    KeptMessageFits(m);
  }

  /** What a turn does behind the gate. */
  function BehindGate(u: World): World {
    if u.st.vars.exited then u else
      var x := Step(u, StopDraining);
      if x.st.vars.exited then x else Step(x, Tick)
  }

  lemma TurnPassesGate(w: World, io: Io, interval: nat)
    requires Sound(w) && !w.st.vars.exited && !w.st.vars.socketCorrupted
    ensures var (v, left) := AfterRead(w, io);
            var r := Turned(w, io, interval);
            if v.st.vars.exited then r.world == v && r.io == left
            else r.world == BehindGate(GatePassed(v, left, interval).world) && r.io == GatePassed(v, left, interval).io
  {
  }

  lemma AfterGate(u: World)
    ensures var x := BehindGate(u);
            && x.st.records == u.st.records && x.ledger == u.ledger && x.st.vars.exited == u.st.vars.exited
            && x.st.vars == u.st.vars.(msgSource := x.st.vars.msgSource)
            && (x.st.vars.msgSource == if !u.st.vars.exited && u.st.vars.rebootPending then GENERAL else u.st.vars.msgSource)
  {
  }

  /** The gate opens exactly for a log that is drained; an empty one switches the source. */
  lemma GateExactly(v: World, io: Io, interval: nat)
    requires Sound(v) && !v.st.vars.exited
    ensures var r := GatePassed(v, io, interval);
            if !Drains(v.st.vars) then r.world == v && r.io == io
            else if v.st.records == [] then r.world == WithVars(v, v.st.vars.(msgSource := GENERAL)) && r.io == io
            else r == Drained(v, io, interval)
  {
    if Drains(v.st.vars) && v.st.records != [] {
      DrainTakesOldest(v, io, interval);
    }
  }

  /** A turn with a working socket takes the oldest record and publishes its message exactly if the log is drained from the
      state in which the read leaves the client and is not empty; otherwise log and writes are untouched. With an empty
      log it stops draining. */
  lemma TurnDrainsExactly(w: World, io: Io, interval: nat)
    requires Sound(w) && !w.st.vars.exited && !w.st.vars.socketCorrupted
    ensures var v, r := Exec(w, ReadEvents(w, io.rounds)), Turned(w, io, interval);
            && v.st.records == w.st.records
            && (!v.st.vars.exited && Drains(v.st.vars) && w.st.records != [] ==>
                  && TookOldest(v, r.world)
                  && r.io.writes == if v.st.vars.connected && !v.st.vars.socketCorrupted then Dropped(io.writes, 1) else io.writes)
            && (v.st.vars.exited || !Drains(v.st.vars) || w.st.records == [] ==>
                  r.world.st.records == w.st.records && r.io.writes == io.writes && r.world.ledger == v.ledger)
            && (!v.st.vars.exited && Drains(v.st.vars) && w.st.records == [] ==> r.world.st.vars.msgSource == GENERAL)
  {
    var (v, left) := AfterRead(w, io);
    ReadsAllowed(w, io.rounds);
    ReadsKeepLog(w, ReadEvents(w, io.rounds));
    TurnPassesGate(w, io, interval);
    if !v.st.vars.exited {
      GateExactly(v, left, interval);
      AfterGate(GatePassed(v, left, interval).world);
      if Drains(v.st.vars) && v.st.records != [] {
        DrainTakesOldest(v, left, interval);
      }
    }
  }

  /** A CONNACK with code 0 or 6, and the first end of the business logic, open the log; another code ends the process. */
  lemma LogOpens(w: World, code: nat, messageAckEnabled: bool)
    requires !w.st.vars.exited
    ensures var v := Step(w, Receive(ConnAck(code, messageAckEnabled))).st.vars;
            if code == 0 || code == 6 then
              v == w.st.vars.(connected := true, msgSource := PERSISTENT_STORAGE, ensureGuarantee := messageAckEnabled)
            else v == w.st.vars.(exited := true)
    ensures Step(w, StartDraining).st.vars == w.st.vars.(msgSource := PERSISTENT_STORAGE)
  {
  }

  /** So a turn whose read brings such a CONNACK, with nothing waited for and no reboot due, takes the oldest record. */
  lemma ConnAckDrains(w: World, code: nat, io: Io, interval: nat)
    requires Sound(w) && !w.st.vars.exited && !w.st.vars.socketCorrupted && w.st.records != []
    requires w.st.vars.waitingForPuback != WAITING_FOR_PUBACK && !w.st.vars.rebootPending
    requires code == 0 || code == 6
    requires io.rounds != [] && io.rounds[0] == Round([ConnAck(code, true)], false)
    ensures var v, r := Step(w, Receive(ConnAck(code, true))), Turned(w, io, interval);
            TookOldest(v, r.world) && r.io.writes == Dropped(io.writes, 1)
  {
    var e := Receive(ConnAck(code, true));
    assert Received([ConnAck(code, true)]) == [e];
    assert ReadEvents(w, io.rounds) == [e] + [];
    assert [e] + [] == [e];
    OneEvent(w, e);
    LogOpens(w, code, true);
    TurnDrainsExactly(w, io, interval);
  }

  // ---- Emptying the log ----

  /** What the server sends in a turn in which it acknowledges at once: nothing new, and then the reply. */
  function PromptIo(w: World): Io {
    Io([], [Round([], false), Round([Ack(NextId(w.st.nextPacketId))], false)], 0)
  }

  function PromptTurn(w: World): (v: World)
    requires Sound(w)
    ensures Sound(v)
  {
    TurnIsRun(w, PromptIo(w), 0);
    RunKeepsSound(w, TurnEvents(w, PromptIo(w), 0));
    Turned(w, PromptIo(w), 0).world
  }

  function PromptTurns(w: World, n: nat): World
    requires Sound(w)
    decreases n
  {
    if n == 0 then w else PromptTurns(PromptTurn(w), n - 1)
  }

  /** Connected, with the log open, nothing in flight, and no row taken. */
  ghost predicate ReadyToDrain(w: World) {
    && Sound(w) && !w.st.vars.exited && w.st.vars.connected && !w.st.vars.socketCorrupted && w.st.vars.ensureGuarantee
    && Drains(w.st.vars) && w.st.vars.lastPub == None && w.st.nextPacketId >= 1
    && w.st.slots != [] && forall k :: 0 <= k < |w.st.slots| ==> w.st.slots[k].msgId == 0
  }

  lemma PromptDrain(w: World)
    requires ReadyToDrain(w) && w.st.records != []
    ensures var r := Drained(w, PromptIo(w).(rounds := PromptIo(w).rounds[1..]), 0);
            && ReadyToDrain(r.world) && r.world.st.records == w.st.records[1..]
            && r.world.ledger.acked == w.ledger.acked + multiset{Parsed(w.st.records[0])}
  {
    var left, m, id := OldestTaken(w), Parsed(w.st.records[0]), NextId(w.st.nextPacketId);
    var io := PromptIo(w).(rounds := PromptIo(w).rounds[1..]);
    OldestIsSendable(w);
    RecordFitsPacket(m);
    assert left.st.slots[0].msgId == 0 && RoomFor(left.st.slots, id);
    TrackedCanWait(left, m, Some(PUBLISH_ACK_RECEIVED), MQTT_RESULT_HANDLER_TIMEOUT, true);
    var u := Begun(left, m, Some(PUBLISH_ACK_RECEIVED), MQTT_RESULT_HANDLER_TIMEOUT, true);
    assert io.rounds == [Round([Ack(id)], false)];
    PromptReply(u, m, io, id);
    TrackedRowFreed(left, u, id);
  }

  /** The publish is then one event: the reply. */
  lemma PromptReply(u: World, m: Message, io: Io, id: nat)
    requires Waiting(u, id) && u.st.vars.lastPub == Some(m) && u.st.vars.pubAckRecvAttempts == 0
    requires CanWrite(u.st, m, 1) && io.writes == [] && io.rounds == [Round([Ack(id)], false)]
    ensures PublishOutcome(u, m, 1, io, 0).events == [Receive(Ack(id))]
    ensures Exec(u, [Receive(Ack(id))]) == Step(u, Receive(Ack(id)))
  {
    var e := Receive(Ack(id));
    assert Received([Ack(id)]) == [e];
    assert ReadEvents(u, io.rounds) == [e] + [];
    assert [e] + [] == [e] && [] + [e] == [e];
    OneEvent(u, e);
    ReplyRead(u, io.rounds, id);
  }

  lemma TrackedRowFreed(w: World, u: World, id: nat)
    requires w.st.slots != [] && (forall k :: 0 <= k < |w.st.slots| ==> w.st.slots[k].msgId == 0) && id >= 1
    requires u.st.slots == Attached(w.st.slots, Slot(id, MQTT_RESULT_HANDLER_TIMEOUT, Some(PUBLISH_ACK_RECEIVED)))
    requires Waiting(u, id)
    ensures var v := Step(u, Receive(Ack(id)));
            && |v.st.slots| == |w.st.slots| && (forall k :: 0 <= k < |v.st.slots| ==> v.st.slots[k].msgId == 0)
            && v.st.vars == u.st.vars.(lastPub := None, waitingForPuback := NOT_WAITING_FOR_PUBACK, pubAckRecvAttempts := 0)
            && v.st.nextPacketId == u.st.nextPacketId && v.st.records == u.st.records && Sound(v)
            && v.ledger.acked == u.ledger.acked + multiset{u.st.vars.lastPub.value}
  {
    StepKeepsSound(u, Receive(Ack(id)));
    FirstRowIs(u.st.slots, id);
    IndexOfIs(w.st.slots, 0, 0);
    IndexOfIs(u.st.slots, id, 0);
  }

  /** A prompt turn takes the oldest record, and its message is acknowledged. */
  lemma PromptTurnDrains(w: World)
    requires ReadyToDrain(w) && w.st.records != []
    ensures var v := PromptTurn(w);
            && ReadyToDrain(v) && v.st.records == w.st.records[1..]
            && v.ledger.acked == w.ledger.acked + multiset{Parsed(w.st.records[0])}
  {
    var io := PromptIo(w);
    SilentRead(w, io.rounds);
    TurnPassesGate(w, io, 0);
    var left := io.(rounds := io.rounds[1..]);
    assert AfterRead(w, io) == (w, left);
    GateExactly(w, left, 0);
    PromptDrain(w);
    var u := Drained(w, left, 0).world;
    FreeRowsStay(u);
    AfterGate(u);
  }

  lemma FreeRowsStay(u: World)
    requires !u.st.vars.exited && forall k :: 0 <= k < |u.st.slots| ==> u.st.slots[k].msgId == 0
    ensures BehindGate(u).st.slots == u.st.slots && BehindGate(u).st.nextPacketId == u.st.nextPacketId
  {
    assert AllAged(u.st.slots) == u.st.slots;
  }

  lemma LastTurn(w: World)
    requires ReadyToDrain(w) && w.st.records == []
    ensures PromptTurn(w).st.vars.msgSource == GENERAL
  {
    SilentRead(w, PromptIo(w).rounds);
    TurnDrainsExactly(w, PromptIo(w), 0);
  }

  lemma FirstOfMany(records: seq<string>, n: nat)
    requires 0 < n <= |records|
    ensures records[1..][n - 1..] == records[n..]
    ensures Messages(records[..n]) == multiset{Parsed(records[0])} + Messages(records[1..][..n - 1])
  {
    assert records[..n][0] == records[0] && records[..n][1..] == records[1..][..n - 1];
  }

  /** Over runs: prompt turns empty the log oldest record first, every message acknowledged, and the turn after the last
      record stops draining. */
  lemma {:induction false} EmptiesLog(w: World, n: nat)
    requires ReadyToDrain(w) && n <= |w.st.records|
    ensures var v := PromptTurns(w, n);
            && ReadyToDrain(v) && v.st.records == w.st.records[n..]
            && v.ledger.acked == w.ledger.acked + Messages(w.st.records[..n])
            && (n == |w.st.records| ==> PromptTurn(v).st.vars.msgSource == GENERAL)
    decreases n
  {
    if n > 0 {
      PromptTurnDrains(w);
      FirstOfMany(w.st.records, n);
      EmptiesLog(PromptTurn(w), n - 1);
    } else if w.st.records == [] {
      LastTurn(w);
    }
  }

  // ---- What one publish, subscription or packet leaves behind ----

  /** The row of a new request: the first free one, with the id and the timeout asked for. */
  ghost predicate RowTaken(was: seq<Slot>, now: seq<Slot>, id: int, timeout: nat, handler: Option<nat>) {
    |now| == |was| &&
    if handler.Some? && exists k :: FirstRow(was, k, 0) then
      exists k :: FirstRow(was, k, 0) && now[k].msgId == id && now[k].timeout == timeout && now[k].handler == handler &&
                  forall j :: 0 <= j < |was| && j != k ==> now[j] == was[j]
    else now == was
  }

  /** The ids go round from 1 to 10000. */
  function IdAfter(id: nat): nat {
    if id == 10000 then 1 else id + 1
  }

  lemma TakesRow(was: seq<Slot>, id: int, timeout: nat, handler: Option<nat>)
    ensures RowTaken(was, WithRow(was, Slot(id, timeout, handler)), id, timeout, handler)
  {
    FirstRowIs(was, 0);
    var k := IndexOf(was, 0);
    if k < |was| {
      assert FirstRow(was, k, 0);
    }
  }

  /** A submission takes the next id and a row, and the message is in flight under that id. */
  lemma SubmitTakesRow(w: World, m: Message, handler: Option<nat>, timeout: nat)
    requires !w.st.vars.exited
    ensures var v, id := Step(w, Submit(m, handler, timeout)), IdAfter(w.st.nextPacketId);
            && v.st.nextPacketId == id && RowTaken(w.st.slots, v.st.slots, id, timeout, handler)
            && v.st.vars == w.st.vars.(pubAckMsgId := id, lastPub := Some(m), waitingForPuback := WAITING_FOR_PUBACK)
            && v.st.records == w.st.records && v.ledger == w.ledger.(submitted := w.ledger.submitted + multiset{m})
  {
    TakesRow(w.st.slots, IdAfter(w.st.nextPacketId), timeout, handler);
  }

  lemma SubscribeTakesRow(w: World, handler: Option<nat>, timeout: nat)
    requires !w.st.vars.exited
    ensures var v, id := Step(w, Subscribe(handler, timeout)), IdAfter(w.st.nextPacketId);
            && v.st.nextPacketId == id && RowTaken(w.st.slots, v.st.slots, id, timeout, handler)
            && v.st.vars == w.st.vars && v.st.records == w.st.records && v.ledger == w.ledger
  {
    TakesRow(w.st.slots, IdAfter(w.st.nextPacketId), timeout, handler);
  }

  /** A PUBREC that carries no reply takes a row for the PUBCOMP, ten ticks long; one too short for an id takes it for -1. */
  lemma PubRecTakesRow(w: World, id: nat)
    requires !w.st.vars.exited
    ensures (forall k :: 0 <= k < |w.st.slots| ==> w.st.slots[k].msgId != id) ==>
              RowTaken(w.st.slots, Step(w, Receive(PubRecPacket(id))).st.slots, id, 10, Some(QOS2_CYCLE_COMPLETED))
    ensures RowTaken(w.st.slots, Step(w, Receive(ShortPubRec)).st.slots, -1, 10, Some(QOS2_CYCLE_COMPLETED))
  {
    TakesRow(w.st.slots, id, 10, Some(QOS2_CYCLE_COMPLETED));
    TakesRow(w.st.slots, -1, 10, Some(QOS2_CYCLE_COMPLETED));
    FirstRowIs(w.st.slots, id);
  }

  /** Publishing succeeds exactly if the packet fits 1000 bytes, there is a connection over a working socket, and the write
      succeeds; a write that fails breaks the socket. */
  lemma PublishSucceeds(w: World, m: Message, qos: nat, io: Io, interval: nat)
    requires Sound(w) && !w.st.vars.exited
    ensures var o := PublishOutcome(w, m, qos, io, interval);
            var sent := RemainingLength.PacketLen(2 + |m.topic| + (if qos > 0 then 2 else 0) + |m.payload|) <= 1000
                        && w.st.vars.connected && !w.st.vars.socketCorrupted;
            && (o.rc == SUCCESS <==> sent && WriteSucceeds(io.writes))
            && o.io.writes == (if sent then Dropped(io.writes, 1) else io.writes)
            && (sent && !WriteSucceeds(io.writes) ==> o.events != [] && o.events[0] == SocketBroken)
            && (o.rc != SUCCESS ==> o.io.rounds == io.rounds && o.calls == 0)
  {
  }

  /** A written publish at QoS 0 reads the socket once exactly if the number of publishes is a multiple of the interval. */
  lemma CompulsoryReads(w: World, m: Message, io: Io, interval: nat)
    requires Sound(w) && !w.st.vars.exited && PublishOutcome(w, m, 0, io, interval).rc == SUCCESS
    ensures var o, count := PublishOutcome(w, m, 0, io, interval), (io.publishCount + 1) % 0x1_0000_0000;
            && o.io.publishCount == count
            && o.calls == (if interval != 0 && count % interval == 0 then 1 else 0)
            && (o.calls == 1 ==> o.events == ReadEvents(w, io.rounds)) && (o.calls == 0 ==> o.events == [])
  {
  }

  /** With acknowledgement on a guaranteed publish is tracked and ends as one; with it off nothing is recorded. */
  lemma GuaranteedEnds(w: World, m: Message, io: Io, interval: nat)
    requires Sound(w) && !w.st.vars.exited && Sendable(m) && w.st.vars.waitingForPuback != WAITING_FOR_PUBACK
    ensures var r := Guaranteed(w, m, false, io, interval);
            if w.st.vars.ensureGuarantee then
              && r == Published(w, m, 1, Some(PUBLISH_ACK_RECEIVED), 10, false, io, interval)
              && EndsAs(w, r.world, m, Replied(w, PublishedEvents(w, m, 1, Some(PUBLISH_ACK_RECEIVED), 10, io, interval)))
            else r.world.st.records == w.st.records && r.world.ledger.submitted == w.ledger.submitted
  {
    if w.st.vars.ensureGuarantee {
      PublishEndsAs(w, m, 1, Some(PUBLISH_ACK_RECEIVED), 10, io, interval);
    } else {
      var es := PublishOutcome(w, m, 0, io, interval).events;
      Qos0OnlyReads(w, m, io, interval);
      ReadsKeepLog(w, es);
      ReadsSubmitNothing(w, es);
    }
  }

  lemma {:induction false} ReadsSubmitNothing(w: World, es: seq<Event>)
    requires OnlyReads(es)
    ensures Exec(w, es).ledger.submitted == w.ledger.submitted
    decreases |es|
  {
    if es != [] {
      assert es[0] in es;
      ReadSubmitsNothing(w, es[0]);
      ReadsSubmitNothing(Step(w, es[0]), es[1..]);
    }
  }

  lemma ReadSubmitsNothing(w: World, e: Event)
    requires e.Receive? || e.SocketBroken?
    ensures Step(w, e).ledger.submitted == w.ledger.submitted
  {
    if e.Receive? && (e.p.Ack? || e.p.PubRecPacket?) {
      FireHandlerCases(w, e.p.id);
    }
  }

  // ---- Turns, restarts and pings ----

  /** A read takes the packets of its round one by one, in order, and then notices a broken socket, from which nothing is read. */
  lemma ReadsInOrder(w: World, r: Round, more: seq<Round>)
    requires !w.st.vars.exited
    ensures var v := Exec(w, ReadEvents(w, [r] + more));
            if w.st.vars.socketCorrupted then v == w
            else if r.packets == [] then v == (if r.broken then WithVars(w, w.st.vars.(socketCorrupted := true)) else w)
            else
              var u := Step(w, Receive(r.packets[0]));
              v == Exec(u, ReadEvents(u, [r.(packets := r.packets[1..])] + more))
  {
    var rounds := [r] + more;
    if !w.st.vars.socketCorrupted {
      assert rounds[0] == r;
      if r.packets == [] {
        assert Received([]) == [] && [] + [SocketBroken] == [SocketBroken];
        OneEvent(w, SocketBroken);
      } else {
        FirstPacket(w, r, more);
      }
    }
  }

  lemma FirstPacket(w: World, r: Round, more: seq<Round>)
    requires !w.st.vars.socketCorrupted && r.packets != []
    ensures var u := Step(w, Receive(r.packets[0]));
            Exec(w, ReadEvents(w, [r] + more)) == Exec(u, ReadEvents(u, [r.(packets := r.packets[1..])] + more))
  {
    var p, rest := r.packets[0], r.(packets := r.packets[1..]);
    var u := Step(w, Receive(p));
    SocketUnchanged(w, p);
    assert ([r] + more)[0] == r && ([rest] + more)[0] == rest;
    var es := Received(rest.packets) + if r.broken then [SocketBroken] else [];
    assert Received(r.packets) == [Receive(p)] + Received(rest.packets);
    assert ReadEvents(w, [r] + more) == [Receive(p)] + es && ReadEvents(u, [rest] + more) == es;
    assert ([Receive(p)] + es)[1..] == es;
  }

  lemma SocketUnchanged(w: World, p: Packet)
    ensures Step(w, Receive(p)).st.vars.socketCorrupted == w.st.vars.socketCorrupted
  {
    if p.Ack? || p.PubRecPacket? {
      FireHandlerCases(w, p.id);
    }
  }

  /** A turn with a broken socket, or one in which nothing comes and nothing is drained, ages every row by one, and frees it
      after its last tick; with a working socket and a reboot due it also turns to the general source. */
  lemma IdleTurnAges(w: World, io: Io, interval: nat)
    requires Sound(w) && !w.st.vars.exited
    requires w.st.vars.socketCorrupted || (!Drains(w.st.vars) && io.rounds != [] && Silent(io.rounds[0]))
    ensures Turned(w, io, interval).io.writes == io.writes
    ensures var v := Turned(w, io, interval).world;
            && |v.st.slots| == |w.st.slots| && v.st.records == w.st.records && v.ledger == w.ledger
            && (forall k :: 0 <= k < |w.st.slots| ==>
                  var was, now := w.st.slots[k], v.st.slots[k];
                  if was.msgId == 0 then now == was
                  else if was.timeout == 0 then now == Slot(0, 0, was.handler)
                  else now == Slot(was.msgId, was.timeout - 1, was.handler))
            && v.st.vars == if w.st.vars.rebootPending && !w.st.vars.socketCorrupted then w.st.vars.(msgSource := GENERAL) else w.st.vars
  {
    if !w.st.vars.socketCorrupted {
      SilentRead(w, io.rounds);
      TurnPassesGate(w, io, interval);
      GateExactly(w, io.(rounds := RoundsAfterRead(w, io.rounds)), interval);
    }
  }

  /** After a restart every row is free, the first id is 1, nothing is waited for, and the log is as it was. */
  lemma RestartedState(w: World, newProcess: bool, socketUp: bool, storedAck: bool, connectSent: bool)
    ensures var v := Step(w, Restart(newProcess, socketUp, storedAck, connectSent));
            && |v.st.slots| == |w.st.slots| && (forall k :: 0 <= k < |v.st.slots| ==> v.st.slots[k].msgId == 0)
            && IdAfter(v.st.nextPacketId) == 1 && v.st.records == w.st.records
            && v.st.vars.waitingForPuback == NOT_WAITING_FOR_PUBACK && v.st.vars.lastPub == None && v.st.vars.pubAckRecvAttempts == 0
            && !v.st.vars.exited && !v.st.vars.connected && !v.st.vars.rebootPending
            && (v.st.vars.socketCorrupted <==> !socketUp || !connectSent)
            && (v.st.vars.ensureGuarantee <==> socketUp || storedAck)
            && (newProcess && socketUp ==> Drains(v.st.vars)) && (!socketUp ==> !Drains(v.st.vars))
  {
  }

  /** The end of a business-logic run opens the log the first time, and later ends the process exactly if a reboot is due. */
  lemma BusinessEnds(w: World, first: bool)
    requires Sound(w) && !w.st.vars.exited
    ensures var v := Perform(w, BusinessEnd(first));
            && (first ==> v.st.vars == w.st.vars.(msgSource := PERSISTENT_STORAGE))
            && (!first ==> v.st.vars == w.st.vars.(exited := w.st.vars.rebootPending))
            && v.st.records == w.st.records && v.ledger == w.ledger
  {
    OneEvent(w, StartDraining);
    OneEvent(w, Exit);
  }

  /** A ping that is never answered makes a reboot due, after ten rounds less those missed before. */
  lemma {:induction false} UnansweredPing(w: World)
    requires Sound(w) && !w.st.vars.exited && w.st.vars.ping.pending
    ensures PingStretch(w, []).calls == 10 - w.st.vars.ping.attempts
    ensures var v := PingResult(w, []).0;
            v == WithVars(w, w.st.vars.(ping := Ping(true, 0), rebootPending := true))
    decreases MAX_CYCLES_TO_WAIT_FOR_PINGRESP - w.st.vars.ping.attempts
  {
    assert Received([]) == [];
    assert ReadEvents(w, []) == [];
    PingUnfolds(w, []);
    PingSteps(w);
    StepKeepsSound(w, PingMissed);
    if w.st.vars.ping.attempts + 1 < MAX_CYCLES_TO_WAIT_FOR_PINGRESP {
      UnansweredPing(Step(w, PingMissed));
    }
  }

  /** A broken socket is not pinged; a write over a connection that fails breaks it, and the answer is waited for even so. */
  lemma PingBreaksSocket(w: World, writes: seq<bool>, publishCount: nat)
    requires Sound(w) && !w.st.vars.exited
    ensures var v := Exec(w, PingEvents(w, Io(writes, [], publishCount)));
            if w.st.vars.socketCorrupted then v == w
            else v == WithVars(w, w.st.vars.(ping := Ping(true, 0), rebootPending := true,
                                             socketCorrupted := w.st.vars.connected && !WriteSucceeds(writes)))
  {
    var io := Io(writes, [], publishCount);
    if !w.st.vars.socketCorrupted {
      PingSentOff(w, io);
      PingWritten(w, io);
      UnansweredPing(Pinged(w, io));
      assert PingResult(Pinged(w, io), []).0 == Exec(w, PingEvents(w, io));
    }
  }

  lemma PingWritten(w: World, io: Io)
    requires !w.st.vars.exited && !w.st.vars.socketCorrupted
    ensures Pinged(w, io) == WithVars(w, w.st.vars.(ping := w.st.vars.ping.(pending := true),
                                                    socketCorrupted := w.st.vars.connected && !WriteSucceeds(io.writes)))
  {
    PingSteps(w);
  }

  /** One that is answered in the first round changes nothing. */
  lemma AnsweredPing(w: World, io: Io)
    requires Sound(w) && !w.st.vars.exited && !w.st.vars.socketCorrupted && !w.st.vars.ping.pending
    requires w.st.vars.connected && WriteSucceeds(io.writes) && io.rounds == [Round([PingResp], false)]
    ensures Exec(w, PingEvents(w, io)) == w
  {
    PingSentOff(w, io);
    PingSteps(w);
    var v := Pinged(w, io);
    PingSteps(v);
    assert Received([PingResp]) == [Receive(PingResp)];
    assert ReadEvents(v, io.rounds) == [Receive(PingResp)] + [];
    assert [Receive(PingResp)] + [] == [Receive(PingResp)];
    OneEvent(v, Receive(PingResp));
    PingUnfolds(v, io.rounds);
  }
}
