/** What can happen to the rows of the result-handler table over whole runs. */
module HandlerLifetime {
  import opened Common
  import opened ResultHandlers

  // ---- Lifetime of one handler over any interleaving ----

  datatype Event = Attach(slot: Slot) | Packet(id: int) | Tick

  /** A handler was called: by a packet with this id, after this many ticks. */
  datatype Firing = Firing(handler: Option<nat>, id: int, ticks: nat)

  /** The rows after an event; None when it called NULL, which ends the process. */
  function Next(slots: seq<Slot>, e: Event): Option<seq<Slot>> {
    match e
    case Attach(s) => Some(if s.handler == None then slots else Attached(slots, s))
    case Packet(id) =>
      var i := IndexOf(slots, id);
      if i < |slots| && slots[i].handler == None then None else Some(Removed(slots, id))
    case Tick => Some(AllAged(slots))
  }

  function Fired(slots: seq<Slot>, e: Event, ticks: nat): seq<Firing> {
    if e.Packet? && IndexOf(slots, e.id) < |slots|
    then [Firing(slots[IndexOf(slots, e.id)].handler, e.id, ticks)]
    else []
  }

  function Ticked(ticks: nat, e: Event): nat {
    if e.Tick? then ticks + 1 else ticks
  }

  function Firings(slots: seq<Slot>, events: seq<Event>, ticks: nat): seq<Firing>
    decreases |events|
  {
    if events == [] then []
    else
      var fired, next := Fired(slots, events[0], ticks), Next(slots, events[0]);
      if next == None then fired else fired + Firings(next.value, events[1..], Ticked(ticks, events[0]))
  }

  /** The calls of one handler: those by replies, or the stray ones by packets with id 0. */
  function Of(fs: seq<Firing>, handler: nat, stray: bool): seq<Firing> {
    if fs == [] then []
    else (if fs[0].handler == Some(handler) && (fs[0].id == 0) == stray then [fs[0]] else []) + Of(fs[1..], handler, stray)
  }

  lemma {:induction false} OfConcat(a: seq<Firing>, b: seq<Firing>, handler: nat, stray: bool)
    ensures Of(a + b, handler, stray) == Of(a, handler, stray) + Of(b, handler, stray)
  {
    if a == [] {
      assert a + b == b;
    } else {
      assert (a + b)[1..] == a[1..] + b;
      OfConcat(a[1..], b, handler, stray);
    }
  }

  lemma FiringsStep(slots: seq<Slot>, events: seq<Event>, ticks: nat, handler: nat, stray: bool)
    requires events != [] && Next(slots, events[0]).Some?
    ensures Of(Firings(slots, events, ticks), handler, stray)
         == Of(Fired(slots, events[0], ticks), handler, stray)
            + Of(Firings(Next(slots, events[0]).value, events[1..], Ticked(ticks, events[0])), handler, stray)
  {
    OfConcat(Fired(slots, events[0], ticks),
             Firings(Next(slots, events[0]).value, events[1..], Ticked(ticks, events[0])), handler, stray);
  }

  ghost predicate Live(slots: seq<Slot>, k: int) {
    0 <= k < |slots| && slots[k].msgId != 0
  }

  /** Events attach other handlers only. */
  ghost predicate Others(events: seq<Event>, handler: nat) {
    forall e :: e in events && e.Attach? ==> e.slot.handler != Some(handler)
  }

  ghost predicate Absent(slots: seq<Slot>, handler: nat) {
    forall j :: Live(slots, j) ==> slots[j].handler != Some(handler)
  }

  ghost predicate OnlyAt(slots: seq<Slot>, handler: nat, k: int) {
    Live(slots, k) && slots[k].handler == Some(handler) &&
    forall j :: Live(slots, j) && j != k ==> slots[j].handler != Some(handler)
  }

  /** What happens to one row if it were alone: the first packet with its id fires it, provided that
      no more than `timeout` ticks went by. */
  function Alone(s: Slot, events: seq<Event>, ticks: nat): seq<Firing>
    decreases |events|
  {
    if events == [] then []
    else match events[0]
      case Packet(id) => if id == s.msgId then [Firing(s.handler, id, ticks)] else Alone(s, events[1..], ticks)
      case Tick => if s.timeout == 0 then [] else Alone(s.(timeout := s.timeout - 1), events[1..], ticks + 1)
      case Attach(_) => Alone(s, events[1..], ticks)
  }

  lemma StaysAbsent(slots: seq<Slot>, e: Event, handler: nat, ticks: nat)
    requires Absent(slots, handler) && (e.Attach? ==> e.slot.handler != Some(handler))
    ensures Next(slots, e).Some? ==> Absent(Next(slots, e).value, handler)
    ensures Of(Fired(slots, e, ticks), handler, false) == []
  {
    if Next(slots, e).Some? {
      var next := Next(slots, e).value;
      assert forall j :: Live(next, j) ==> Live(slots, j) || (e.Attach? && next[j] == e.slot);
    }
    if e.Packet? && e.id != 0 && IndexOf(slots, e.id) < |slots| {
      assert Live(slots, IndexOf(slots, e.id));
    }
  }

  lemma {:induction false} AbsentNeverFires(slots: seq<Slot>, events: seq<Event>, handler: nat, ticks: nat)
    requires Absent(slots, handler) && Others(events, handler)
    ensures Of(Firings(slots, events, ticks), handler, false) == []
    decreases |events|
  {
    if events != [] {
      var e := events[0];
      assert e in events;
      StaysAbsent(slots, e, handler, ticks);
      if Next(slots, e).Some? {
        FiringsStep(slots, events, ticks, handler, false);
        AbsentNeverFires(Next(slots, e).value, events[1..], handler, Ticked(ticks, e));
      }
    }
  }

  ghost predicate IdOnlyAt(slots: seq<Slot>, k: int) {
    Live(slots, k) && forall j :: Live(slots, j) && j != k ==> slots[j].msgId != slots[k].msgId
  }

  ghost predicate AvoidsId(events: seq<Event>, id: int) {
    forall e :: e in events && e.Attach? ==> e.slot.msgId != id
  }

  /** One event either leaves the row of a handler in place or frees it for good. */
  lemma NextRow(slots: seq<Slot>, e: Event, k: int, handler: nat)
    requires OnlyAt(slots, handler, k) && Next(slots, e).Some?
    requires e.Attach? ==> e.slot.handler != Some(handler)
    ensures var next := Next(slots, e).value;
            if Live(next, k) then
              && OnlyAt(next, handler, k) && next[k].msgId == slots[k].msgId
              && next[k].timeout == (if e.Tick? then slots[k].timeout - 1 else slots[k].timeout)
              && (IdOnlyAt(slots, k) && (e.Attach? ==> e.slot.msgId != slots[k].msgId) ==> IdOnlyAt(next, k))
            else Absent(next, handler)
    ensures Live(Next(slots, e).value, k) <==>
      !(e.Packet? && IndexOf(slots, e.id) == k) && !(e.Tick? && slots[k].timeout == 0)
  {
    var next := Next(slots, e).value;
    assert forall j :: Live(next, j) ==> Live(slots, j) || (e.Attach? && next[j] == e.slot);
    assert forall j :: Live(next, j) && Live(slots, j) ==>
      next[j].msgId == slots[j].msgId && next[j].handler == slots[j].handler;
  }

  lemma OfFired(slots: seq<Slot>, e: Event, ticks: nat, k: int, handler: nat)
    requires OnlyAt(slots, handler, k)
    ensures Of(Fired(slots, e, ticks), handler, false)
         == if e.Packet? && IndexOf(slots, e.id) == k then [Firing(Some(handler), slots[k].msgId, ticks)] else []
  {
    if e.Packet? && e.id != 0 && IndexOf(slots, e.id) < |slots| {
      assert Live(slots, IndexOf(slots, e.id));
    }
  }

  /** Whatever else is attached, received or expires, replies call a handler at most once, only because of a
      packet with its id, and never once timeout + 1 ticks have passed. */
  lemma {:induction false} HandlerLifetime(slots: seq<Slot>, events: seq<Event>, k: int, handler: nat, ticks: nat)
    requires OnlyAt(slots, handler, k) && Others(events, handler)
    ensures var fs := Of(Firings(slots, events, ticks), handler, false);
            |fs| <= 1 && forall f :: f in fs ==> f.id == slots[k].msgId && f.ticks <= ticks + slots[k].timeout
    decreases |events|
  {
    if events != [] {
      var e := events[0];
      assert e in events;
      OfFired(slots, e, ticks, k, handler);
      if Next(slots, e).Some? {
        var next := Next(slots, e).value;
        FiringsStep(slots, events, ticks, handler, false);
        NextRow(slots, e, k, handler);
        if Live(next, k) {
          HandlerLifetime(next, events[1..], k, handler, Ticked(ticks, e));
        } else {
          AbsentNeverFires(next, events[1..], handler, Ticked(ticks, e));
        }
      }
    }
  }

  /** The rows after a run; None if it called NULL. */
  function Rows(slots: seq<Slot>, events: seq<Event>): Option<seq<Slot>>
    decreases |events|
  {
    if events == [] then Some(slots)
    else if Next(slots, events[0]) == None then None
    else Rows(Next(slots, events[0]).value, events[1..])
  }

  /** With no second row for its id, a handler fares by replies exactly as if it were alone in the table, in every run
      that does not end in a call of NULL. */
  lemma {:induction false} HandlerFiresExactly(slots: seq<Slot>, events: seq<Event>, k: int, handler: nat, ticks: nat)
    requires OnlyAt(slots, handler, k) && Others(events, handler)
    requires IdOnlyAt(slots, k) && AvoidsId(events, slots[k].msgId) && Rows(slots, events).Some?
    ensures Of(Firings(slots, events, ticks), handler, false) == Alone(slots[k], events, ticks)
    decreases |events|
  {
    if events != [] {
      var e := events[0];
      assert e in events;
      var next := Next(slots, e).value;
      FiringsStep(slots, events, ticks, handler, false);
      NextRow(slots, e, k, handler);
      OfFired(slots, e, ticks, k, handler);
      assert e.Packet? && e.id == slots[k].msgId ==> IndexOf(slots, e.id) == k by {
        assert IndexOf(slots, slots[k].msgId) < |slots| ==> Live(slots, IndexOf(slots, slots[k].msgId));
      }
      if Live(next, k) {
        assert next[k] == if e.Tick? then slots[k].(timeout := slots[k].timeout - 1) else slots[k];
        HandlerFiresExactly(next, events[1..], k, handler, Ticked(ticks, e));
      } else {
        AbsentNeverFires(next, events[1..], handler, Ticked(ticks, e));
      }
    }
  }

  // ---- From attaching on ----

  /** A free row, and no row that has the id or the handler already. */
  ghost predicate RoomFor(slots: seq<Slot>, s: Slot, handler: nat) {
    && (exists k :: 0 <= k < |slots| && slots[k].msgId == 0) && Absent(slots, handler)
    && forall k :: 0 <= k < |slots| ==> slots[k].msgId != s.msgId
  }

  /** An attached handler fares exactly as a row of its own, with the id and the timeout asked for, in a table with room;
      a full table drops it. */
  lemma AttachedFiresExactly(slots: seq<Slot>, s: Slot, events: seq<Event>, handler: nat, ticks: nat)
    requires s.msgId != 0 && s.handler == Some(handler) && Others(events, handler) && AvoidsId(events, s.msgId)
    requires Rows(slots, [Attach(s)] + events).Some?
    ensures RoomFor(slots, s, handler) ==> Of(Firings(slots, [Attach(s)] + events, ticks), handler, false) == Alone(s, events, ticks)
    ensures (forall k :: 0 <= k < |slots| ==> slots[k].msgId != 0) && Absent(slots, handler) ==>
              Of(Firings(slots, [Attach(s)] + events, ticks), handler, false) == []
  {
    var es, i := [Attach(s)] + events, IndexOf(slots, 0);
    assert es[0] == Attach(s) && es[1..] == events;
    FiringsStep(slots, es, ticks, handler, false);
    if RoomFor(slots, s, handler) {
      var next := Attached(slots, s);
      assert next == slots[i := s] && Live(next, i);
      assert forall j :: Live(next, j) && j != i ==> Live(slots, j);
      HandlerFiresExactly(next, events, i, handler, ticks);
    } else if (forall k :: 0 <= k < |slots| ==> slots[k].msgId != 0) && Absent(slots, handler) {
      AbsentNeverFires(slots, events, handler, ticks);
    }
  }

  function Ticks(n: nat): seq<Event> {
    if n == 0 then [] else [Tick] + Ticks(n - 1)
  }

  /** So a handler whose reply comes after `n` ticks is called, at that tick, exactly if `n` is at most the timeout. */
  lemma AttachedFiresInTime(slots: seq<Slot>, s: Slot, n: nat, handler: nat)
    requires s.msgId != 0 && s.handler == Some(handler) && RoomFor(slots, s, handler)
    requires Rows(slots, [Attach(s)] + (Ticks(n) + [Packet(s.msgId)])).Some?
    ensures Of(Firings(slots, [Attach(s)] + (Ticks(n) + [Packet(s.msgId)]), 0), handler, false)
         == if n <= s.timeout then [Firing(Some(handler), s.msgId, n)] else []
  {
    NoAttachInTicks(n);
    assert forall e :: e in Ticks(n) + [Packet(s.msgId)] ==> !e.Attach?;
    AttachedFiresExactly(slots, s, Ticks(n) + [Packet(s.msgId)], handler, 0);
    AloneAfterTicks(s, n, 0);
  }

  lemma {:induction false} NoAttachInTicks(n: nat)
    ensures forall e :: e in Ticks(n) ==> e == Tick
  {
    if n > 0 {
      NoAttachInTicks(n - 1);
    }
  }

  lemma {:induction false} AloneAfterTicks(s: Slot, n: nat, ticks: nat)
    ensures Alone(s, Ticks(n) + [Packet(s.msgId)], ticks) == if n <= s.timeout then [Firing(s.handler, s.msgId, ticks + n)] else []
    decreases n
  {
    var es := Ticks(n) + [Packet(s.msgId)];
    if n > 0 {
      assert es[0] == Tick && es[1..] == Ticks(n - 1) + [Packet(s.msgId)];
      if s.timeout > 0 {
        AloneAfterTicks(s.(timeout := s.timeout - 1), n - 1, ticks + 1);
      }
    } else {
      assert es == [Packet(s.msgId)];
    }
  }

  // ---- Packets with id 0 ----

  ghost predicate NoZeroId(events: seq<Event>) {
    Packet(0) !in events
  }

  /** Without packets that carry id 0 there are no stray calls, so that HandlerLifetime speaks of all calls. */
  lemma {:induction false} NoStrayCalls(slots: seq<Slot>, events: seq<Event>, handler: nat, ticks: nat)
    requires NoZeroId(events)
    ensures Of(Firings(slots, events, ticks), handler, true) == []
    decreases |events|
  {
    if events != [] {
      assert events[0] in events;
      if Next(slots, events[0]).Some? {
        FiringsStep(slots, events, ticks, handler, true);
        NoStrayCalls(Next(slots, events[0]).value, events[1..], handler, Ticked(ticks, events[0]));
      }
    }
  }

  /** With one, a handler is called a second time, by an id that is not its own. */
  lemma ZeroIdCallsAgain()
    ensures Firings([Slot(7, 10, Some(1))], [Packet(7), Packet(0)], 0) == [Firing(Some(1), 7, 0), Firing(Some(1), 0, 0)]
  {
    var slots, events := [Slot(7, 10, Some(1))], [Packet(7), Packet(0)];
    var freed := [Slot(0, 10, Some(1))];
    assert IndexOf(slots, 7) == 0 && Removed(slots, 7) == freed;
    assert IndexOf(freed, 0) == 0 && Removed(freed, 0) == freed;
    assert Next(slots, Packet(7)) == Some(freed) && Next(freed, Packet(0)) == Some(freed);
    assert events[1..] == [Packet(0)] && events[1..][1..] == [];
    assert Firings(freed, [Packet(0)], 0) == [Firing(Some(1), 0, 0)] + Firings(freed, [], 0);
  }

  /** An expired one is called after its last tick, and a row that was never used calls NULL. */
  lemma ZeroIdCallsExpiredOrNull()
    ensures Firings([Slot(7, 0, Some(1))], [Tick, Packet(0)], 0) == [Firing(Some(1), 0, 1)]
    ensures Next([Slot(0, 0, None)], Packet(0)) == None
  {
    var slots, events := [Slot(7, 0, Some(1))], [Tick, Packet(0)];
    var freed := [Slot(0, 0, Some(1))];
    assert AllAged(slots) == freed;
    assert IndexOf(freed, 0) == 0 && Removed(freed, 0) == freed;
    assert Next(slots, Tick) == Some(freed) && Next(freed, Packet(0)) == Some(freed);
    assert Fired(slots, Tick, 0) == [];
    assert events[1..] == [Packet(0)] && events[1..][1..] == [];
    assert Firings(freed, [Packet(0)], 1) == [Firing(Some(1), 0, 1)] + Firings(freed, [], 1);
  }

  /** Only row k may hold the handler, live or freed. */
  ghost predicate AtMostAt(slots: seq<Slot>, handler: nat, k: int) {
    forall j :: 0 <= j < |slots| && j != k ==> slots[j].handler != Some(handler)
  }

  /** At the i-th event a packet with id 0 arrives while row k is the first free one and still holds the handler. */
  ghost predicate StrayAt(slots: seq<Slot>, events: seq<Event>, k: int, handler: nat, i: int) {
    && 0 <= i < |events| && events[i] == Packet(0)
    && var rows := Rows(slots, events[..i]);
       rows.Some? && 0 <= k < |rows.value| && IndexOf(rows.value, 0) == k && rows.value[k].handler == Some(handler)
  }

  lemma StrayLater(slots: seq<Slot>, events: seq<Event>, k: int, handler: nat, i: nat)
    requires events != [] && Next(slots, events[0]).Some?
    ensures StrayAt(slots, events, k, handler, i + 1) <==> StrayAt(Next(slots, events[0]).value, events[1..], k, handler, i)
  {
    if i + 1 < |events| {
      assert events[..i + 1][0] == events[0] && events[..i + 1][1..] == events[1..][..i];
    }
  }

  lemma StrayFired(slots: seq<Slot>, e: Event, k: int, handler: nat, ticks: nat)
    requires AtMostAt(slots, handler, k) && (e.Attach? ==> e.slot.handler != Some(handler))
    ensures Of(Fired(slots, e, ticks), handler, true) != [] <==>
      e == Packet(0) && 0 <= k < |slots| && IndexOf(slots, 0) == k && slots[k].handler == Some(handler)
    ensures Next(slots, e).Some? ==> AtMostAt(Next(slots, e).value, handler, k)
  {
  }

  /** A handler is called by a stray packet exactly when one arrives while its row is the first free one and was not
      overwritten since; a live row never is. */
  lemma {:induction false} StrayCallsExactly(slots: seq<Slot>, events: seq<Event>, k: int, handler: nat, ticks: nat)
    requires AtMostAt(slots, handler, k) && Others(events, handler)
    ensures Of(Firings(slots, events, ticks), handler, true) != [] <==> exists i :: StrayAt(slots, events, k, handler, i)
    decreases |events|
  {
    if events != [] {
      var e := events[0];
      assert e in events;
      assert events[..0] == [];
      StrayFired(slots, e, k, handler, ticks);
      assert StrayAt(slots, events, k, handler, 0) <==> Of(Fired(slots, e, ticks), handler, true) != [];
      if Next(slots, e) == None {
        forall i | i > 0
          ensures !StrayAt(slots, events, k, handler, i)
        {
          assert i < |events| ==> events[..i][0] == e;
        }
      } else {
        var next := Next(slots, e).value;
        FiringsStep(slots, events, ticks, handler, true);
        StrayCallsExactly(next, events[1..], k, handler, Ticked(ticks, e));
        StrayShifts(slots, events, k, handler);
      }
    }
  }

  lemma StrayShifts(slots: seq<Slot>, events: seq<Event>, k: int, handler: nat)
    requires events != [] && Next(slots, events[0]).Some?
    ensures (exists i :: StrayAt(slots, events, k, handler, i)) <==>
      StrayAt(slots, events, k, handler, 0) || exists i :: StrayAt(Next(slots, events[0]).value, events[1..], k, handler, i)
  {
    var next := Next(slots, events[0]).value;
    if i :| StrayAt(slots, events, k, handler, i) && i > 0 {
      StrayLater(slots, events, k, handler, i - 1);
    }
    if i :| StrayAt(next, events[1..], k, handler, i) {
      StrayLater(slots, events, k, handler, i);
    }
  }

  // ---- Identifiers ----

  /** The identifier of the n-th request of a session; before the first one the counter stands at the maximum. */
  function IdOf(n: nat): (id: nat)
    ensures 1 <= id <= MAX_PACKET_ID
  {
    (n + MAX_PACKET_ID - 1) % MAX_PACKET_ID + 1
  }

  lemma NextIdCounts(n: nat)
    ensures IdOf(0) == MAX_PACKET_ID && NextId(IdOf(n)) == IdOf(n + 1)
  {
  }

  /** Identifiers repeat exactly at multiples of MAX_PACKET_ID. */
  lemma IdsRepeat(m: nat, n: nat)
    requires m <= n
    ensures IdOf(m) == IdOf(n) <==> (n - m) % MAX_PACKET_ID == 0
  {
  }

  /** Number of the last request that was given this id, 0 if there is none. */
  function LastIssue(id: nat, n: nat): nat {
    if n == 0 then 0 else if IdOf(n) == id then n else LastIssue(id, n - 1)
  }

  lemma {:induction false} LastIssueProperties(id: nat, n: nat)
    ensures var m := LastIssue(id, n); m <= n && (m != 0 ==> IdOf(m) == id)
    ensures var m := LastIssue(id, n); forall j :: m < j <= n ==> IdOf(j) != id
  {
    if n != 0 && IdOf(n) != id {
      LastIssueProperties(id, n - 1);
    }
  }

  /** The table and the identifier counter, with how many ids were issued and, for each row, the number of its id's issue
      and how many were issued when the row was filled. */
  datatype Session = Session(slots: seq<Slot>, nextPacketId: nat, issued: nat, issues: seq<nat>, born: seq<nat>)

  datatype Request =
    | Publish(timeout: nat, handler: nat)
    | IssueOnly
    | Reply(id: nat)
    | PubRec(id: nat, handler: nat)
    | Age

  predicate Sized(s: Session) {
    |s.slots| == |s.issues| == |s.born|
  }

  function AttachIn(s: Session, slot: Slot, issue: nat): Session
    requires Sized(s)
  {
    var i := IndexOf(s.slots, 0);
    if i == |s.slots| then s
    else s.(slots := Attached(s.slots, slot), issues := s.issues[i := issue], born := s.born[i := s.issued])
  }

  function Issued(s: Session): Session {
    s.(nextPacketId := NextId(s.nextPacketId), issued := s.issued + 1)
  }

  function Serve(s: Session, r: Request): Session
    requires Sized(s)
    ensures Sized(Serve(s, r))
  {
    match r
    case Publish(timeout, handler) =>
      var v := Issued(s);
      AttachIn(v, Slot(v.nextPacketId, timeout, Some(handler)), v.issued)
    case IssueOnly => Issued(s)
    case Reply(id) => s.(slots := Removed(s.slots, id))
    case PubRec(id, handler) =>
      AttachIn(s.(slots := Removed(s.slots, id)), Slot(id, MQTT_RESULT_HANDLER_TIMEOUT, Some(handler)), LastIssue(id, s.issued))
    case Age => s.(slots := AllAged(s.slots))
  }

  /** PUBREC packets name ids that were issued. (Id 0 marks no row, and a reply with it changes none.) */
  predicate Named(s: Session, r: Request) {
    r.PubRec? ==> r.id == 0 || LastIssue(r.id, s.issued) != 0
  }

  /** The books are right: the counter stands at the last id issued, and every live row has the id of its issue. */
  ghost predicate Kept(s: Session) {
    && Sized(s) && s.nextPacketId == IdOf(s.issued)
    && (forall k :: Live(s.slots, k) ==> 1 <= s.issues[k] <= s.born[k] <= s.issued && s.slots[k].msgId == IdOf(s.issues[k]))
  }

  ghost predicate Distinct(slots: seq<Slot>) {
    forall j, k :: Live(slots, j) && Live(slots, k) && j != k ==> slots[j].msgId != slots[k].msgId
  }

  lemma RemovedRows(slots: seq<Slot>, id: nat)
    ensures forall k :: Live(Removed(slots, id), k) ==> Live(slots, k) && Removed(slots, id)[k] == slots[k]
    ensures Distinct(slots) && id != 0 ==> forall k :: Live(Removed(slots, id), k) ==> slots[k].msgId != id
  {
    var i := IndexOf(slots, id);
    if i < |slots| && id != 0 {
      assert Live(slots, i);
    }
  }

  lemma ServeKeeps(s: Session, r: Request)
    requires Kept(s) && Named(s, r)
    ensures Kept(Serve(s, r))
  {
    NextIdCounts(s.issued);
    match r
    case Publish(_, _) =>
    case IssueOnly =>
    case Reply(id) => RemovedRows(s.slots, id);
    case PubRec(id, handler) =>
      LastIssueProperties(id, s.issued);
      RemovedRows(s.slots, id);
    case Age =>
      assert forall k :: Live(AllAged(s.slots), k) ==> Live(s.slots, k) && AllAged(s.slots)[k].msgId == s.slots[k].msgId;
  }

  /** The test that would have to be made before an id is given to a row: the table is full, or no live row has an id that
      was issued a multiple of MAX_PACKET_ID issues before. */
  ghost predicate Fresh(s: Session, r: Request)
    requires Sized(s)
  {
    r.Publish? ==>
      || IndexOf(s.slots, 0) == |s.slots|
      || forall k :: Live(s.slots, k) ==> (s.issued + 1 - s.issues[k]) % MAX_PACKET_ID != 0
  }

  /** A request keeps live ids distinct exactly if it is fresh. */
  lemma DistinctExactly(s: Session, r: Request)
    requires Kept(s) && Named(s, r) && Distinct(s.slots)
    ensures Distinct(Serve(s, r).slots) <==> Fresh(s, r)
  {
    match r
    case Publish(timeout, handler) => PublishDistinct(s, timeout, handler);
    case IssueOnly =>
    case Reply(id) => RemovedRows(s.slots, id);
    case PubRec(id, handler) => RemovedRows(s.slots, id);
    case Age =>
      assert forall k :: Live(AllAged(s.slots), k) ==> Live(s.slots, k) && AllAged(s.slots)[k].msgId == s.slots[k].msgId;
  }

  lemma PublishDistinct(s: Session, timeout: nat, handler: nat)
    requires Kept(s) && Distinct(s.slots)
    ensures Distinct(Serve(s, Publish(timeout, handler)).slots) <==> Fresh(s, Publish(timeout, handler))
  {
    NextIdCounts(s.issued);
    var id, i, after := IdOf(s.issued + 1), IndexOf(s.slots, 0), Serve(s, Publish(timeout, handler)).slots;
    forall k | Live(s.slots, k)
      ensures s.slots[k].msgId == id <==> (s.issued + 1 - s.issues[k]) % MAX_PACKET_ID == 0
    {
      IdsRepeat(s.issues[k], s.issued + 1);
    }
    if i < |s.slots| {
      assert after == s.slots[i := Slot(id, timeout, Some(handler))] && Live(after, i);
      assert forall k :: k != i ==> (Live(after, k) <==> Live(s.slots, k));
      if k :| Live(s.slots, k) && s.slots[k].msgId == id {
        assert Live(after, k) && after[k].msgId == after[i].msgId;
      }
    }
  }

  function ServeAll(s: Session, rs: seq<Request>): Session
    requires Sized(s)
    decreases |rs|
  {
    if rs == [] then s else ServeAll(Serve(s, rs[0]), rs[1..])
  }

  predicate AllNamed(s: Session, rs: seq<Request>)
    requires Sized(s)
    decreases |rs|
  {
    rs == [] || (Named(s, rs[0]) && AllNamed(Serve(s, rs[0]), rs[1..]))
  }

  ghost predicate AllFresh(s: Session, rs: seq<Request>)
    requires Sized(s)
    decreases |rs|
  {
    rs == [] || (Fresh(s, rs[0]) && AllFresh(Serve(s, rs[0]), rs[1..]))
  }

  /** Live ids are distinct all along the run. */
  ghost predicate StaysDistinct(s: Session, rs: seq<Request>)
    requires Sized(s)
    decreases |rs|
  {
    Distinct(s.slots) && (rs == [] || StaysDistinct(Serve(s, rs[0]), rs[1..]))
  }

  /** Live ids stay in range in every run, and they stay distinct all along it exactly if each request was fresh. */
  lemma {:induction false} LiveIdsDistinct(s: Session, rs: seq<Request>)
    requires Kept(s) && Distinct(s.slots) && AllNamed(s, rs)
    ensures StaysDistinct(s, rs) <==> AllFresh(s, rs)
    ensures var v := ServeAll(s, rs); Kept(v) && forall k :: Live(v.slots, k) ==> 1 <= v.slots[k].msgId <= MAX_PACKET_ID
    decreases |rs|
  {
    if rs != [] {
      var v := Serve(s, rs[0]);
      ServeKeeps(s, rs[0]);
      DistinctExactly(s, rs[0]);
      if Distinct(v.slots) {
        LiveIdsDistinct(v, rs[1..]);
      } else {
        BooksStayRight(v, rs[1..]);
      }
    }
  }

  lemma {:induction false} BooksStayRight(s: Session, rs: seq<Request>)
    requires Kept(s) && AllNamed(s, rs)
    ensures Kept(ServeAll(s, rs))
    decreases |rs|
  {
    if rs != [] {
      ServeKeeps(s, rs[0]);
      BooksStayRight(Serve(s, rs[0]), rs[1..]);
    }
  }

  // ---- Pacing ----

  /** Fewer than MAX_PACKET_ID ids are issued during the life of any entry. */
  ghost predicate LifePaced(s: Session, r: Request)
    requires Sized(s)
  {
    r.Publish? || r.IssueOnly? ==> forall k :: Live(s.slots, k) ==> s.issued + 1 < s.born[k] + MAX_PACKET_ID
  }

  ghost predicate AllLifePaced(s: Session, rs: seq<Request>)
    requires Sized(s)
    decreases |rs|
  {
    rs == [] || (LifePaced(s, rs[0]) && AllLifePaced(Serve(s, rs[0]), rs[1..]))
  }

  /** The same, counted from the issue of the entry's id. */
  ghost predicate AllIssuePaced(s: Session, rs: seq<Request>)
    requires Sized(s)
    decreases |rs|
  {
    rs == [] ||
    ((rs[0].Publish? ==> forall k :: Live(s.slots, k) ==> s.issued + 1 < s.issues[k] + MAX_PACKET_ID) &&
     AllIssuePaced(Serve(s, rs[0]), rs[1..]))
  }

  /** Pacing by the issue of the ids keeps every run fresh. */
  lemma {:induction false} IssuePaceSuffices(s: Session, rs: seq<Request>)
    requires Kept(s) && AllNamed(s, rs) && AllIssuePaced(s, rs)
    ensures AllFresh(s, rs)
    decreases |rs|
  {
    if rs != [] {
      ServeKeeps(s, rs[0]);
      IssuePaceSuffices(Serve(s, rs[0]), rs[1..]);
    }
  }

  ghost predicate BornWithId(s: Session)
    requires Sized(s)
  {
    forall k :: Live(s.slots, k) ==> s.born[k] == s.issues[k]
  }

  lemma StaysBornWithId(s: Session, r: Request)
    requires Kept(s) && BornWithId(s) && !r.PubRec?
    ensures BornWithId(Serve(s, r))
  {
    if r.Reply? {
      RemovedRows(s.slots, r.id);
    }
    assert forall k :: Live(AllAged(s.slots), k) ==> Live(s.slots, k);
  }

  /** Pacing by the life of the entries does so too, as long as no PUBREC comes. */
  lemma {:induction false} LifePaceSufficesWithoutPubRec(s: Session, rs: seq<Request>)
    requires Kept(s) && BornWithId(s) && AllLifePaced(s, rs) && forall r :: r in rs ==> !r.PubRec?
    ensures AllFresh(s, rs)
    decreases |rs|
  {
    if rs != [] {
      assert rs[0] in rs;
      ServeKeeps(s, rs[0]);
      StaysBornWithId(s, rs[0]);
      LifePaceSufficesWithoutPubRec(Serve(s, rs[0]), rs[1..]);
    }
  }

  /** With one it does not: a PUBREC that arrives late for a finished exchange opens a new row under an old id, and the
      very next publish shares that id, although hardly any id was issued during the life of the row. */
  lemma LatePubRecCollides(s: Session, timeout: nat, handler: nat)
    requires Kept(s) && |s.slots| == MAX_MESSAGE_HANDLERS && s.issued >= MAX_PACKET_ID
    requires forall k :: !Live(s.slots, k)
    ensures var rs := [PubRec(IdOf(s.issued + 1), handler), Publish(timeout, handler)];
            AllNamed(s, rs) && AllLifePaced(s, rs) && !AllFresh(s, rs) && !Distinct(ServeAll(s, rs).slots)
  {
    var id := IdOf(s.issued + 1);
    var late, again := PubRec(id, handler), Publish(timeout, handler);
    var rs := [late, again];
    assert rs[1..] == [again] && rs[1..][1..] == [];
    LateRowOpened(s, handler);
    var v := Serve(s, late);
    PublishDistinct(v, timeout, handler);
    assert AllNamed(v, [again]) && AllLifePaced(v, [again]) && !Fresh(v, again);
    assert ServeAll(s, rs) == ServeAll(v, [again]) == Serve(v, again);
  }

  lemma LateRowOpened(s: Session, handler: nat)
    requires Kept(s) && |s.slots| == MAX_MESSAGE_HANDLERS && s.issued >= MAX_PACKET_ID
    requires forall k :: !Live(s.slots, k)
    ensures var late := PubRec(IdOf(s.issued + 1), handler);
            var v := Serve(s, late);
            && Named(s, late) && Kept(v) && Distinct(v.slots) && v.issued == s.issued
            && Live(v.slots, 0) && v.slots[0].msgId == IdOf(s.issued + 1) && v.born[0] == s.issued
            && IndexOf(v.slots, 0) == 1 && (forall k :: Live(v.slots, k) ==> k == 0)
            && (s.issued + 1 - v.issues[0]) % MAX_PACKET_ID == 0
  {
    var id := IdOf(s.issued + 1);
    var late := PubRec(id, handler);
    LastIssueExists(id, s.issued);
    ServeKeeps(s, late);
    forall j | 0 <= j < |s.slots|
      ensures s.slots[j].msgId == 0
    {
      assert !Live(s.slots, j);
    }
    IndexOfIs(s.slots, id, |s.slots|);
    IndexOfIs(s.slots, 0, 0);
    var v := Serve(s, late);
    assert v.slots == s.slots[0 := Slot(id, MQTT_RESULT_HANDLER_TIMEOUT, Some(handler))];
    IndexOfIs(v.slots, 0, 1);
    assert Live(v.slots, 0);
    IdsRepeat(v.issues[0], s.issued + 1);
  }

  lemma LastIssueExists(id: nat, n: nat)
    requires n >= MAX_PACKET_ID && id == IdOf(n + 1)
    ensures LastIssue(id, n) != 0
  {
    LastIssueProperties(id, n);
    var m := n + 1 - MAX_PACKET_ID;
    IdsRepeat(m, n + 1);
  }
}
