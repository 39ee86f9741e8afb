/** Packet identifiers and the table of result handlers waiting for a reply (instamsg.c). */
module ResultHandlers {
  import opened Common

  const MAX_MESSAGE_HANDLERS: nat := 50
  const MAX_PACKET_ID: nat := 10000
  const MQTT_RESULT_HANDLER_TIMEOUT: nat := 10

  /** One row of `resultHandlers`.  A row with msgId 0 is free.  `handler` names the callback; None is the NULL
      pointer of a row that was never used. */
  datatype Slot = Slot(msgId: int, timeout: nat, handler: Option<nat>)

  /** Index of the first row with this id, or |slots|. */
  function IndexOf(slots: seq<Slot>, id: int): (i: nat)
    ensures i <= |slots|
    ensures forall j :: 0 <= j < i ==> slots[j].msgId != id
    ensures i < |slots| ==> slots[i].msgId == id
  {
    if slots == [] then 0
    else if slots[0].msgId == id then 0
    else
      var i := IndexOf(slots[1..], id);
      assert forall j :: 0 < j < |slots| ==> slots[j] == slots[1..][j - 1];
      i + 1
  }

  /** A new row takes the first free place; a full table drops it. */
  function Attached(slots: seq<Slot>, s: Slot): seq<Slot> {
    var i := IndexOf(slots, 0);
    if i < |slots| then slots[i := s] else slots
  }

  function Removed(slots: seq<Slot>, id: int): seq<Slot> {
    var i := IndexOf(slots, id);
    if i < |slots| then slots[i := slots[i].(msgId := 0)] else slots
  }

  function Aged(s: Slot): Slot {
    if s.msgId == 0 then s
    else if s.timeout == 0 then s.(msgId := 0)
    else s.(timeout := s.timeout - 1)
  }

  function AllAged(slots: seq<Slot>): seq<Slot> {
    seq(|slots|, i requires 0 <= i < |slots| => Aged(slots[i]))
  }

  function NextId(current: nat): nat {
    if current == MAX_PACKET_ID then 1 else current + 1
  }

  lemma IndexOfIs(slots: seq<Slot>, id: int, i: nat)
    requires i <= |slots|
    requires forall j :: 0 <= j < i ==> slots[j].msgId != id
    requires i < |slots| ==> slots[i].msgId == id
    ensures IndexOf(slots, id) == i
  {
  }

  /** The handler table of the client object. */
  class HandlerTable {
    const slots: array<Slot>
    var nextPacketId: nat

    ghost predicate Valid()
      reads this, slots
    {
      slots.Length == MAX_MESSAGE_HANDLERS && 1 <= nextPacketId <= MAX_PACKET_ID
    }

    constructor ()
      ensures Valid() && fresh(slots)
      ensures nextPacketId == MAX_PACKET_ID
      ensures slots[..] == seq(MAX_MESSAGE_HANDLERS, i => Slot(0, 0, None))
    {
      slots := new Slot[MAX_MESSAGE_HANDLERS](i => Slot(0, 0, None));
      nextPacketId := MAX_PACKET_ID;
    }

    /** The part of initInstaMsg that empties the table. */
    method Reset()
      requires Valid()
      modifies this, slots
      ensures Valid() && nextPacketId == MAX_PACKET_ID
      ensures slots[..] == Cleared(old(slots[..]))
    {
      for i := 0 to slots.Length
        invariant forall j :: 0 <= j < slots.Length ==>
          slots[j] == if j < i then old(slots[j]).(msgId := 0, timeout := 0) else old(slots[j])
      {
        slots[i] := slots[i].(msgId := 0, timeout := 0);
      }
      nextPacketId := MAX_PACKET_ID;
    }

    method GetNextPacketId() returns (id: nat)
      requires Valid()
      modifies this`nextPacketId
      ensures Valid() && id == nextPacketId == NextId(old(nextPacketId))
    {
      nextPacketId := if nextPacketId == MAX_PACKET_ID then 1 else nextPacketId + 1;
      id := nextPacketId;
    }

    method AttachResultHandler(msgId: int, timeout: nat, resultHandler: Option<nat>)
      requires Valid()
      modifies slots
      ensures Valid()
      ensures slots[..] == if resultHandler == None then old(slots[..])
                           else Attached(old(slots[..]), Slot(msgId, timeout, resultHandler))
    {
      if resultHandler == None {
        return;
      }
      var i := 0;
      while i < MAX_MESSAGE_HANDLERS
        invariant 0 <= i <= MAX_MESSAGE_HANDLERS && slots[..] == old(slots[..])
        invariant forall j :: 0 <= j < i ==> slots[j].msgId != 0
      {
        if slots[i].msgId == 0 {
          IndexOfIs(slots[..], 0, i);
          slots[i] := Slot(msgId, timeout, resultHandler);
          return;
        }
        i := i + 1;
      }
      IndexOfIs(slots[..], 0, i);
    }

    /** Calls the handler of the first row with this id and frees the row; `fp` is what was called. Id 0 is not excluded:
        it finds the first free row and calls what that row still holds. A call of NULL does not return. */
    method FireResultHandlerAndRemove(msgId: int) returns (found: bool, fp: Option<nat>)
      requires Valid()
      modifies slots
      ensures var i := IndexOf(old(slots[..]), msgId);
              (found <==> i < slots.Length) && (found ==> fp == old(slots[..])[i].handler)
      ensures Valid() && slots[..] == if found && fp == None then old(slots[..]) else Removed(old(slots[..]), msgId)
    {
      found, fp := false, None;
      var i := 0;
      while i < MAX_MESSAGE_HANDLERS
        invariant 0 <= i <= MAX_MESSAGE_HANDLERS && slots[..] == old(slots[..])
        invariant forall j :: 0 <= j < i ==> slots[j].msgId != msgId
      {
        if slots[i].msgId == msgId {
          IndexOfIs(slots[..], msgId, i);
          found, fp := true, slots[i].handler;
          if fp == None {
            return;
          }
          slots[i] := slots[i].(msgId := 0);
          return;
        }
        i := i + 1;
      }
      IndexOfIs(slots[..], msgId, i);
    }

    method RemoveExpiredResultHandlers()
      requires Valid()
      modifies slots
      ensures Valid() && slots[..] == AllAged(old(slots[..]))
    {
      for i := 0 to slots.Length
        invariant forall j :: 0 <= j < slots.Length ==>
          slots[j] == if j < i then Aged(old(slots[j])) else old(slots[j])
      {
        if slots[i].msgId == 0 {
        } else if slots[i].timeout <= 0 {
          slots[i] := slots[i].(msgId := 0);
        } else {
          slots[i] := slots[i].(timeout := slots[i].timeout - 1);
        }
      }
    }
  }

  function Cleared(slots: seq<Slot>): seq<Slot> {
    seq(|slots|, i requires 0 <= i < |slots| => slots[i].(msgId := 0, timeout := 0))
  }
}
