/** The packet readers of MQTTPacket.c: MQTTPacket_read, which waits for its bytes, and MQTTPacket_readnb, which is called
    again and again. */
module StreamReaders {
  import opened ByteSources
  import opened Common
  import opened RemainingLength
  import opened PacketIO

  // ---- MQTTPacket_read ----

  datatype Outcome = Outcome(rc: int, buf: seq<byte>, rest: seq<byte>)

  /** The bytes read and the remaining length are all that decides; an error in the length field is not looked at. */
  function BlockingRead(buf: seq<byte>, buflen: nat, s: seq<byte>): Outcome
    requires 5 <= |buf| && buflen <= |buf|
  {
    if s == [] then Outcome(-1, buf, [])
    else
      var f := DecodeLen(s[1..], MAX_NO_OF_REMAINING_LENGTH_BYTES);
      ValueBound(s[1..], MAX_NO_OF_REMAINING_LENGTH_BYTES);
      BlockingBody(buf[0 := s[0]], buflen, f.value, s[1..][f.count..])
  }

  function BlockingBody(buf: seq<byte>, buflen: nat, remLen: nat, s: seq<byte>): Outcome
    requires 5 <= |buf| && buflen <= |buf| && remLen < LENGTH_LIMIT
  {
    EncodedSize(remLen);
    var framed := Splice(buf, 1, EncodeLen(remLen));
    var len := 1 + |EncodeLen(remLen)|;
    if len + remLen > buflen then Outcome(-1, framed, s)
    else if |s| < remLen then Outcome(-1, Splice(framed, len, s), [])
    else Outcome(buf[0] / 16, Splice(framed, len, s[..remLen]), s[remLen..])
  }

  lemma ValueBound(s: seq<byte>, limit: nat)
    ensures DecodeLen(s, limit).value < Pow128(limit)
    ensures limit == MAX_NO_OF_REMAINING_LENGTH_BYTES ==> DecodeLen(s, limit).value < LENGTH_LIMIT
    decreases limit
  {
    if limit > 0 && s != [] && s[0] >= 128 {
      ValueBound(s[1..], limit - 1);
    }
    Pow128Values();
  }

  /** A whole packet is read exactly when it fits; it is then left in the buffer as it was sent, and nothing after it
      is touched. */
  lemma BlockingReadsPacket(buf: seq<byte>, buflen: nat, header: byte, body: seq<byte>, rest: seq<byte>)
    requires 5 <= |buf| && buflen <= |buf| && |body| < LENGTH_LIMIT
    ensures var p := Packet(header, body);
            var r := BlockingRead(buf, buflen, p + rest);
            if |p| <= buflen then r == Outcome(header / 16, Splice(buf, 0, p), rest) else r.rc == -1 && r.rest == body + rest
  {
    var s := Packet(header, body) + rest;
    LengthInFront(header, body, rest);
    var framed := Splice(buf[0 := header], 1, EncodeLen(|body|));
    var start := 1 + |EncodeLen(|body|)|;
    if start + |body| <= buflen {
      assert (body + rest)[..|body|] == body && (body + rest)[|body|..] == rest;
      PacketWritten(buf, header, body);
    }
  }

  /** -1 exactly when the bytes are not a packet that is whole and fits, and otherwise the type. */
  lemma BlockingFails(buf: seq<byte>, buflen: nat, s: seq<byte>)
    requires 5 <= |buf| && buflen <= |buf|
    ensures var r := BlockingRead(buf, buflen, s);
            if s == [] then r == Outcome(-1, buf, [])
            else
              var f := DecodeLen(s[1..], MAX_NO_OF_REMAINING_LENGTH_BYTES);
              r.rc == if Fits(f.value, buflen) && f.value <= |s| - 1 - f.count then s[0] / 16 else -1
  {
  }

  predicate Fits(remLen: nat, buflen: nat) {
    1 + |EncodeLen(remLen)| + remLen <= buflen
  }

  lemma PacketWritten(buf: seq<byte>, header: byte, body: seq<byte>)
    requires |Packet(header, body)| <= |buf|
    ensures var n := EncodeLen(|body|);
            Splice(Splice(buf[0 := header], 1, n), 1 + |n|, body) == Splice(buf, 0, Packet(header, body))
  {
    var n := EncodeLen(|body|);
    assert buf[0 := header] == Splice(buf, 0, [header]);
    SpliceSplice(buf, 0, [header], n);
    SpliceSplice(buf, 0, [header] + n, body);
  }

  /** A source that waits until it can hand over what was asked for, or has ended. */
  class WaitingSource {
    var rest: seq<byte>

    constructor (s: seq<byte>)
      ensures rest == s
    {
      rest := s;
    }

    method Get(buf: array<byte>, at: nat, n: nat) returns (rc: nat)
      requires at + n <= buf.Length
      modifies this, buf
      ensures rc == if |old(rest)| < n then |old(rest)| else n
      ensures rest == old(rest)[rc..]
      ensures at + rc <= buf.Length && buf[..] == Splice(old(buf[..]), at, old(rest)[..rc])
    {
      rc := if |rest| < n then |rest| else n;
      var ignored := CopyBytes(buf, at, rest[..rc]);
      rest := rest[rc..];
    }

    /** One byte, or none at the end. */
    method GetChar() returns (c: Option<byte>)
      modifies this
      ensures old(rest) == [] ==> c == None && rest == []
      ensures old(rest) != [] ==> c == Some(old(rest)[0]) && rest == old(rest)[1..]
    {
      c := None;
      if rest != [] {
        c := Some(rest[0]);
        rest := rest[1..];
      }
    }

    /** MQTTPacket_decode, whose return value the reader does not use. */
    method Decode() returns (value: nat)
      modifies this
      ensures var f := DecodeLen(old(rest), MAX_NO_OF_REMAINING_LENGTH_BYTES);
              value == f.value && rest == old(rest)[f.count..]
    {
      var multiplier: nat, len: nat := 1, 0;
      value := 0;
      ghost var whole := DecodeLen(rest, MAX_NO_OF_REMAINING_LENGTH_BYTES);
      ResumedEnds(whole, 0, 1, 0);
      while true
        invariant 0 <= len <= MAX_NO_OF_REMAINING_LENGTH_BYTES && len <= |old(rest)| && rest == old(rest)[len..]
        invariant whole == Resumed(len, multiplier, value, DecodeLen(rest, MAX_NO_OF_REMAINING_LENGTH_BYTES - len))
        decreases MAX_NO_OF_REMAINING_LENGTH_BYTES - len
      {
        ResumedEnds(whole, len, multiplier, value);
        if len + 1 > MAX_NO_OF_REMAINING_LENGTH_BYTES {
          return;
        }
        ghost var before := rest;
        var c := GetChar();
        if c == None {
          return;
        }
        ResumedStep(before, len, multiplier, value, MAX_NO_OF_REMAINING_LENGTH_BYTES - len);
        len := len + 1;
        value := Accumulate(value, c.value, multiplier);
        multiplier := multiplier * 128;
        if c.value < 128 {
          return;
        }
      }
    }
  }

  /** The length goes back into the buffer, and the rest of the packet after it. */
  method ReadBody(buf: array<byte>, buflen: nat, remLen: nat, source: WaitingSource) returns (rc: int)
    requires 5 <= buf.Length && buflen <= buf.Length && remLen < LENGTH_LIMIT
    modifies buf, source
    ensures Outcome(rc, buf[..], source.rest) == BlockingBody(old(buf[..]), buflen, remLen, old(source.rest))
  {
    rc := -1;
    EncodedSize(remLen);
    var len := Encode(buf, 1, remLen);
    len := 1 + len;
    if remLen + len > buflen {
      return;
    }
    ghost var rest := source.rest;
    var got := source.Get(buf, len, remLen);
    if got != remLen {
      assert rest[..got] == rest && source.rest == [];
      return;
    }
    rc := buf[0] / 16;
  }

  method Read(buf: array<byte>, buflen: nat, source: WaitingSource) returns (rc: int)
    requires 5 <= buf.Length && buflen <= buf.Length
    modifies buf, source
    ensures Outcome(rc, buf[..], source.rest) == BlockingRead(old(buf[..]), buflen, old(source.rest))
  {
    var got := source.Get(buf, 0, 1);
    if got != 1 {
      assert buf[..] == old(buf[..]);
      return -1;
    }
    assert buf[..] == old(buf[..])[0 := old(source.rest)[0]];
    ValueBound(source.rest, MAX_NO_OF_REMAINING_LENGTH_BYTES);
    var remLen := source.Decode();
    rc := ReadBody(buf, buflen, remLen, source);
  }

  // ---- MQTTPacket_readnb ----

  /** How a packet ends that is called for until a call returns something other than 0: the outcome of the last call,
      or 0 with what is left when the source has nothing more to give or is asked for no bytes. */
  datatype Ended = Ended(rc: int, buf: seq<byte>, polls: seq<Poll>)

  /** Waiting for `remLen` bytes that go to `len`. */
  function FromBody(buf: seq<byte>, len: nat, remLen: nat, polls: seq<Poll>): Ended
    requires 1 <= len && len + remLen <= |buf|
    decreases |polls|
  {
    if polls == [] then Ended(0, buf, [])
    else if polls[0].Broken? then Ended(-1, buf, polls[1..])
    else if polls[0].bs == [] then FromBody(buf, len, remLen, polls[1..])
    else if remLen == 0 then Ended(0, buf, polls)
    else if remLen <= |polls[0].bs| then
      Ended(buf[0] / 16, Splice(buf, len, polls[0].bs[..remLen]), After(polls, remLen))
    else
      var bs := polls[0].bs;
      FromBody(Splice(buf, len, bs), len + |bs|, remLen - |bs|, polls[1..])
  }

  /** The length is known: it goes back into the buffer. */
  function FromLength(buf: seq<byte>, buflen: nat, remLen: nat, polls: seq<Poll>): Ended
    requires 5 <= |buf| && buflen <= |buf| && remLen < LENGTH_LIMIT
  {
    EncodedSize(remLen);
    var framed := Splice(buf, 1, EncodeLen(remLen));
    var len := 1 + |EncodeLen(remLen)|;
    if remLen + len > buflen then Ended(-1, framed, polls) else FromBody(framed, len, remLen, polls)
  }

  /** In the length field, after `len` polls of it that brought `remLen`. */
  function FromField(buf: seq<byte>, buflen: nat, len: nat, multiplier: nat, remLen: nat, polls: seq<Poll>): Ended
    requires 5 <= |buf| && buflen <= |buf|
    requires len <= MAX_NO_OF_REMAINING_LENGTH_BYTES && InField(len, multiplier, remLen)
    decreases MAX_NO_OF_REMAINING_LENGTH_BYTES - len
  {
    if len == MAX_NO_OF_REMAINING_LENGTH_BYTES then Ended(-1, buf, polls)
    else if polls == [] then Ended(0, buf, [])
    else if polls[0].Broken? then Ended(-1, buf, polls[1..])
    else if polls[0].bs == [] then FromField(buf, buflen, len + 1, multiplier, remLen, polls[1..])
    else
      var c := polls[0].bs[0];
      var value := Accumulate(remLen, c, multiplier);
      InFieldStep(len, multiplier, remLen, c);
      if c < 128 then FromLength(buf, buflen, value, After(polls, 1))
      else FromField(buf, buflen, len + 1, multiplier * 128, value, After(polls, 1))
  }

  /** Waiting for the header byte. */
  function FromHeader(buf: seq<byte>, buflen: nat, polls: seq<Poll>): Ended
    requires 5 <= |buf| && buflen <= |buf|
  {
    if polls == [] then Ended(0, buf, [])
    else if polls[0].Broken? then Ended(-1, buf, polls[1..])
    else if polls[0].bs == [] then FromHeader(buf, buflen, polls[1..])
    else FromField(buf[0 := polls[0].bs[0]], buflen, 0, 1, 0, After(polls, 1))
  }

  /** After at most `len` polls with a byte each, the digits so far are below the multiplier. */
  predicate InField(len: nat, multiplier: nat, remLen: nat) {
    remLen < multiplier <= Pow128(len)
  }

  lemma InFieldStep(len: nat, multiplier: nat, remLen: nat, c: byte)
    requires len < MAX_NO_OF_REMAINING_LENGTH_BYTES && InField(len, multiplier, remLen)
    ensures InField(len + 1, multiplier * 128, Accumulate(remLen, c, multiplier))
    ensures InField(len + 1, multiplier, remLen)
    ensures Accumulate(remLen, c, multiplier) < LENGTH_LIMIT
  {
    Pow128Values();
    DigitBelow(remLen, c, multiplier);
  }

  lemma DigitBelow(remLen: nat, c: byte, multiplier: nat)
    requires remLen < multiplier
    ensures Accumulate(remLen, c, multiplier) < multiplier * 128
  {
    assert c % 128 * multiplier <= 127 * multiplier;
  }

  /** How many polls the length field takes from here, those without a byte included. */
  function FieldPolls(polls: seq<Poll>): (n: Option<nat>)
    ensures n.Some? ==> n.value > 0
    decreases Size(polls)
  {
    if polls == [] || polls[0].Broken? then None
    else if polls[0].bs != [] && polls[0].bs[0] < 128 then Some(1)
    else
      var next := if polls[0].bs == [] then polls[1..] else (AfterSmaller(polls, 1); After(polls, 1));
      OneMore(FieldPolls(next))
  }

  function OneMore(polls: Option<nat>): Option<nat> {
    if polls.Some? then Some(polls.value + 1) else None
  }

  /** The same, for a packet whose header byte has still to come. */
  function LengthPolls(polls: seq<Poll>): Option<nat> {
    if polls == [] || polls[0].Broken? then None
    else if polls[0].bs == [] then LengthPolls(polls[1..])
    else FieldPolls(After(polls, 1))
  }

  predicate Within(polls: Option<nat>, limit: nat) {
    polls.Some? && polls.value <= limit
  }

  /** A body of `remLen` bytes, with `s` still to come. */
  predicate BodyEnd(r: Ended, buf: seq<byte>, len: nat, remLen: nat, s: seq<byte>)
    requires 1 <= len && len + remLen <= |buf|
  {
    && (r.rc > 0 <==> 1 <= remLen <= |s| && buf[0] >= 16)
    && (r.rc > 0 ==> r.rc == buf[0] / 16 && r.buf == Splice(buf, len, s[..remLen]) && Heard(r.polls) == s[remLen..])
  }

  lemma {:induction false} BodyEnds(buf: seq<byte>, len: nat, remLen: nat, polls: seq<Poll>)
    requires 1 <= len && len + remLen <= |buf|
    ensures BodyEnd(FromBody(buf, len, remLen, polls), buf, len, remLen, Heard(polls))
    decreases |polls|
  {
    if polls == [] || polls[0].Broken? {
    } else if polls[0].bs == [] {
      assert Heard(polls) == Heard(polls[1..]);
      BodyEnds(buf, len, remLen, polls[1..]);
    } else if 0 < remLen <= |polls[0].bs| {
      AfterHeard(polls, remLen);
    } else if remLen > 0 {
      var bs := polls[0].bs;
      var r := FromBody(Splice(buf, len, bs), len + |bs|, remLen - |bs|, polls[1..]);
      BodyEnds(Splice(buf, len, bs), len + |bs|, remLen - |bs|, polls[1..]);
      BodyPiece(r, buf, len, remLen, bs, Heard(polls[1..]));
    }
  }

  lemma BodyPiece(r: Ended, buf: seq<byte>, len: nat, remLen: nat, bs: seq<byte>, more: seq<byte>)
    requires 1 <= len && len + remLen <= |buf| && |bs| < remLen
    requires BodyEnd(r, Splice(buf, len, bs), len + |bs|, remLen - |bs|, more)
    ensures BodyEnd(r, buf, len, remLen, bs + more)
  {
    assert Splice(buf, len, bs)[0] == buf[0];
    if remLen <= |bs + more| {
      PieceWritten(buf, len, remLen, bs, more);
    }
  }

  lemma PieceWritten(buf: seq<byte>, len: nat, remLen: nat, bs: seq<byte>, more: seq<byte>)
    requires len + remLen <= |buf| && |bs| <= remLen <= |bs| + |more|
    ensures Splice(Splice(buf, len, bs), len + |bs|, more[..remLen - |bs|]) == Splice(buf, len, (bs + more)[..remLen])
    ensures more[remLen - |bs|..] == (bs + more)[remLen..]
  {
    assert (bs + more)[..remLen] == bs + more[..remLen - |bs|];
    SpliceSplice(buf, len, bs, more[..remLen - |bs|]);
  }

  /** The polls that are left when the length field is complete. */
  function RestOfField(polls: seq<Poll>): seq<Poll>
    decreases Size(polls)
  {
    if polls == [] || polls[0].Broken? then polls
    else if polls[0].bs == [] then RestOfField(polls[1..])
    else if polls[0].bs[0] < 128 then After(polls, 1)
    else
      AfterSmaller(polls, 1);
      RestOfField(After(polls, 1))
  }

  /** The bytes of the field are decoded as if they had come at once. */
  lemma {:induction false} FieldDecoded(polls: seq<Poll>, limit: nat)
    requires Within(FieldPolls(polls), limit)
    ensures DecodedTo(Heard(polls), limit, Heard(RestOfField(polls)))
    decreases limit
  {
    if polls[0].bs == [] {
      FieldDecoded(polls[1..], limit - 1);
      DecodedAfterEmpty(polls, limit);
    } else if polls[0].bs[0] < 128 {
      AfterHeard(polls, 1);
    } else {
      FieldDecoded(After(polls, 1), limit - 1);
      DecodedAfterByte(polls, limit);
    }
  }

  lemma DecodedAfterEmpty(polls: seq<Poll>, limit: nat)
    requires polls != [] && polls[0] == Bytes([]) && limit > 0
    requires DecodedTo(Heard(polls[1..]), limit - 1, Heard(RestOfField(polls[1..])))
    ensures DecodedTo(Heard(polls), limit, Heard(RestOfField(polls)))
  {
    assert Heard(polls) == Heard(polls[1..]);
    MoreRoom(Heard(polls), limit - 1);
  }

  lemma DecodedAfterByte(polls: seq<Poll>, limit: nat)
    requires polls != [] && polls[0].Bytes? && polls[0].bs != [] && polls[0].bs[0] >= 128 && limit > 0
    requires DecodedTo(Heard(After(polls, 1)), limit - 1, Heard(RestOfField(After(polls, 1))))
    ensures DecodedTo(Heard(polls), limit, Heard(RestOfField(polls)))
  {
    AfterHeard(polls, 1);
    DigitDecoded(Heard(polls), limit, Heard(RestOfField(After(polls, 1))));
  }

  predicate DecodedTo(s: seq<byte>, limit: nat, rest: seq<byte>) {
    var f := DecodeLen(s, limit);
    f.ending == Complete && s[f.count..] == rest
  }

  lemma DigitDecoded(s: seq<byte>, limit: nat, rest: seq<byte>)
    requires s != [] && s[0] >= 128 && limit > 0 && DecodedTo(s[1..], limit - 1, rest)
    ensures DecodedTo(s, limit, rest)
  {
    var f := DecodeLen(s[1..], limit - 1);
    assert s[f.count + 1..] == s[1..][f.count..];
  }

  lemma {:induction false} MoreRoom(s: seq<byte>, limit: nat)
    requires DecodeLen(s, limit).ending == Complete
    ensures DecodeLen(s, limit + 1) == DecodeLen(s, limit)
    decreases limit
  {
    if s[0] >= 128 {
      MoreRoom(s[1..], limit - 1);
    }
  }

  /** The value of the field, of which `remLen` was read before. */
  function FieldValue(multiplier: nat, remLen: nat, f: Field): nat {
    remLen + multiplier * f.value
  }

  /** The field is read to its end exactly when it takes few enough polls. */
  predicate FieldEnd(r: Ended, left: nat, taken: Option<nat>, value: nat, rest: seq<Poll>, buf: seq<byte>, buflen: nat)
    requires 5 <= |buf| && buflen <= |buf|
  {
    if Within(taken, left) then value < LENGTH_LIMIT && r == FromLength(buf, buflen, value, rest) else r.rc <= 0
  }

  predicate FieldEndsFrom(buf: seq<byte>, buflen: nat, len: nat, multiplier: nat, remLen: nat, polls: seq<Poll>)
    requires 5 <= |buf| && buflen <= |buf|
    requires len <= MAX_NO_OF_REMAINING_LENGTH_BYTES && InField(len, multiplier, remLen)
  {
    var left := MAX_NO_OF_REMAINING_LENGTH_BYTES - len;
    FieldEnd(FromField(buf, buflen, len, multiplier, remLen, polls), left, FieldPolls(polls),
             FieldValue(multiplier, remLen, DecodeLen(Heard(polls), left)), RestOfField(polls), buf, buflen)
  }

  lemma {:induction false} FieldEnds(buf: seq<byte>, buflen: nat, len: nat, multiplier: nat, remLen: nat, polls: seq<Poll>)
    requires 5 <= |buf| && buflen <= |buf|
    requires len <= MAX_NO_OF_REMAINING_LENGTH_BYTES && InField(len, multiplier, remLen)
    ensures FieldEndsFrom(buf, buflen, len, multiplier, remLen, polls)
    decreases MAX_NO_OF_REMAINING_LENGTH_BYTES - len
  {
    if len == MAX_NO_OF_REMAINING_LENGTH_BYTES || polls == [] || polls[0].Broken? {
    } else if polls[0].bs == [] {
      InFieldStep(len, multiplier, remLen, 0);
      FieldEnds(buf, buflen, len + 1, multiplier, remLen, polls[1..]);
      EndsAfterEmpty(buf, buflen, len, multiplier, remLen, polls);
    } else {
      var c := polls[0].bs[0];
      InFieldStep(len, multiplier, remLen, c);
      if c < 128 {
        EndsAtByte(buf, buflen, len, multiplier, remLen, polls);
      } else {
        FieldEnds(buf, buflen, len + 1, multiplier * 128, Accumulate(remLen, c, multiplier), After(polls, 1));
        EndsAfterByte(buf, buflen, len, multiplier, remLen, polls);
      }
    }
  }

  lemma EndsAfterEmpty(buf: seq<byte>, buflen: nat, len: nat, multiplier: nat, remLen: nat, polls: seq<Poll>)
    requires 5 <= |buf| && buflen <= |buf|
    requires len < MAX_NO_OF_REMAINING_LENGTH_BYTES && InField(len, multiplier, remLen) && InField(len + 1, multiplier, remLen)
    requires polls != [] && polls[0] == Bytes([])
    requires FieldEndsFrom(buf, buflen, len + 1, multiplier, remLen, polls[1..])
    ensures FieldEndsFrom(buf, buflen, len, multiplier, remLen, polls)
  {
    EmptyPoll(polls, MAX_NO_OF_REMAINING_LENGTH_BYTES - len);
  }

  lemma EndsAtByte(buf: seq<byte>, buflen: nat, len: nat, multiplier: nat, remLen: nat, polls: seq<Poll>)
    requires 5 <= |buf| && buflen <= |buf|
    requires len < MAX_NO_OF_REMAINING_LENGTH_BYTES && InField(len, multiplier, remLen)
    requires polls != [] && polls[0].Bytes? && polls[0].bs != [] && polls[0].bs[0] < 128
    ensures FieldEndsFrom(buf, buflen, len, multiplier, remLen, polls)
  {
    var c := polls[0].bs[0];
    InFieldStep(len, multiplier, remLen, c);
    BytePoll(polls, MAX_NO_OF_REMAINING_LENGTH_BYTES - len);
    LastDigit(remLen, multiplier, c);
  }

  lemma EndsAfterByte(buf: seq<byte>, buflen: nat, len: nat, multiplier: nat, remLen: nat, polls: seq<Poll>)
    requires 5 <= |buf| && buflen <= |buf|
    requires len < MAX_NO_OF_REMAINING_LENGTH_BYTES && InField(len, multiplier, remLen)
    requires polls != [] && polls[0].Bytes? && polls[0].bs != [] && polls[0].bs[0] >= 128
    requires var c := polls[0].bs[0];
             && InField(len + 1, multiplier * 128, Accumulate(remLen, c, multiplier))
             && FieldEndsFrom(buf, buflen, len + 1, multiplier * 128, Accumulate(remLen, c, multiplier), After(polls, 1))
    ensures FieldEndsFrom(buf, buflen, len, multiplier, remLen, polls)
  {
    var left := MAX_NO_OF_REMAINING_LENGTH_BYTES - len;
    BytePoll(polls, left);
    Digits(remLen, multiplier, polls[0].bs[0], DecodeLen(Heard(After(polls, 1)), left - 1));
  }

  lemma EmptyPoll(polls: seq<Poll>, left: nat)
    requires polls != [] && polls[0] == Bytes([]) && left > 0
    ensures FieldPolls(polls) == OneMore(FieldPolls(polls[1..])) && RestOfField(polls) == RestOfField(polls[1..])
    ensures Within(FieldPolls(polls[1..]), left - 1) ==> DecodeLen(Heard(polls), left) == DecodeLen(Heard(polls[1..]), left - 1)
  {
    assert Heard(polls) == Heard(polls[1..]);
    if Within(FieldPolls(polls[1..]), left - 1) {
      FieldDecoded(polls[1..], left - 1);
      MoreRoom(Heard(polls), left - 1);
    }
  }

  lemma BytePoll(polls: seq<Poll>, left: nat)
    requires polls != [] && polls[0].Bytes? && polls[0].bs != [] && left > 0
    ensures var c, next := polls[0].bs[0], After(polls, 1);
            if c < 128 then
              FieldPolls(polls) == Some(1) && DecodeLen(Heard(polls), left) == Field(Complete, 1, c) && RestOfField(polls) == next
            else
              var f := DecodeLen(Heard(next), left - 1);
              && FieldPolls(polls) == OneMore(FieldPolls(next)) && RestOfField(polls) == RestOfField(next)
              && DecodeLen(Heard(polls), left) == Field(f.ending, f.count + 1, c - 128 + 128 * f.value)
  {
    AfterHeard(polls, 1);
  }

  lemma LastDigit(remLen: nat, multiplier: nat, c: byte)
    requires c < 128
    ensures FieldValue(multiplier, remLen, Field(Complete, 1, c)) == Accumulate(remLen, c, multiplier)
  {
  }

  lemma Digits(remLen: nat, multiplier: nat, c: byte, f: Field)
    requires c >= 128
    ensures FieldValue(multiplier * 128, Accumulate(remLen, c, multiplier), f)
         == FieldValue(multiplier, remLen, Field(f.ending, f.count + 1, c - 128 + 128 * f.value))
  {
    assert multiplier * (c - 128 + 128 * f.value) == multiplier * (c - 128) + multiplier * (128 * f.value);
    assert multiplier * (128 * f.value) == multiplier * 128 * f.value;
  }

  /** The calls end with a packet exactly when the waiting reader does and the body is not empty, and then both leave
      the same. */
  predicate Same(r: Ended, b: Outcome, value: nat) {
    && (r.rc > 0 <==> b.rc > 0 && value > 0)
    && (r.rc > 0 ==> r.rc == b.rc && r.buf == b.buf && Heard(r.polls) == b.rest)
  }

  lemma LengthEnds(buf: seq<byte>, buflen: nat, remLen: nat, polls: seq<Poll>)
    requires 5 <= |buf| && buflen <= |buf| && remLen < LENGTH_LIMIT
    ensures Same(FromLength(buf, buflen, remLen, polls), BlockingBody(buf, buflen, remLen, Heard(polls)), remLen)
  {
    EncodedSize(remLen);
    var framed := Splice(buf, 1, EncodeLen(remLen));
    var len := 1 + |EncodeLen(remLen)|;
    assert framed[0] == buf[0];
    if remLen + len <= buflen {
      BodyEnds(framed, len, remLen, polls);
    }
  }

  /** The non-blocking reader refines the waiting one, whatever the pieces in which the bytes come. Calling it until it
      is done gives a packet exactly when the waiting reader finds one in the same bytes, the length field took at most
      four polls, counting those that brought nothing, and the packet is not one without a body. Type, buffer and the
      bytes left over are then the same. */
  lemma NonBlockingRefinesBlocking(buf: seq<byte>, buflen: nat, polls: seq<Poll>)
    requires 5 <= |buf| && buflen <= |buf|
    ensures var r := FromHeader(buf, buflen, polls);
            var s := Heard(polls);
            var b := BlockingRead(buf, buflen, s);
            && (r.rc > 0 <==> b.rc > 0 && DecodeLen(s[1..], MAX_NO_OF_REMAINING_LENGTH_BYTES).value > 0
                              && Within(LengthPolls(polls), MAX_NO_OF_REMAINING_LENGTH_BYTES))
            && (r.rc > 0 ==> Outcome(r.rc, r.buf, Heard(r.polls)) == b)
  {
    if polls == [] || polls[0].Broken? {
    } else if polls[0].bs == [] {
      assert Heard(polls) == Heard(polls[1..]);
      NonBlockingRefinesBlocking(buf, buflen, polls[1..]);
    } else {
      var s := Heard(polls);
      var next := After(polls, 1);
      AfterHeard(polls, 1);
      FieldEnds(buf[0 := s[0]], buflen, 0, 1, 0, next);
      if Within(FieldPolls(next), MAX_NO_OF_REMAINING_LENGTH_BYTES) {
        FieldDecoded(next, MAX_NO_OF_REMAINING_LENGTH_BYTES);
        LengthEnds(buf[0 := s[0]], buflen, DecodeLen(s[1..], MAX_NO_OF_REMAINING_LENGTH_BYTES).value, RestOfField(next));
      }
    }
  }

  // ---- When there is no packet ----

  /** An error comes, sooner or later. */
  predicate Breaks(polls: seq<Poll>) {
    polls != [] && (polls[0].Broken? || Breaks(polls[1..]))
  }

  /** The polls that are made for a length field, whether or not it is completed. */
  function FieldTries(polls: seq<Poll>): nat
    decreases Size(polls)
  {
    if polls == [] || polls[0].Broken? then 0
    else if polls[0].bs == [] then 1 + FieldTries(polls[1..])
    else if polls[0].bs[0] < 128 then 1
    else
      AfterSmaller(polls, 1);
      1 + FieldTries(After(polls, 1))
  }

  /** The same behind the header byte. */
  function LengthTries(polls: seq<Poll>): nat {
    if polls == [] || polls[0].Broken? then 0
    else if polls[0].bs == [] then LengthTries(polls[1..])
    else FieldTries(After(polls, 1))
  }

  lemma BreaksAfter(polls: seq<Poll>, k: nat)
    requires polls != [] && polls[0].Bytes? && k <= |polls[0].bs|
    ensures Breaks(After(polls, k)) == Breaks(polls) == Breaks(polls[1..])
  {
    if k < |polls[0].bs| {
      assert After(polls, k)[1..] == polls[1..];
    }
  }

  lemma {:induction false} BreaksAfterField(polls: seq<Poll>)
    ensures Breaks(RestOfField(polls)) == Breaks(polls)
    decreases Size(polls)
  {
    if polls != [] && polls[0].Bytes? {
      if polls[0].bs == [] {
        BreaksAfterField(polls[1..]);
      } else {
        BreaksAfter(polls, 1);
        if polls[0].bs[0] >= 128 {
          AfterSmaller(polls, 1);
          BreaksAfterField(After(polls, 1));
        }
      }
    }
  }

  /** Without a packet, -1 stands for an error and 0 for waiting on. */
  predicate FailsIf(r: Ended, failed: bool) {
    r.rc >= -1 && (r.rc == -1 <==> failed)
  }

  /** A body fails if the source does before all of it, or of an empty one the first byte of what follows, has come. */
  predicate BodyFailed(remLen: nat, s: seq<byte>, breaks: bool) {
    breaks && |s| < if remLen == 0 then 1 else remLen
  }

  lemma {:induction false} BodyFails(buf: seq<byte>, len: nat, remLen: nat, polls: seq<Poll>)
    requires 1 <= len && len + remLen <= |buf|
    ensures FailsIf(FromBody(buf, len, remLen, polls), BodyFailed(remLen, Heard(polls), Breaks(polls)))
    decreases |polls|
  {
    if polls == [] || polls[0].Broken? {
    } else if polls[0].bs == [] {
      assert Heard(polls) == Heard(polls[1..]);
      BodyFails(buf, len, remLen, polls[1..]);
    } else if remLen > |polls[0].bs| {
      var bs := polls[0].bs;
      BodyFails(Splice(buf, len, bs), len + |bs|, remLen - |bs|, polls[1..]);
    }
  }

  lemma LengthFails(buf: seq<byte>, buflen: nat, remLen: nat, polls: seq<Poll>)
    requires 5 <= |buf| && buflen <= |buf| && remLen < LENGTH_LIMIT
    ensures FailsIf(FromLength(buf, buflen, remLen, polls), !Fits(remLen, buflen) || BodyFailed(remLen, Heard(polls), Breaks(polls)))
  {
    EncodedSize(remLen);
    if Fits(remLen, buflen) {
      BodyFails(Splice(buf, 1, EncodeLen(remLen)), 1 + |EncodeLen(remLen)|, remLen, polls);
    }
  }

  /** A field that does not end within its polls fails at an error or when the polls are used up. */
  lemma {:induction false} FieldFails(buf: seq<byte>, buflen: nat, len: nat, multiplier: nat, remLen: nat, polls: seq<Poll>)
    requires 5 <= |buf| && buflen <= |buf|
    requires len <= MAX_NO_OF_REMAINING_LENGTH_BYTES && InField(len, multiplier, remLen)
    requires !Within(FieldPolls(polls), MAX_NO_OF_REMAINING_LENGTH_BYTES - len)
    ensures FailsIf(FromField(buf, buflen, len, multiplier, remLen, polls),
                    Breaks(polls) || FieldTries(polls) >= MAX_NO_OF_REMAINING_LENGTH_BYTES - len)
    decreases MAX_NO_OF_REMAINING_LENGTH_BYTES - len
  {
    if len == MAX_NO_OF_REMAINING_LENGTH_BYTES || polls == [] || polls[0].Broken? {
    } else if polls[0].bs == [] {
      InFieldStep(len, multiplier, remLen, 0);
      FieldFails(buf, buflen, len + 1, multiplier, remLen, polls[1..]);
    } else {
      var c := polls[0].bs[0];
      InFieldStep(len, multiplier, remLen, c);
      BreaksAfter(polls, 1);
      FieldFails(buf, buflen, len + 1, multiplier * 128, Accumulate(remLen, c, multiplier), After(polls, 1));
    }
  }

  /** What the last call returns without a packet: 0, "call again", as long as nothing went wrong. -1 is an error before the
      packet is whole, a packet that does not fit, or a length field that is not complete after four polls. */
  lemma {:induction false} NonBlockingFails(buf: seq<byte>, buflen: nat, polls: seq<Poll>)
    requires 5 <= |buf| && buflen <= |buf|
    ensures FailsIf(FromHeader(buf, buflen, polls), PacketFailed(buflen, polls))
    decreases |polls|
  {
    if polls == [] || polls[0].Broken? {
    } else if polls[0].bs == [] {
      assert Heard(polls) == Heard(polls[1..]);
      NonBlockingFails(buf, buflen, polls[1..]);
    } else {
      var s, next := Heard(polls), After(polls, 1);
      AfterHeard(polls, 1);
      BreaksAfter(polls, 1);
      if Within(FieldPolls(next), MAX_NO_OF_REMAINING_LENGTH_BYTES) {
        FieldEnds(buf[0 := s[0]], buflen, 0, 1, 0, next);
        FieldDecoded(next, MAX_NO_OF_REMAINING_LENGTH_BYTES);
        BreaksAfterField(next);
        LengthFails(buf[0 := s[0]], buflen, DecodeLen(s[1..], MAX_NO_OF_REMAINING_LENGTH_BYTES).value, RestOfField(next));
      } else {
        FieldFails(buf[0 := s[0]], buflen, 0, 1, 0, next);
      }
    }
  }

  predicate PacketFailed(buflen: nat, polls: seq<Poll>) {
    var s := Heard(polls);
    if s == [] then Breaks(polls)
    else if Within(LengthPolls(polls), MAX_NO_OF_REMAINING_LENGTH_BYTES) then
      var f := DecodeLen(s[1..], MAX_NO_OF_REMAINING_LENGTH_BYTES);
      !Fits(f.value, buflen) || BodyFailed(f.value, s[1..][f.count..], Breaks(polls))
    else Breaks(polls) || LengthTries(polls) >= MAX_NO_OF_REMAINING_LENGTH_BYTES
  }

  class MQTTTransport {
    const source: PollingSource
    var multiplier: nat
    var remLen: nat
    var len: nat
    var state: nat

    constructor (source: PollingSource)
      ensures this.source == source && state == 0
    {
      this.source := source;
      multiplier, remLen, len, state := 1, 0, 0, 0;
    }

    /** What is stored fits the state the reader is in. */
    predicate Valid(buflen: nat)
      reads this
    {
      && (state == 1 ==> FieldValid())
      && (state == 2 ==> 0 < len && len + remLen <= buflen)
    }

    /** The counters are set on the first call for a field. */
    predicate FieldValid()
      reads this
    {
      len <= MAX_NO_OF_REMAINING_LENGTH_BYTES && (len > 0 ==> InField(len, multiplier, remLen))
    }

    function FieldPending(buf: seq<byte>, buflen: nat): Ended
      requires 5 <= |buf| && buflen <= |buf| && FieldValid()
      reads this, source
    {
      if len == 0 then FromField(buf, buflen, 0, 1, 0, source.polls)
      else FromField(buf, buflen, len, multiplier, remLen, source.polls)
    }

    /** How calling goes on from here. */
    function Pending(buf: seq<byte>, buflen: nat): Ended
      requires 5 <= |buf| && buflen <= |buf| && Valid(buflen)
      reads this, source
    {
      if state == 1 then FieldPending(buf, buflen)
      else if state == 2 then FromBody(buf, len, remLen, source.polls)
      else FromHeader(buf, buflen, source.polls)
    }

    /** The packet is not of the reserved type 0, whose return value says "call again". */
    predicate Typed(buf: seq<byte>)
      requires 5 <= |buf|
      reads this, source
    {
      if state == 1 || state == 2 then buf[0] >= 16 else Heard(source.polls) != [] ==> Heard(source.polls)[0] >= 16
    }

    /** One round of MQTTPacket_decodenb's loop. */
    method DigitNb(ghost buf: seq<byte>, ghost buflen: nat) returns (frc: int, c: byte)
      requires 5 <= |buf| && buflen <= |buf|
      requires len <= MAX_NO_OF_REMAINING_LENGTH_BYTES && InField(len, multiplier, remLen)
      modifies this, source
      ensures state == old(state) && frc in {-1, 0, 1}
      ensures var was := old(FromField(buf, buflen, len, multiplier, remLen, source.polls));
              if frc == -1 then was == Ended(-1, buf, source.polls)
              else
                && len == old(len) + 1 <= MAX_NO_OF_REMAINING_LENGTH_BYTES
                && (source.polls == [] || Size(source.polls) < old(Size(source.polls)))
                && (frc == 1 && c < 128 ==> remLen < LENGTH_LIMIT && was == FromLength(buf, buflen, remLen, source.polls))
                && (frc == 0 || c >= 128 ==> InField(len, multiplier, remLen))
                && (frc == 1 && c >= 128 ==> was == FromField(buf, buflen, len, multiplier, remLen, source.polls))
                && (frc == 0 && source.polls != [] ==> was == FromField(buf, buflen, len, multiplier, remLen, source.polls))
                && (frc == 0 && source.polls == [] ==> was.rc <= 0)
    {
      c := 0;
      len := len + 1;
      if len > MAX_NO_OF_REMAINING_LENGTH_BYTES {
        return -1, c;
      }
      ghost var before := source.polls;
      InFieldStep(len - 1, multiplier, remLen, 0);
      var got;
      frc, got := source.Get(1);
      if frc <= 0 {
        return;
      }
      c := got[0];
      AfterSmaller(before, 1);
      InFieldStep(len - 1, multiplier, remLen, c);
      remLen := Accumulate(remLen, c, multiplier);
      multiplier := multiplier * 128;
    }

    /** MQTTPacket_decodenb. */
    method DecodeNb(ghost buf: seq<byte>, ghost buflen: nat) returns (rc: int)
      requires 5 <= |buf| && buflen <= |buf|
      requires FieldValid()
      modifies this, source
      ensures state == old(state)
      ensures rc == -1 ==> old(FieldPending(buf, buflen)) == Ended(-1, buf, source.polls)
      ensures rc == 0 ==> FieldValid()
      ensures rc == 0 && source.polls == [] ==> old(FieldPending(buf, buflen)).rc <= 0
      ensures rc == 0 && source.polls != [] ==> FieldPending(buf, buflen) == old(FieldPending(buf, buflen))
      ensures rc > 0 ==> remLen < LENGTH_LIMIT && old(FieldPending(buf, buflen)) == FromLength(buf, buflen, remLen, source.polls)
      ensures -1 <= rc
      ensures rc >= 0 ==> source.polls == [] || Size(source.polls) < old(Size(source.polls))
    {
      if len == 0 {
        multiplier, remLen := 1, 0;
      }
      ghost var was := FromField(buf, buflen, len, multiplier, remLen, source.polls);
      while true
        invariant len <= MAX_NO_OF_REMAINING_LENGTH_BYTES && InField(len, multiplier, remLen) && state == old(state)
        invariant was == FromField(buf, buflen, len, multiplier, remLen, source.polls)
        invariant source.polls == [] || source.polls == old(source.polls) || Size(source.polls) < old(Size(source.polls))
        decreases MAX_NO_OF_REMAINING_LENGTH_BYTES - len
      {
        var frc, c := DigitNb(buf, buflen);
        if frc <= 0 {
          return frc;
        }
        if c < 128 {
          return len;
        }
      }
    }

    /** State 1: 1 when the length is known and fits, otherwise what the call returns. */
    method ReadLength(buf: array<byte>, buflen: nat) returns (rc: int)
      requires 5 <= buf.Length && buflen <= buf.Length && Valid(buflen) && state == 1
      modifies this, source, buf
      ensures rc in {-1, 0, 1} && Valid(buflen) && buf[0] == old(buf[0])
      ensures rc == -1 ==> state == 0 && old(Pending(buf[..], buflen)) == Ended(-1, buf[..], source.polls)
      ensures rc == 0 ==> state == 1
      ensures rc == 0 && source.polls == [] ==> old(Pending(buf[..], buflen)).rc <= 0
      ensures rc == 0 && source.polls != [] ==> Pending(buf[..], buflen) == old(Pending(buf[..], buflen))
      ensures rc == 1 ==> state == 2 && Pending(buf[..], buflen) == old(Pending(buf[..], buflen))
      ensures rc >= 0 ==> source.polls == [] || Size(source.polls) < old(Size(source.polls))
    {
      ghost var before := buf[..];
      rc := DecodeNb(before, buflen);
      if rc == -1 {
        state := 0;
        return;
      }
      if rc == 0 {
        return;
      }
      EncodedSize(remLen);
      var n := Encode(buf, 1, remLen);
      assert buf[..] == Splice(before, 1, EncodeLen(remLen)) && buf[0] == before[0];
      len := 1 + n;
      if remLen + len > buflen {
        state := 0;
        return -1;
      }
      state := 2;
      rc := 1;
    }

    /** State 2: a part of the body, or its end. */
    method ReadRest(buf: array<byte>, buflen: nat) returns (rc: int)
      requires 5 <= buf.Length && buflen <= buf.Length && Valid(buflen) && state == 2
      modifies this, source, buf
      ensures Valid(buflen) && state in {0, 2} && buf[0] == old(buf[0]) && (rc == -1 || rc == 0 || rc == buf[0] / 16)
      ensures state == 0 ==> (rc == -1 || rc == buf[0] / 16) && old(Pending(buf[..], buflen)) == Ended(rc, buf[..], source.polls)
      ensures state == 2 ==> rc == 0
      ensures state == 2 ==> Pending(buf[..], buflen) == old(Pending(buf[..], buflen))
      ensures state == 2 && (source.polls == [] || source.polls == old(source.polls)) ==> Pending(buf[..], buflen).rc == 0
      ensures rc >= 0 ==> source.polls == [] || source.polls == old(source.polls) || Size(source.polls) < old(Size(source.polls))
    {
      ghost var before, polls := buf[..], source.polls;
      var frc, got := source.Get(remLen);
      if frc == -1 {
        state := 0;
        return -1;
      }
      if frc == 0 {
        return 0;
      }
      AfterSmaller(polls, frc);
      var end := CopyBytes(buf, len, got);
      assert buf[0] == before[0];
      remLen := remLen - frc;
      len := end;
      if remLen > 0 {
        assert got == polls[0].bs && source.polls == polls[1..];
        assert FromBody(before, old(len), old(remLen), polls) == FromBody(buf[..], len, remLen, source.polls);
        return 0;
      }
      state := 0;
      rc := buf[0] / 16;
    }

    /** State 0: 1 when the header byte has come. */
    method ReadHeader(buf: array<byte>, buflen: nat) returns (rc: int)
      requires 5 <= buf.Length && buflen <= buf.Length && state != 1 && state != 2
      modifies this, source, buf
      ensures rc in {-1, 0, 1}
      ensures rc == -1 ==> state == 0 && old(Pending(buf[..], buflen)) == Ended(-1, buf[..], source.polls)
      ensures rc == 0 ==> state == 0
      ensures rc == 1 ==> state == 1 && FieldValid() && (old(Typed(buf[..])) ==> buf[0] >= 16)
      ensures rc >= 0 ==> Pending(buf[..], buflen) == old(Pending(buf[..], buflen))
      ensures rc == 0 && old(Typed(buf[..])) ==> Typed(buf[..])
      ensures rc >= 0 ==> source.polls == [] || Size(source.polls) < old(Size(source.polls))
    {
      state := 0;
      ghost var before, polls := buf[..], source.polls;
      var frc, got := source.Get(1);
      if frc == -1 {
        return -1;
      }
      if frc == 0 {
        assert polls != [] ==> source.polls == polls[1..];
        return 0;
      }
      AfterSmaller(polls, 1);
      AfterHeard(polls, 1);
      buf[0] := got[0];
      assert buf[..] == before[0 := polls[0].bs[0]];
      len := 0;
      state := 1;
      rc := 1;
    }

    /** The states after the header byte. */
    method ReadAfterHeader(buf: array<byte>, buflen: nat) returns (rc: int)
      requires 5 <= buf.Length && buflen <= buf.Length && Valid(buflen) && state in {1, 2}
      modifies this, source, buf
      ensures Valid(buflen) && state in {0, 1, 2} && buf[0] == old(buf[0]) && (rc in {-1, 0} || rc == buf[0] / 16)
      ensures state == 0 ==> (rc == -1 || rc == buf[0] / 16) && old(Pending(buf[..], buflen)) == Ended(rc, buf[..], source.polls)
      ensures state > 0 ==> rc == 0
      ensures state > 0 && (source.polls == [] || source.polls == old(source.polls)) ==> old(Pending(buf[..], buflen)).rc <= 0
      ensures state > 0 && source.polls != [] ==> Pending(buf[..], buflen) == old(Pending(buf[..], buflen))
      ensures rc >= 0 ==> source.polls == [] || source.polls == old(source.polls) || Size(source.polls) < old(Size(source.polls))
    {
      rc := 1;
      if state == 1 {
        rc := ReadLength(buf, buflen);
      }
      if rc == 1 {
        rc := ReadRest(buf, buflen);
      }
    }

    /** MQTTPacket_readnb. Another value than 0 ends the packet as calling on would have ended it; 0 leaves the same
        ending ahead, unless there is none in what the source has. */
    method ReadNb(buf: array<byte>, buflen: nat) returns (rc: int)
      requires 5 <= buf.Length && buflen <= buf.Length && Valid(buflen)
      modifies this, source, buf
      ensures Valid(buflen)
      ensures rc != 0 ==> state == 0 && old(Pending(buf[..], buflen)) == Ended(rc, buf[..], source.polls)
      ensures rc == 0 && (source.polls == [] || source.polls == old(source.polls)) ==> old(Pending(buf[..], buflen)).rc <= 0
      ensures rc == 0 && source.polls != [] && old(Typed(buf[..])) ==>
                Typed(buf[..]) && Pending(buf[..], buflen) == old(Pending(buf[..], buflen))
      ensures rc == 0 ==> source.polls == [] || source.polls == old(source.polls) || Size(source.polls) < old(Size(source.polls))
    {
      if state != 1 && state != 2 {
        rc := ReadHeader(buf, buflen);
        if rc != 1 {
          return;
        }
      }
      rc := ReadAfterHeader(buf, buflen);
    }
  }

  /** A device's loop: call until there is a packet, an error, or nothing new. Apart from packets of the reserved type 0,
      it does what the waiting reader does on the same bytes, under the condition of NonBlockingRefinesBlocking. */
  method Receive(transport: MQTTTransport, buf: array<byte>, buflen: nat) returns (rc: int)
    requires 5 <= buf.Length && buflen <= buf.Length && transport.state == 0
    modifies transport, transport.source, buf
    ensures var polls := old(transport.source.polls);
            var s := Heard(polls);
            var b := BlockingRead(old(buf[..]), buflen, s);
            s == [] || s[0] >= 16 ==>
              && (rc > 0 <==> b.rc > 0 && DecodeLen(s[1..], MAX_NO_OF_REMAINING_LENGTH_BYTES).value > 0
                              && Within(LengthPolls(polls), MAX_NO_OF_REMAINING_LENGTH_BYTES))
              && (rc > 0 ==> Outcome(rc, buf[..], Heard(transport.source.polls)) == b)
              && (rc < 0 ==> rc == -1 && PacketFailed(buflen, polls))
  {
    ghost var was, typed := transport.Pending(buf[..], buflen), transport.Typed(buf[..]);
    NonBlockingRefinesBlocking(buf[..], buflen, transport.source.polls);
    NonBlockingFails(buf[..], buflen, transport.source.polls);
    while true
      invariant transport.Valid(buflen)
      invariant typed ==> transport.Typed(buf[..]) && transport.Pending(buf[..], buflen) == was
      decreases Size(transport.source.polls)
    {
      var before := transport.source.polls;
      rc := transport.ReadNb(buf, buflen);
      if rc != 0 || transport.source.polls == [] || transport.source.polls == before {
        return;
      }
    }
  }
}
