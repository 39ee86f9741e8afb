/** The variable-length "remaining length" field (MQTTPacket.c, section 2.2.3 of MQTT 3.1.1). */
module RemainingLength {
  import opened Common
  import Wire

  /** Field values the standard allows: 0 .. 128^4 - 1. */
  const LENGTH_LIMIT: nat := 0x1000_0000
  const MAX_NO_OF_REMAINING_LENGTH_BYTES: nat := 4

  /** Seven bits a byte, low ones first; the top bit says that more follow. */
  function EncodeLen(n: nat): (bs: seq<byte>)
    ensures 1 <= |bs|
    decreases n
  {
    if n < 128 then [n] else [n % 128 + 128] + EncodeLen(n / 128)
  }

  datatype Ending = Complete | Truncated | TooLong

  /** Outcome of reading the field: how it ended, the bytes taken, and the value they add up to. */
  datatype Field = Field(ending: Ending, count: nat, value: nat)

  /** The field at the front of `s`; more than `limit` bytes are too long. */
  function DecodeLen(s: seq<byte>, limit: nat): (f: Field)
    ensures f.count <= |s| && f.count <= limit
    decreases limit
  {
    if limit == 0 then Field(TooLong, 0, 0)
    else if s == [] then Field(Truncated, 0, 0)
    else if s[0] < 128 then Field(Complete, 1, s[0])
    else
      var f := DecodeLen(s[1..], limit - 1);
      Field(f.ending, f.count + 1, s[0] - 128 + 128 * f.value)
  }

  function Pow128(k: nat): (p: nat)
    ensures p > 0
  {
    if k == 0 then 1 else 128 * Pow128(k - 1)
  }

  lemma Pow128Values()
    ensures Pow128(0) == 1 && Pow128(1) == 128 && Pow128(2) == 16384 && Pow128(3) == 2097152 && Pow128(4) == LENGTH_LIMIT
  {
    assert Pow128(2) == 128 * Pow128(1);
    assert Pow128(3) == 128 * Pow128(2);
    assert Pow128(4) == 128 * Pow128(3);
  }

  /** Decoding inverts encoding, whatever bytes follow: the code is prefix-free. */
  lemma {:induction false} DecodeEncoded(n: nat, rest: seq<byte>, limit: nat)
    requires limit > 0 && n < Pow128(limit)
    ensures |EncodeLen(n)| <= limit
    ensures DecodeLen(EncodeLen(n) + rest, limit) == Field(Complete, |EncodeLen(n)|, n)
    decreases n
  {
    if n >= 128 {
      DecodeEncoded(n / 128, rest, limit - 1);
      assert (EncodeLen(n) + rest)[1..] == EncodeLen(n / 128) + rest;
    }
  }

  /** How a field ends that may have `limit` bytes: at the first byte without the top bit, unless the bytes or the places run
      out before it. */
  lemma {:induction false} FieldEnding(s: seq<byte>, limit: nat)
    ensures var f := DecodeLen(s, limit);
            && (forall i :: 0 <= i < f.count && (f.ending == Complete ==> i < f.count - 1) ==> s[i] >= 128)
            && match f.ending
               case Complete => f.count > 0 && s[f.count - 1] < 128
               case Truncated => f.count == |s| < limit
               case TooLong => f.count == limit
    decreases limit
  {
    if limit > 0 && s != [] && s[0] >= 128 {
      FieldEnding(s[1..], limit - 1);
      var f := DecodeLen(s[1..], limit - 1);
      assert forall i :: 0 < i <= f.count ==> s[i] == s[1..][i - 1];
    }
  }

  /** Bytes the encoder writes. */
  lemma EncodedSize(n: nat)
    requires n < LENGTH_LIMIT
    ensures |EncodeLen(n)| == if n < 128 then 1 else if n < 16384 then 2 else if n < 2097152 then 3 else 4
  {
    assert n < 128 ==> |EncodeLen(n)| == 1;
    assert n >= 128 ==> |EncodeLen(n)| == 1 + |EncodeLen(n / 128)|;
    assert n / 128 >= 128 ==> |EncodeLen(n / 128)| == 1 + |EncodeLen(n / 128 / 128)|;
    assert n / 128 / 128 >= 128 ==> |EncodeLen(n / 128 / 128)| == 1 + |EncodeLen(n / 128 / 128 / 128)|;
  }

  /** The bytes are those of section 2.2.3, digit by digit. */
  lemma EncodedAsStandard(n: nat)
    requires n < LENGTH_LIMIT
    ensures EncodeLen(n) == Wire.Length(n)
  {
    if n >= 128 {
      assert EncodeLen(n) == [n % 128 + 128] + EncodeLen(n / 128);
      if n >= 16384 {
        assert EncodeLen(n / 128) == [n / 128 % 128 + 128] + EncodeLen(n / 128 / 128);
        assert n / 128 / 128 == n / 16384;
        if n >= 2097152 {
          assert EncodeLen(n / 16384) == [n / 16384 % 128 + 128] + EncodeLen(n / 16384 / 128);
          assert n / 16384 / 128 == n / 2097152;
        }
      }
    }
  }

  /** MQTTPacket_len: the space a packet with this remaining length is taken to need. */
  function PacketLen(remLen: nat): nat {
    var n := remLen + 1;
    if n < 128 then n + 1 else if n < 16384 then n + 2 else if n < 2097151 then n + 3 else n + 4
  }

  /** Because the header byte is added before the thresholds are tested, the estimate is one byte too
      big at exactly four lengths; it is never too small. */
  lemma PacketLenExact(n: nat)
    requires n < LENGTH_LIMIT
    ensures var exact := 1 + |EncodeLen(n)| + n;
            PacketLen(n) == if n in {127, 16383, 2097150, 2097151} then exact + 1 else exact
  {
    EncodedSize(n);
  }

  /** MQTTPacket_encode: writes the field at `at` and returns the number of bytes written. */
  method Encode(buf: array<byte>, at: nat, length: nat) returns (rc: nat)
    requires at + |EncodeLen(length)| <= buf.Length
    modifies buf
    ensures rc == |EncodeLen(length)| && buf[..] == Splice(old(buf[..]), at, EncodeLen(length))
  {
    rc := 0;
    var n := length;
    ghost var written: seq<byte> := [];
    while true
      invariant rc == |written| && written + EncodeLen(n) == EncodeLen(length)
      invariant buf[..] == Splice(old(buf[..]), at, written)
      decreases n
    {
      var d := n % 128;
      var more := n / 128;
      if more > 0 {
        d := d + 128;
      }
      SpliceByte(old(buf[..]), at, written, d);
      buf[at + rc] := d;
      rc := rc + 1;
      written := written + [d];
      if more == 0 {
        break;
      }
      assert written + EncodeLen(more) == EncodeLen(length);
      n := more;
    }
  }

  /** MQTTPacket_decodeBuf: reads the field at `at`, or says why the bytes there are not one. */
  method DecodeBuf(buf: array<byte>, at: nat) returns (r: Field)
    requires at <= buf.Length
    ensures r == DecodeLen(buf[at..], MAX_NO_OF_REMAINING_LENGTH_BYTES)
  {
    var multiplier: nat, len: nat, value: nat := 1, 0, 0;
    ghost var rest := buf[at..];
    ghost var whole := DecodeLen(rest, MAX_NO_OF_REMAINING_LENGTH_BYTES);
    ResumedEnds(whole, 0, 1, 0);
    while true
      invariant 0 <= len <= MAX_NO_OF_REMAINING_LENGTH_BYTES && at + len <= buf.Length && rest == buf[at + len..]
      invariant whole == Resumed(len, multiplier, value, DecodeLen(rest, MAX_NO_OF_REMAINING_LENGTH_BYTES - len))
      decreases MAX_NO_OF_REMAINING_LENGTH_BYTES - len
    {
      if len + 1 > MAX_NO_OF_REMAINING_LENGTH_BYTES {
        ResumedEnds(whole, len, multiplier, value);
        return Field(TooLong, len, value);
      }
      if at + len == buf.Length {
        ResumedEnds(whole, len, multiplier, value);
        return Field(Truncated, len, value);
      }
      var c := buf[at + len];
      assert rest[0] == c;
      ResumedStep(rest, len, multiplier, value, MAX_NO_OF_REMAINING_LENGTH_BYTES - len);
      rest := rest[1..];
      len := len + 1;
      value := Accumulate(value, c, multiplier);
      multiplier := multiplier * 128;
      if c < 128 {
        return Field(Complete, len, value);
      }
    }
  }

  /** value += (c & 127) * multiplier */
  function Accumulate(value: nat, c: byte, multiplier: nat): nat {
    value + c % 128 * multiplier
  }

  /** A field of which `len` bytes worth `value` were read already, completed by `rest`. */
  function Resumed(len: nat, multiplier: nat, value: nat, rest: Field): Field {
    Field(rest.ending, len + rest.count, value + multiplier * rest.value)
  }

  lemma ResumedEnds(whole: Field, len: nat, multiplier: nat, value: nat)
    ensures Resumed(0, 1, 0, whole) == whole
    ensures Resumed(len, multiplier, value, Field(TooLong, 0, 0)) == Field(TooLong, len, value)
    ensures Resumed(len, multiplier, value, Field(Truncated, 0, 0)) == Field(Truncated, len, value)
  {
  }

  lemma ResumedStep(s: seq<byte>, len: nat, multiplier: nat, value: nat, limit: nat)
    requires s != [] && limit > 0
    ensures Resumed(len, multiplier, value, DecodeLen(s, limit))
         == if s[0] < 128 then Field(Complete, len + 1, Accumulate(value, s[0], multiplier))
            else Resumed(len + 1, multiplier * 128, Accumulate(value, s[0], multiplier), DecodeLen(s[1..], limit - 1))
  {
    if s[0] >= 128 {
      var v := DecodeLen(s[1..], limit - 1).value;
      assert multiplier * (s[0] - 128 + 128 * v) == (s[0] - 128) * multiplier + multiplier * 128 * v;
    }
  }
}
