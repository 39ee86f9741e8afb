/** Byte sources as the packet readers see them: bytes that come in pieces, with waits and errors between them. */
module ByteSources {
  import opened Common

  /** What the source has when it is asked: some bytes, none yet, or an error. */
  datatype Poll = Bytes(bs: seq<byte>) | Broken

  /** All that can be read before the first error. */
  function Heard(polls: seq<Poll>): seq<byte> {
    if polls == [] || polls[0].Broken? then [] else polls[0].bs + Heard(polls[1..])
  }

  function Size(polls: seq<Poll>): nat {
    if polls == [] then 0 else (if polls[0].Broken? then 1 else 1 + |polls[0].bs|) + Size(polls[1..])
  }

  /** The polls after `k` bytes of the first one were taken. */
  function After(polls: seq<Poll>, k: nat): seq<Poll>
    requires polls != [] && polls[0].Bytes? && k <= |polls[0].bs|
  {
    if k == |polls[0].bs| then polls[1..] else [Bytes(polls[0].bs[k..])] + polls[1..]
  }

  lemma AfterSmaller(polls: seq<Poll>, k: nat)
    requires polls != [] && polls[0].Bytes? && k <= |polls[0].bs|
    ensures Size(After(polls, k)) <= Size(polls)
    ensures k > 0 || polls[0].bs == [] ==> Size(After(polls, k)) < Size(polls)
  {
  }

  lemma AfterHeard(polls: seq<Poll>, k: nat)
    requires polls != [] && polls[0].Bytes? && k <= |polls[0].bs|
    ensures Heard(polls) == polls[0].bs[..k] + Heard(After(polls, k))
    ensures Heard(polls)[k..] == Heard(After(polls, k))
  {
    var bs, more := polls[0].bs, Heard(polls[1..]);
    assert Heard(polls) == bs + more;
    if k < |bs| {
      var next := After(polls, k);
      assert next[0] == Bytes(bs[k..]) && next[1..] == polls[1..];
      assert Heard(next) == bs[k..] + more;
    }
    assert bs + more == bs[..k] + (bs[k..] + more);
  }

  /** A source that never waits: getfn of the transport. */
  class PollingSource {
    var polls: seq<Poll>

    constructor (polls: seq<Poll>)
      ensures this.polls == polls
    {
      this.polls := polls;
    }

    /** Up to `n` bytes, 0 for none yet, -1 for an error. */
    method Get(n: nat) returns (rc: int, bs: seq<byte>)
      modifies this
      ensures rc == -1 <==> old(polls) != [] && old(polls)[0].Broken?
      ensures rc == -1 ==> bs == [] && polls == old(polls)[1..]
      ensures rc != -1 ==> rc == |bs|
      ensures old(polls) == [] ==> rc == 0 && polls == []
      ensures rc != -1 && old(polls) != [] ==>
                && rc == (if |old(polls)[0].bs| < n then |old(polls)[0].bs| else n)
                && bs == old(polls)[0].bs[..rc] && polls == After(old(polls), rc)
    {
      if polls == [] {
        return 0, [];
      }
      var front := polls[0];
      if front.Broken? {
        polls := polls[1..];
        return -1, [];
      }
      var count := if |front.bs| < n then |front.bs| else n;
      rc, bs := count, front.bs[..count];
      polls := After(polls, count);
    }
  }
}
