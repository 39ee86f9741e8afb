/** Matching topic names against subscription filters (isTopicMatched in instamsg.c). */
module TopicFilter {
  import opened Common
  import PacketIO
  import PublishCodec
  import Wire

  /** The levels of a topic: the pieces between the separators, at least one. */
  function Levels(s: string): (ls: seq<string>)
    ensures ls != []
  {
    if s == "" then [""]
    else
      var rest := Levels(s[1..]);
      if s[0] == '/' then [""] + rest else [[s[0]] + rest[0]] + rest[1..]
  }

  predicate HasWildcard(level: string) {
    '+' in level || '#' in level
  }

  /** `+` stands alone on a level, `#` alone on the last level. */
  predicate WellFormedLevels(ls: seq<string>) {
    forall i :: 0 <= i < |ls| ==> !HasWildcard(ls[i]) || ls[i] == "+" || (ls[i] == "#" && i == |ls| - 1)
  }

  predicate WellFormed(filter: string) {
    WellFormedLevels(Levels(filter))
  }

  /** What a filter means, level by level: `+` takes one level that is not empty, a final `#` takes one or
      more levels of which the first is not empty, anything else only itself. */
  predicate LevelsMatch(fs: seq<string>, ns: seq<string>) {
    if fs == [] then ns == []
    else if ns == [] then false
    else if fs[0] == "#" then ns[0] != ""
    else (if fs[0] == "+" then ns[0] != "" else fs[0] == ns[0]) && LevelsMatch(fs[1..], ns[1..])
  }

  /** The rest of a name from the next separator on. */
  function FromSeparator(n: string): string {
    if n == "" || n[0] == '/' then n else FromSeparator(n[1..])
  }

  /** The scan from a pair of positions, given by the parts not compared yet. */
  predicate Scan(f: string, n: string)
    decreases |f|
  {
    if f == "" || n == "" then f == "" && n == ""
    else if n[0] == '/' && f[0] != '/' then false
    else if f[0] == '+' then Scan(f[1..], FromSeparator(n[1..]))
    else if f[0] == '#' then f == "#"
    else f[0] == n[0] && Scan(f[1..], n[1..])
  }

  lemma {:induction false} FromSeparatorLevels(n: string)
    ensures Levels(FromSeparator(n)) == [""] + Levels(n)[1..]
    decreases |n|
  {
    if n != "" && n[0] != '/' {
      FromSeparatorLevels(n[1..]);
    }
  }

  /** Levels of a text with one more character in front. */
  lemma LevelsFirst(s: string)
    requires s != ""
    ensures var rest := Levels(s[1..]);
            if s[0] == '/' then Levels(s)[0] == "" && Levels(s)[1..] == rest
            else Levels(s)[0] == [s[0]] + rest[0] && Levels(s)[1..] == rest[1..]
  {
  }

  lemma OneEmptyLevel(s: string)
    requires Levels(s) == [""]
    ensures s == ""
  {
  }

  lemma WellFormedRest(f: string)
    requires f != "" && WellFormed(f)
    ensures WellFormed(f[1..])
    ensures f[0] == '+' ==> Levels(f)[0] == "+" && Levels(f[1..])[0] == ""
    ensures f[0] == '#' ==> f == "#"
    ensures f[0] !in {'/', '+', '#'} ==> !HasWildcard(Levels(f)[0]) && !HasWildcard(Levels(f[1..])[0])
  {
    LevelsFirst(f);
    var fs, rest := Levels(f), Levels(f[1..]);
    if f[0] == '/' {
      assert forall i :: 0 <= i < |rest| ==> rest[i] == fs[i + 1];
    } else {
      assert f[0] in fs[0];
      assert !HasWildcard(fs[0]) || fs[0] == "+" || (fs[0] == "#" && |fs| == 1);
      assert forall i :: 0 < i < |rest| ==> rest[i] == rest[1..][i - 1] == fs[i];
      assert forall c :: c in rest[0] ==> c in fs[0];
      if f[0] == '#' {
        assert rest == [""];
        OneEmptyLevel(f[1..]);
      }
    }
  }

  /** The two-pointer scan decides exactly the level-by-level meaning, for every well-formed filter and
      every name. */
  lemma {:induction false} ScanIsLevelMatch(f: string, n: string)
    requires WellFormed(f)
    ensures Scan(f, n) <==> LevelsMatch(Levels(f), Levels(n))
    decreases |f|
  {
    if f != "" {
      LevelsFirst(f);
      WellFormedRest(f);
    }
    if n != "" {
      LevelsFirst(n);
    }
    if f != "" && n != "" && (n[0] != '/' || f[0] == '/') {
      var fs, ns := Levels(f), Levels(n);
      if f[0] == '+' {
        var next := FromSeparator(n[1..]);
        FromSeparatorLevels(n[1..]);
        ScanIsLevelMatch(f[1..], next);
        assert Levels(next)[1..] == ns[1..];
      } else if f[0] == '#' {
        assert Levels(f[1..]) == [""];
        assert fs[0] == "#";
      } else if f[0] == n[0] {
        ScanIsLevelMatch(f[1..], n[1..]);
        if f[0] != '/' {
          LiteralStep(f[0], Levels(f[1..]), Levels(n[1..]));
          assert fs == [[f[0]] + Levels(f[1..])[0]] + Levels(f[1..])[1..];
          assert ns == [[f[0]] + Levels(n[1..])[0]] + Levels(n[1..])[1..];
        }
      } else {
        assert fs[0] != ns[0] by {
          assert f[0] != '/' ==> fs[0][0] == f[0];
          assert n[0] != '/' ==> ns[0][0] == n[0];
        }
        assert fs[0] != "+" && fs[0] != "#";
      }
    }
  }

  /** A literal character in front of both first levels changes nothing. */
  lemma LiteralStep(c: char, fs: seq<string>, ns: seq<string>)
    requires fs != [] && ns != [] && c !in {'/', '+', '#'} && !HasWildcard(fs[0])
    ensures LevelsMatch([[c] + fs[0]] + fs[1..], [[c] + ns[0]] + ns[1..]) <==> LevelsMatch(fs, ns)
  {
    var f1, n1 := [[c] + fs[0]] + fs[1..], [[c] + ns[0]] + ns[1..];
    assert f1[1..] == fs[1..] && n1[1..] == ns[1..];
    assert ([c] + fs[0])[1..] == fs[0] && ([c] + ns[0])[1..] == ns[0];
    assert ([c] + fs[0])[0] == c;
  }

  /** isTopicMatched: the filter is a C string, the name a counted one. */
  method IsTopicMatched(topicFilter: string, topicName: string) returns (matched: bool)
    requires WellFormed(topicFilter)
    ensures matched <==> LevelsMatch(Levels(topicFilter), Levels(topicName))
  {
    ScanIsLevelMatch(topicFilter, topicName);
    var curf, curn, end := 0, 0, |topicName|;
    while curf < |topicFilter| && curn < end
      invariant 0 <= curf <= |topicFilter| && 0 <= curn <= end
      invariant Scan(topicFilter, topicName) <==> Scan(topicFilter[curf..], topicName[curn..])
      decreases |topicFilter| - curf
    {
      var f, n := topicFilter[curf], topicName[curn];
      ghost var rest := topicName[curn..][1..];
      assert topicFilter[curf..][1..] == topicFilter[curf + 1..] && rest == topicName[curn + 1..];
      if n == '/' && f != '/' {
        break;
      }
      if f != '+' && f != '#' && f != n {
        break;
      }
      if f == '+' {
        var nextpos := curn + 1;
        while nextpos < end && topicName[nextpos] != '/'
          invariant curn < end && nextpos == curn + 1 && nextpos <= end
          invariant FromSeparator(topicName[nextpos..]) == FromSeparator(rest)
        {
          assert topicName[nextpos..][1..] == topicName[nextpos + 1..];
          curn := curn + 1;
          nextpos := curn + 1;
        }
      } else if f == '#' {
        curn := end - 1;
        assert topicFilter[curf..] == "#" <==> topicFilter[curf + 1..] == "";
      }
      curf := curf + 1;
      curn := curn + 1;
    }
    matched := curn == end && curf == |topicFilter|;
  }

  // ---- Delivering a message (deliverMessageToSelf) ----

  datatype MessageHandler = MessageHandler(topicFilter: Option<string>, fp: Option<nat>)

  predicate Takes(h: MessageHandler, name: string) {
    && h.topicFilter.Some? && h.fp.Some?
    && (h.topicFilter.value == name || LevelsMatch(Levels(h.topicFilter.value), Levels(name)))
  }

  /** The callbacks of all handlers that take the name, in table order. */
  function Takers(hs: seq<MessageHandler>, name: string): seq<nat> {
    if hs == [] then []
    else Takers(hs[..|hs| - 1], name) + if Takes(hs[|hs| - 1], name) then [hs[|hs| - 1].fp.value] else []
  }

  /** What is called for a message: every taking handler once, in order; the default handler only if there is none. */
  function Called(handlers: seq<MessageHandler>, defaultHandler: Option<nat>, name: string): seq<nat> {
    if Takers(handlers, name) == [] && defaultHandler.Some? then [defaultHandler.value] else Takers(handlers, name)
  }

  predicate Increasing(at: seq<nat>) {
    forall i, j :: 0 <= i < j < |at| ==> at[i] < at[j]
  }

  /** `fps` are the callbacks of the handlers at these positions of the table. */
  predicate CallbacksAt(fps: seq<nat>, handlers: seq<MessageHandler>, at: seq<nat>) {
    |fps| == |at| && forall k :: 0 <= k < |at| ==> at[k] < |handlers| && handlers[at[k]].fp == Some(fps[k])
  }

  /** Which callbacks these are: those of the handlers that have one and whose filter is the name or matches it, in the order
      of the table; without any such handler the default one, if there is one, and otherwise none. */
  lemma CalledAreTakers(handlers: seq<MessageHandler>, defaultHandler: Option<nat>, name: string) returns (at: seq<nat>)
    ensures Increasing(at)
    ensures forall i :: 0 <= i < |handlers| ==>
              (i in at <==> var h := handlers[i];
                            && h.fp.Some? && h.topicFilter.Some?
                            && (h.topicFilter.value == name || LevelsMatch(Levels(h.topicFilter.value), Levels(name))))
    ensures at != [] || defaultHandler.None? ==> CallbacksAt(Called(handlers, defaultHandler, name), handlers, at)
    ensures at == [] && defaultHandler.Some? ==> Called(handlers, defaultHandler, name) == [defaultHandler.value]
  {
    at := TakersAt(handlers, name);
  }

  lemma {:induction false} TakersAt(hs: seq<MessageHandler>, name: string) returns (at: seq<nat>)
    ensures Increasing(at) && CallbacksAt(Takers(hs, name), hs, at)
    ensures forall i :: 0 <= i < |hs| ==> (i in at <==> Takes(hs[i], name))
  {
    at := [];
    if hs != [] {
      var last := |hs| - 1;
      var before := TakersAt(hs[..last], name);
      OneMoreHandler(Takers(hs[..last], name), hs, before);
      at := if Takes(hs[last], name) then before + [last] else before;
      forall i | 0 <= i < last
        ensures i in at <==> Takes(hs[i], name)
      {
        assert hs[i] == hs[..last][i];
      }
    }
  }

  lemma OneMoreHandler(fps: seq<nat>, hs: seq<MessageHandler>, at: seq<nat>)
    requires hs != [] && Increasing(at) && CallbacksAt(fps, hs[..|hs| - 1], at)
    ensures CallbacksAt(fps, hs, at) && forall i :: i in at ==> i < |hs| - 1
    ensures Increasing(at + [|hs| - 1])
    ensures hs[|hs| - 1].fp.Some? ==> CallbacksAt(fps + [hs[|hs| - 1].fp.value], hs, at + [|hs| - 1])
  {
  }

  /** The callbacks, and then the acknowledgement with the message's own id: PUBACK at QoS 1, PUBREC at QoS 2, whether or
      not anyone took the message.  `written` is what the socket answers to it. */
  method DeliverMessageToSelf(handlers: seq<MessageHandler>, defaultHandler: Option<nat>, name: string,
                              qos: nat, msgId: nat, written: Status)
    returns (called: seq<nat>, ack: Option<seq<byte>>, rc: Status)
    requires forall h :: h in handlers && h.topicFilter.Some? ==> WellFormed(h.topicFilter.value)
    requires msgId < 65536
    ensures called == Called(handlers, defaultHandler, name)
    ensures ack.Some? <==> qos == 1 || qos == 2
    ensures ack.Some? ==> ack.value == Wire.Acknowledgement(if qos == 1 then 4 else 5, 0, msgId)
    ensures rc == if ack.Some? then written else if called == [] then FAILURE else SUCCESS
  {
    called, ack, rc := [], None, FAILURE;
    for i := 0 to |handlers|
      invariant called == Takers(handlers[..i], name)
      invariant rc == if called == [] then FAILURE else SUCCESS
    {
      var h := handlers[i];
      assert handlers[..i + 1][..i] == handlers[..i];
      if h.topicFilter.Some? {
        var matched := h.topicFilter.value == name;
        if !matched {
          matched := IsTopicMatched(h.topicFilter.value, name);
        }
        if matched && h.fp.Some? {
          called := called + [h.fp.value];
          rc := SUCCESS;
        }
      }
    }
    assert handlers[..|handlers|] == handlers;
    if rc == FAILURE && defaultHandler.Some? {
      called := [defaultHandler.value];
      rc := SUCCESS;
    }
    if qos == 1 || qos == 2 {
      var packet := Acknowledgement(if qos == 1 then PacketIO.PUBACK else PacketIO.PUBREC, msgId);
      ack := Some(packet);
      rc := written;
    }
  }

  /** The packet that GLOBAL_BUFFER holds after serialising an acknowledgement. */
  method Acknowledgement(packetType: nat, msgId: nat) returns (packet: seq<byte>)
    requires packetType in {4, 5} && msgId < 65536
    ensures packet == Wire.Acknowledgement(packetType, 0, msgId)
  {
    var globalBuffer := new byte[MAX_BUFFER_SIZE](_ => 0);
    var len := PublishCodec.SerializeAck(globalBuffer, globalBuffer.Length, packetType, 0, msgId);
    packet := globalBuffer[..len];
  }

  // ---- Against section 4.7.1 of MQTT 3.1.1 ----

  /** The standard's meaning: `+` takes any one level, a final `#` any number of levels, none included. */
  predicate StandardMatch(fs: seq<string>, ns: seq<string>) {
    if fs == [] then ns == []
    else if fs[0] == "#" then true
    else ns != [] && (fs[0] == "+" || fs[0] == ns[0]) && StandardMatch(fs[1..], ns[1..])
  }

  /** Every wildcard of the filter faces a level that is there and not empty. */
  predicate WildcardsFed(fs: seq<string>, ns: seq<string>) {
    forall i :: 0 <= i < |fs| && (fs[i] == "+" || fs[i] == "#") ==> i < |ns| && ns[i] != ""
  }

  /** The program accepts nothing the standard rejects, and rejects a standard match exactly when some
      wildcard would have to take an empty or missing level. */
  lemma {:induction false} AgainstStandard(fs: seq<string>, ns: seq<string>)
    requires WellFormedLevels(fs)
    ensures LevelsMatch(fs, ns) <==> StandardMatch(fs, ns) && WildcardsFed(fs, ns)
    decreases |fs|
  {
    if fs != [] && fs[0] == "#" {
      assert fs == ["#"];
    } else if fs != [] && ns != [] {
      assert forall i :: 0 <= i < |fs| - 1 ==> fs[1..][i] == fs[i + 1];
      assert forall i :: 0 < i < |fs| ==> fs[i] == fs[1..][i - 1];
      AgainstStandard(fs[1..], ns[1..]);
    } else if fs != [] {
      assert !LevelsMatch(fs, ns) && !StandardMatch(fs, ns);
    }
  }

  /** Levels put together again. */
  function Joined(ls: seq<string>): string
    requires ls != []
  {
    if |ls| == 1 then ls[0] else ls[0] + "/" + Joined(ls[1..])
  }

  /** The levels of a text are its parts between the slashes. */
  lemma {:induction false} LevelsAreParts(s: string)
    ensures Joined(Levels(s)) == s && forall l :: l in Levels(s) ==> '/' !in l
    decreases |s|
  {
    if s != "" {
      LevelsAreParts(s[1..]);
      LevelsFirst(s);
      var ls, rest := Levels(s), Levels(s[1..]);
      if s[0] == '/' {
        assert ls == [""] + rest && "" + "/" == ['/'];
      } else {
        assert ls == [[s[0]] + rest[0]] + rest[1..] && rest == [rest[0]] + rest[1..];
        assert |rest| > 1 ==> [s[0]] + rest[0] + "/" + Joined(rest[1..]) == [s[0]] + (rest[0] + "/" + Joined(rest[1..]));
      }
      assert s == [s[0]] + s[1..];
    }
  }

  /** So no two texts have the same levels. */
  lemma LevelsInjective(s: string, t: string)
    requires Levels(s) == Levels(t)
    ensures s == t
  {
    LevelsAreParts(s);
    LevelsAreParts(t);
  }

  lemma {:induction false} PlainLevelsMatch(fs: seq<string>, ns: seq<string>)
    requires "+" !in fs && "#" !in fs
    ensures LevelsMatch(fs, ns) <==> fs == ns
    decreases |fs|
  {
    if fs != [] && ns != [] {
      PlainLevelsMatch(fs[1..], ns[1..]);
      assert fs == [fs[0]] + fs[1..] && ns == [ns[0]] + ns[1..];
    }
  }

  /** A filter without wildcards matches itself and nothing else. */
  lemma PlainFilterIsEquality(filter: string, name: string)
    requires "+" !in Levels(filter) && "#" !in Levels(filter)
    ensures LevelsMatch(Levels(filter), Levels(name)) <==> filter == name
  {
    PlainLevelsMatch(Levels(filter), Levels(name));
    if Levels(filter) == Levels(name) {
      LevelsInjective(filter, name);
    }
  }
}
