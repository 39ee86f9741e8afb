/** Editable configurations (config.c) on top of the config store: records pushed by the server, and defaults registered
    by the application. */
module Config {
  import opened Common
  import opened ConfigStore
  import opened Json
  import opened LineFiles
  import opened Numerals
  import opened SgStdlib
  import Sprintf

  const CONFIG_TYPE_KEY: string := "type"
  const CONFIG_VALUE_KEY: string := "val"
  const CONFIG_DESCRIPTION_KEY: string := "desc"

  datatype ConfigType = CONFIG_STRING | CONFIG_INT

  function TypeNumber(t: ConfigType): nat {
    if t == CONFIG_STRING then 0 else 1
  }

  function TypeText(t: ConfigType): string {
    if t == CONFIG_STRING then "0" else "1"
  }

  function ConfigPairs(key: string, t: ConfigType, value: string, desc: string): seq<Pair> {
    [QuotedPair(CONFIG_KEY_KEY, key), QuotedPair(CONFIG_TYPE_KEY, TypeText(t)),
     QuotedPair(CONFIG_VALUE_KEY, value), QuotedPair(CONFIG_DESCRIPTION_KEY, desc)]
  }

  /** The record of a configuration, whatever its texts contain. */
  function ConfigJson(key: string, t: ConfigType, value: string, desc: string): string {
    Print(ConfigPairs(key, t, value, desc))
  }

  // ---- What is read back from a record ----

  /** What follows the value of a pair that is not the last one. */
  function Remainder(more: seq<Pair>): string
    requires more != []
  {
    ", " + (PrintBody(more[..|more| - 1]) + more[|more| - 1].Print() + "}")
  }

  lemma RecordCut(front: seq<Pair>, p: Pair, more: seq<Pair>)
    requires p.key.quote == '\'' && p.value.quote == '\'' && more != []
    ensures Print(front + [p] + more) == Field(front, p.key, '\'', p.value.text, Remainder(more))
  {
    var ps, last, middle := front + [p] + more, more[|more| - 1], more[..|more| - 1];
    assert ps[..|ps| - 1] == front + ([p] + middle) && ps[|ps| - 1] == last;
    PrintBodyConcat(front, [p] + middle);
    assert ([p] + middle)[1..] == middle;
    Regroup(PrintBody(front), p.key.Print(), p.value.text, PrintBody(middle), last.Print());
  }

  lemma Regroup(front: string, key: string, value: string, middle: string, last: string)
    ensures "{" + (front + (key + " : " + (['\''] + value + ['\'']) + ", " + middle)) + last + "}"
         == "{" + front + key + " : " + ['\''] + value + ['\''] + (", " + (middle + last + "}"))
  {
  }

  lemma {:induction false} PrintBodyConcat(a: seq<Pair>, b: seq<Pair>)
    ensures PrintBody(a + b) == PrintBody(a) + PrintBody(b)
  {
    if a == [] {
      assert a + b == b;
    } else {
      assert (a + b)[1..] == a[1..] + b;
      PrintBodyConcat(a[1..], b);
    }
  }

  /** The key of a record, for any texts at all. */
  lemma RecordKey(key: string, t: ConfigType, value: string, desc: string)
    ensures KeyOf(ConfigJson(key, t, value, desc)) == ReadBack(key)
  {
    var ps := ConfigPairs(key, t, value, desc);
    RecordCut([], ps[0], ps[1..]);
    assert [] + [ps[0]] + ps[1..] == ps;
    assert Blanked(CONFIG_KEY_KEY) == CONFIG_KEY_KEY;
    LookupField([], ps[0].key, '\'', key, Remainder(ps[1..]), CONFIG_KEY_KEY);
  }

  /** Its value, if the key has no quote. */
  lemma RecordValue(key: string, t: ConfigType, value: string, desc: string)
    requires '\'' !in key
    ensures Lookup(ConfigJson(key, t, value, desc), CONFIG_VALUE_KEY) == ReadBack(value)
  {
    var ps := ConfigPairs(key, t, value, desc);
    RecordCut(ps[..2], ps[2], ps[3..]);
    assert ps[..2] + [ps[2]] + ps[3..] == ps;
    FrontValid(ps, t);
    assert Blanked(CONFIG_VALUE_KEY) == CONFIG_VALUE_KEY;
    NotInFront(ps);
    LookupField(ps[..2], ps[2].key, '\'', value, Remainder(ps[3..]), CONFIG_VALUE_KEY);
  }

  lemma FrontValid(ps: seq<Pair>, t: ConfigType)
    requires |ps| == 4 && ps[0].Valid() && ps[1] == QuotedPair(CONFIG_TYPE_KEY, TypeText(t))
    ensures AllValid(ps[..2])
  {
    assert ps[1].Valid();
  }

  lemma NotInFront(ps: seq<Pair>)
    requires |ps| == 4 && ps[0].key.text == CONFIG_KEY_KEY && ps[1].key.text == CONFIG_TYPE_KEY && ps[2].key.text == CONFIG_VALUE_KEY
    ensures FirstValue(ps[..2], CONFIG_VALUE_KEY).None? && FirstValue(ps[..3], CONFIG_DESCRIPTION_KEY).None?
  {
    BlankedPlain(CONFIG_KEY_KEY);
    BlankedPlain(CONFIG_TYPE_KEY);
    BlankedPlain(CONFIG_VALUE_KEY);
    // four different first letters
    assert CONFIG_KEY_KEY[0] == 'k' && CONFIG_TYPE_KEY[0] == 't' && CONFIG_VALUE_KEY[0] == 'v' && CONFIG_DESCRIPTION_KEY[0] == 'd';
    NoSuchKey(ps[..2], CONFIG_VALUE_KEY);
    NoSuchKey(ps[..3], CONFIG_DESCRIPTION_KEY);
  }

  lemma {:induction false} NoSuchKey(ps: seq<Pair>, wanted: string)
    requires forall i :: 0 <= i < |ps| ==> Blanked(ps[i].key.text) != wanted
    ensures FirstValue(ps, wanted).None?
    decreases |ps|
  {
    if ps != [] {
      NoSuchKey(ps[1..], wanted);
    }
  }

  /** Its description, if neither key nor value has a quote. */
  lemma RecordDesc(key: string, t: ConfigType, value: string, desc: string)
    requires '\'' !in key && '\'' !in value
    ensures Lookup(ConfigJson(key, t, value, desc), CONFIG_DESCRIPTION_KEY) == ReadBack(desc)
  {
    var ps := ConfigPairs(key, t, value, desc);
    assert ps[..|ps| - 1] == ps[..3];
    FrontValid(ps, t);
    assert AllValid(ps[..3]) by {
      assert ps[2].Valid();
      assert forall p :: p in ps[..3] ==> p in ps[..2] || p == ps[2];
    }
    BlankedPlain(CONFIG_DESCRIPTION_KEY);
    NotInFront(ps);
    assert Print(ps) == Field(ps[..3], ps[3].key, '\'', desc, "}");
    LookupField(ps[..3], ps[3].key, '\'', desc, "}", CONFIG_DESCRIPTION_KEY);
  }

  /** Nothing that is looked up contains a line end. */
  lemma {:induction false} FoundHasNoLineEnds(st: Scan, s: string, wanted: string)
    requires '\r' !in s && '\n' !in s && NoLineEnds(st)
    ensures NoLineEnds(Json.Run(st, s, wanted))
    decreases |s|
  {
    if st.Reading? && s != "" {
      StepHasNoLineEnds(st, s[0], wanted);
      FoundHasNoLineEnds(Step(st, s[0], wanted), s[1..], wanted);
    }
  }

  lemma StepHasNoLineEnds(st: Scan, c: char, wanted: string)
    requires st.Reading? && NoLineEnds(st) && c != '\r' && c != '\n'
    ensures NoLineEnds(Step(st, c, wanted))
  {
  }

  predicate NoLineEnds(st: Scan) {
    match st
    case Found(r) => '\r' !in r && '\n' !in r
    case Reading(_, _, k, v) => '\r' !in v && '\n' !in v
  }

  lemma LookupHasNoLineEnds(json: string, wanted: string)
    ensures '\r' !in Lookup(json, wanted) && '\n' !in Lookup(json, wanted)
  {
    FoundHasNoLineEnds(START, Blanked(json), wanted);
  }

  // ---- Pushed and registered configurations ----

  /** process_config: the record goes into the file as it is. */
  function Processed(text: string, json: string): string {
    Saved(text, KeyOf(json), json)
  }

  /** A stored record overrides the default. */
  function Loaded(text: string, key: string, field: string, default: string): string {
    var stored := Got(Lines(text), key);
    if stored.Some? then Lookup(stored.value, field) else default
  }

  function LoadedValue(text: string, key: string, value: string): string {
    Loaded(text, key, CONFIG_VALUE_KEY, value)
  }

  function LoadedDesc(text: string, key: string, desc: string): string {
    Loaded(text, key, CONFIG_DESCRIPTION_KEY, desc)
  }

  /** The record that registerEditableConfig prints. */
  function RecordInUse(text: string, key: string, t: ConfigType, value: string, desc: string): string {
    ConfigJson(key, t, LoadedValue(text, key, value), LoadedDesc(text, key, desc))
  }

  function Registered(text: string, key: string, t: ConfigType, value: string, desc: string): string {
    Processed(text, RecordInUse(text, key, t, value, desc))
  }

  datatype Event = Push(json: string) | Register(key: string, t: ConfigType, value: string, desc: string)

  function Written(text: string, e: Event): string {
    match e
    case Push(json) => json
    case Register(key, t, value, desc) => RecordInUse(text, key, t, value, desc)
  }

  /** The file after an event. None is a line of the file or a record that does not fit the buffers it is read or printed
      into. */
  function Apply(text: string, e: Event): Option<string> {
    if LinesFit(text, MAX_BUFFER_SIZE) && |Written(text, e)| < MAX_BUFFER_SIZE then Some(Processed(text, Written(text, e))) else None
  }

  function Run(text: string, es: seq<Event>): Option<string>
    decreases |es|
  {
    if es == [] then Some(text)
    else if Apply(text, es[0]).None? then None
    else Run(Apply(text, es[0]).value, es[1..])
  }

  // ---- Records with line ends ----

  /** The lines that a record leaves in the file after its first one. */
  function LaterLines(json: string): seq<string> {
    if '\n' in json then Lines(Cut(json).1 + "\n") else []
  }

  lemma LinesOfRecord(json: string)
    ensures var first := StripCR(Cut(json).0);
            Lines(json + "\n") == if first == "" then [] else [first] + LaterLines(json)
  {
    var (line, rest) := Cut(json);
    CutParts(json);
    if '\n' in json {
      assert json + "\n" == line + "\n" + (rest + "\n");
      CutLine(line, rest + "\n");
    } else {
      assert json + "\n" == json + "\n" + "";
      CutLine(json, "");
    }
  }

  /** What is read back of a record that was just saved under its own key. */
  function Kept(json: string): Option<string> {
    Got(Lines(json + "\n"), KeyOf(json))
  }

  /** The record is found again, with its value. */
  predicate Survives(json: string) {
    Kept(json).Some? && Lookup(Kept(json).value, CONFIG_VALUE_KEY) == Lookup(json, CONFIG_VALUE_KEY)
  }

  /** What is loaded after a push, for every text that can be pushed. */
  lemma LoadedAfterPush(text: string, json: string, field: string, default: string)
    ensures Loaded(Processed(text, json), KeyOf(json), field, default)
         == match Kept(json) case Some(l) => Lookup(l, field) case None => default
  {
    GotSaved(text, KeyOf(json), json, KeyOf(json));
  }

  /** A pushed value is loaded whatever the default is if and only if its record survives. */
  lemma SurvivesExactly(text: string, json: string)
    ensures Survives(json) <==>
      forall default: string :: LoadedValue(Processed(text, json), KeyOf(json), default) == Lookup(json, CONFIG_VALUE_KEY)
  {
    forall default: string
      ensures LoadedValue(Processed(text, json), KeyOf(json), default)
           == match Kept(json) case Some(l) => Lookup(l, CONFIG_VALUE_KEY) case None => default
    {
      LoadedAfterPush(text, json, CONFIG_VALUE_KEY, default);
    }
    var other := Lookup(json, CONFIG_VALUE_KEY) + "x";
    assert LoadedValue(Processed(text, json), KeyOf(json), other) == match Kept(json)
      case Some(l) => Lookup(l, CONFIG_VALUE_KEY)
      case None => other;
  }

  lemma {:induction false} LookupStripped(l: string, wanted: string)
    ensures Lookup(StripCR(l), wanted) == Lookup(l, wanted)
    decreases |l|
  {
    if l != "" && l[|l| - 1] == '\r' {
      var front := l[..|l| - 1];
      assert l == front + ['\r'];
      LookupBlank(front, '\r', wanted);
      LookupStripped(front, wanted);
    }
  }

  lemma LookupFirstLine(json: string, wanted: string)
    ensures var line := Cut(json).0;
            Lookup(StripCR(line), wanted) == if FoundIn(line, wanted) then Lookup(json, wanted) else ""
  {
    var (line, rest) := Cut(json);
    CutParts(json);
    LookupStripped(line, wanted);
    var more := if '\n' in json then "\n" + rest else "";
    assert json == line + more;
    LookupCut(line, more, wanted);
  }

  lemma KeptFirstLine(json: string)
    requires Find(LaterLines(json), KeyOf(json)).None?
    ensures var first := StripCR(Cut(json).0);
            Kept(json) == if first != "" && KeyOf(first) == KeyOf(json) then Some(first) else None
  {
    var first, later := StripCR(Cut(json).0), LaterLines(json);
    LinesOfRecord(json);
    if first != "" {
      assert ([first] + later)[1..] == later;
      OverlaidAbsent(first, later, KeyOf(json));
    }
  }

  /** Unless a later line carries the key, a text survives if and only if its first line holds all that there is to find
      of key and value. */
  lemma SurvivesByFirstLine(json: string)
    requires Find(LaterLines(json), KeyOf(json)).None?
    ensures var line := Cut(json).0;
            Survives(json) <==>
              && StripCR(line) != ""
              && (KeyOf(json) == "" || FoundIn(line, CONFIG_KEY_KEY))
              && (Lookup(json, CONFIG_VALUE_KEY) == "" || FoundIn(line, CONFIG_VALUE_KEY))
  {
    KeptFirstLine(json);
    LookupFirstLine(json, CONFIG_KEY_KEY);
    LookupFirstLine(json, CONFIG_VALUE_KEY);
  }

  /** The text is a printed dictionary, with line ends for any of its blanks, in which this is the first pair of its key. */
  predicate Holds(json: string, front: seq<Pair>, p: Pair) {
    && AllValid(front) && p.Valid() && FirstValue(front, Blanked(p.key.text)).None?
    && UpToPair(front, p) <= Blanked(json)
  }

  lemma FoundByPlace(json: string, front: seq<Pair>, p: Pair)
    requires Holds(json, front, p)
    ensures FoundIn(Cut(json).0, Blanked(p.key.text)) <==> |Cut(json).0| >= |UpToPair(front, p)|
    ensures Cut(json).0 == "" || StripCR(Cut(json).0) != ""
  {
    var line, whole := Cut(json).0, UpToPair(front, p);
    CutParts(json);
    assert line == json[..|line|];
    FoundInPrefix(json, |line|, front, p);
    if line != "" {
      assert whole[0] == '{' && Blanked(json)[0] == Blank(json[0]);
      StartsVisible(line);
    }
  }

  lemma FoundInPrefix(json: string, n: nat, front: seq<Pair>, p: Pair)
    requires Holds(json, front, p) && n <= |json|
    ensures FoundIn(json[..n], Blanked(p.key.text)) <==> n >= |UpToPair(front, p)|
  {
    var whole, wanted := UpToPair(front, p), Blanked(p.key.text);
    var m := if n < |whole| then n else |whole|;
    FoundFromClosingQuote(front, p, m, wanted);
    SameScan(json[..m], whole[..m], wanted) by {
      assert whole == Blanked(json)[..|whole|];
    }
    LookupCut(json[..m], json[m..n], wanted);
    assert json[..n] == json[..m] + json[m..n];
  }

  lemma SameScan(a: string, b: string, wanted: string)
    requires |a| == |b| && forall i :: 0 <= i < |a| ==> Blank(a[i]) == Blank(b[i])
    ensures FoundIn(a, wanted) == FoundIn(b, wanted) && Lookup(a, wanted) == Lookup(b, wanted)
  {
    SameBlanked(a, b);
  }

  /** The scan sees nothing but the blanked text. */
  lemma SameBlanked(a: string, b: string)
    requires |a| == |b| && forall i :: 0 <= i < |a| ==> Blank(a[i]) == Blank(b[i])
    ensures Blanked(a) == Blanked(b)
  {
  }

  lemma {:induction false} StartsVisible(l: string)
    requires l != "" && l[0] != '\r'
    ensures StripCR(l) != ""
    decreases |l|
  {
    if l[|l| - 1] == '\r' {
      StartsVisible(l[..|l| - 1]);
    }
  }

  /** So a printed dictionary with a key and a value survives if and only if its first LF stands behind the closing quotes
      of both its key pair and its value pair. */
  lemma SurvivesByPlace(json: string, kf: seq<Pair>, k: Pair, vf: seq<Pair>, v: Pair)
    requires Holds(json, kf, k) && Blanked(k.key.text) == CONFIG_KEY_KEY && k.value.text != ""
    requires Holds(json, vf, v) && Blanked(v.key.text) == CONFIG_VALUE_KEY && v.value.text != ""
    requires Find(LaterLines(json), KeyOf(json)).None?
    ensures Survives(json) <==> |Cut(json).0| >= |UpToPair(kf, k)| && |Cut(json).0| >= |UpToPair(vf, v)|
  {
    SurvivesByFirstLine(json);
    FoundByPlace(json, kf, k);
    FoundByPlace(json, vf, v);
    HeldValue(json, kf, k);
    HeldValue(json, vf, v);
    assert |UpToPair(kf, k)| > 0;
  }

  lemma HeldValue(json: string, front: seq<Pair>, p: Pair)
    requires Holds(json, front, p)
    ensures Lookup(json, Blanked(p.key.text)) == Blanked(p.value.text)
  {
    var whole, wanted, n := UpToPair(front, p), Blanked(p.key.text), |UpToPair(front, p)|;
    SameScan(json[..n], whole, wanted) by {
      assert whole == Blanked(json)[..n];
    }
    FoundFromClosingQuote(front, p, n, wanted);
    assert whole[..n] == whole;
    assert json == json[..n] + json[n..];
    LookupCut(json[..n], json[n..], wanted);
    assert whole == Field(front, p.key, p.value.quote, p.value.text, "");
    LookupField(front, p.key, p.value.quote, p.value.text, "", wanted);
    UpToAbsent(p.value.text, p.value.quote);
  }

  // ---- Three pushes with an LF in them ----

  /** A line that begins inside a dictionary, with one pair and then the rest of it. */
  lemma LookupPair(p: Pair, rest: string, wanted: string)
    requires p.Valid() && wanted == Blanked(wanted)
    ensures Blanked(p.key.text) == wanted ==> Lookup(p.Print() + rest, wanted) == Blanked(p.value.text)
    ensures Blanked(p.key.text) != wanted ==> Lookup(p.Print() + rest, wanted) == Lookup(rest, wanted)
  {
    assert p.Print() + rest == p.key.Print() + " : " + [p.value.quote] + p.value.text + [p.value.quote] + rest;
    RunRawPair(p.key, p.value.quote, p.value.text, rest, wanted);
    UpToAbsent(p.value.text, p.value.quote);
  }

  /** {'key' : 'k',<LF>'val' : 'v'} */
  function SplitRecord(key: string, value: string): string {
    "{" + QuotedPair(CONFIG_KEY_KEY, key).Print() + ",\n" + (QuotedPair(CONFIG_VALUE_KEY, value).Print() + "}")
  }

  lemma SplitRecordLines(key: string, value: string)
    requires Plain(key) && Plain(value)
    ensures var json := SplitRecord(key, value);
            && Cut(json).0 == "{" + QuotedPair(CONFIG_KEY_KEY, key).Print() + ","
            && LaterLines(json) == [QuotedPair(CONFIG_VALUE_KEY, value).Print() + "}"]
  {
    var first, second := "{" + QuotedPair(CONFIG_KEY_KEY, key).Print() + ",", QuotedPair(CONFIG_VALUE_KEY, value).Print() + "}";
    assert SplitRecord(key, value) == first + "\n" + second by {
      assert ",\n" == "," + "\n";
    }
    CutLine(first, second);
    LastPartOfDictionary(QuotedPair(CONFIG_VALUE_KEY, value));
  }

  lemma SplitRecordHolds(key: string, value: string)
    requires Plain(key) && Plain(value)
    ensures var json, k := SplitRecord(key, value), QuotedPair(CONFIG_KEY_KEY, key);
            Holds(json, [], k) && Holds(json, [k], QuotedPair(CONFIG_VALUE_KEY, value))
  {
    var k, v := QuotedPair(CONFIG_KEY_KEY, key), QuotedPair(CONFIG_VALUE_KEY, value);
    SplitBlanked("{" + k.Print(), v.Print() + "}");
    FirstTwoPairs(k, v);
    SplitPrefixes("{" + k.Print(), v.Print());
    PairKeys();
  }

  lemma FirstTwoPairs(k: Pair, v: Pair)
    ensures UpToPair([], k) == "{" + k.Print() && UpToPair([k], v) == "{" + k.Print() + ", " + v.Print()
  {
    assert [k][1..] == [] && PrintBody([]) == "" && PrintBody([k]) == k.Print() + ", " + PrintBody([]);
  }

  lemma SplitPrefixes(a: string, b: string)
    ensures a <= a + ", " + (b + "}") && a + ", " + b <= a + ", " + (b + "}")
  {
  }

  lemma SplitBlanked(front: string, rest: string)
    requires '\r' !in front && '\n' !in front && '\r' !in rest && '\n' !in rest
    ensures Blanked(front + ",\n" + rest) == front + ", " + rest
  {
  }

  lemma PairKeys()
    ensures Blanked(CONFIG_KEY_KEY) == CONFIG_KEY_KEY && Blanked(CONFIG_VALUE_KEY) == CONFIG_VALUE_KEY
    ensures CONFIG_KEY_KEY != CONFIG_VALUE_KEY
  {
    BlankedPlain(CONFIG_KEY_KEY);
    BlankedPlain(CONFIG_VALUE_KEY);
    assert CONFIG_KEY_KEY[0] != CONFIG_VALUE_KEY[0];
  }

  /** With an LF between key and value the value is lost: an empty text is loaded, whatever was stored before. */
  lemma BrokenPushLosesValue(text: string, key: string, value: string, default: string)
    requires Plain(key) && key != "" && Plain(value) && value != ""
    ensures var json := SplitRecord(key, value);
            && KeyOf(json) == key && Lookup(json, CONFIG_VALUE_KEY) == value && !Survives(json)
            && LoadedValue(Processed(text, json), key, default) == ""
  {
    var json, k, v := SplitRecord(key, value), QuotedPair(CONFIG_KEY_KEY, key), QuotedPair(CONFIG_VALUE_KEY, value);
    SplitRecordLines(key, value);
    SplitRecordHolds(key, value);
    PairKeys();
    BlankedPlain(key);
    BlankedPlain(value);
    HeldValue(json, [], k);
    HeldValue(json, [k], v);
    LastPartOfDictionary(v);
    assert [v.Print() + "}"][1..] == [];
    FoundByPlace(json, [], k);
    FoundByPlace(json, [k], v);
    FirstTwoPairs(k, v);
    assert |UpToPair([k], v)| > |Cut(json).0| >= |UpToPair([], k)|;
    KeptFirstLine(json);
    LookupFirstLine(json, CONFIG_KEY_KEY);
    LookupFirstLine(json, CONFIG_VALUE_KEY);
    LoadedAfterPush(text, json, CONFIG_VALUE_KEY, default);
  }

  /** The line that ends a dictionary with another pair than the key. */
  lemma LastPartOfDictionary(p: Pair)
    requires p.Valid() && Plain(p.key.text) && Plain(p.value.text) && p.key.text != CONFIG_KEY_KEY
    ensures Lines(p.Print() + "}" + "\n") == [p.Print() + "}"] && KeyOf(p.Print() + "}") == ""
  {
    var line := p.Print() + "}";
    assert Visible(line);
    OneLine(line);
    BlankedPlain(CONFIG_KEY_KEY);
    BlankedPlain(p.key.text);
    LookupPair(p, "}", CONFIG_KEY_KEY);
    assert Blanked("}") == "}" && "}"[1..] == "";
    assert Json.Run(START, "}", CONFIG_KEY_KEY) == Step(START, '}', CONFIG_KEY_KEY);
  }

  /** With an LF in front, the record is lost altogether. */
  lemma LeadingLineEndLosesRecord(text: string, json: string, default: string)
    requires json != "" && json[0] == '\n'
    ensures Kept(json).None? && LoadedValue(Processed(text, json), KeyOf(json), default) == default
  {
    LinesOfRecord(json);
    LoadedAfterPush(text, json, CONFIG_VALUE_KEY, default);
  }

  /** {'key' : 'x',<LF>'key' : 'k', 'val' : '7'} */
  function TwoKeyRecord(other: string, key: string, value: string): string {
    SplitFirst(other) + "\n" + SplitSecond(key, value)
  }

  function SplitFirst(other: string): string {
    "{" + QuotedPair(CONFIG_KEY_KEY, other).Print() + ","
  }

  function SplitSecond(key: string, value: string): string {
    QuotedPair(CONFIG_KEY_KEY, key).Print() + (", " + (QuotedPair(CONFIG_VALUE_KEY, value).Print() + "}"))
  }

  lemma SecondPart(key: string, value: string)
    requires Plain(key) && Plain(value)
    ensures var line := SplitSecond(key, value);
            Visible(line) && KeyOf(line) == key && Lookup(line, CONFIG_VALUE_KEY) == value
  {
    var k, v := QuotedPair(CONFIG_KEY_KEY, key), QuotedPair(CONFIG_VALUE_KEY, value);
    PairKeys();
    BlankedPlain(key);
    BlankedPlain(value);
    LookupPair(k, ", " + (v.Print() + "}"), CONFIG_KEY_KEY);
    LookupPair(k, ", " + (v.Print() + "}"), CONFIG_VALUE_KEY);
    LookupAfterComma(v.Print() + "}", CONFIG_VALUE_KEY);
    LookupPair(v, "}", CONFIG_VALUE_KEY);
  }

  lemma FirstPart(other: string, rest: string)
    requires Plain(other)
    ensures Visible(SplitFirst(other)) && KeyOf(SplitFirst(other)) == other && KeyOf(SplitFirst(other) + rest) == other
  {
    var k, line := QuotedPair(CONFIG_KEY_KEY, other), SplitFirst(other);
    PairKeys();
    BlankedPlain(other);
    BlankedConcat("{" + k.Print(), ",");
    BlankedPlain("{" + k.Print());
    BlankedConcat(line, rest);
    assert PrintBody([]) == "" && UpToPair([], k) == "{" + k.Print();
    HeldValue(line, [], k);
    HeldValue(line + rest, [], k);
  }

  /** And a record for one key can replace the value of another one: its second line is the last one of that key. */
  lemma PushForAnotherKeyReplaces(text: string, other: string, key: string, value: string, default: string)
    requires Plain(other) && Plain(key) && Plain(value) && other != key && value != ""
    ensures var json := TwoKeyRecord(other, key, value);
            KeyOf(json) == other && !Untouched(json, key) && LoadedValue(Processed(text, json), key, default) == value
  {
    var first, second := SplitFirst(other), SplitSecond(key, value);
    var json := TwoKeyRecord(other, key, value);
    assert json == first + ("\n" + second);
    FirstPart(other, "\n" + second);
    SecondPart(key, value);
    CutLine(first, second);
    LinesStep(first, second + "\n");
    assert json + "\n" == first + "\n" + (second + "\n");
    OneLine(second);
    SecondLineWins(text, json, first, second, key, default);
  }

  lemma PairsSpelt()
    ensures QuotedPair("key", "k").Print() == "'key' : 'k'" && QuotedPair("key", "x").Print() == "'key' : 'x'"
    ensures QuotedPair("val", "v").Print() == "'val' : 'v'" && QuotedPair("val", "7").Print() == "'val' : '7'"
  {
    assert ['\''] + "key" + ['\''] == "'key'" && ['\''] + "k" + ['\''] == "'k'" && ['\''] + "x" + ['\''] == "'x'";
    assert ['\''] + "val" + ['\''] == "'val'" && ['\''] + "v" + ['\''] == "'v'" && ['\''] + "7" + ['\''] == "'7'";
  }

  lemma SplitRecordSpelt()
    ensures SplitRecord("k", "v") == "{'key' : 'k',\n'val' : 'v'}"
  {
    PairsSpelt();
    assert "{" + "'key' : 'k'" == "{'key' : 'k'" && "'val' : 'v'" + "}" == "'val' : 'v'}";
    assert "{'key' : 'k'" + ",\n" == "{'key' : 'k',\n";
    assert "{'key' : 'k',\n" + "'val' : 'v'}" == "{'key' : 'k',\n'val' : 'v'}";
  }

  lemma TwoKeyRecordSpelt()
    ensures TwoKeyRecord("x", "k", "7") == "{'key' : 'x',\n'key' : 'k', 'val' : '7'}"
  {
    PairsSpelt();
    SecondLineSpelt();
    assert "{" + "'key' : 'x'" == "{'key' : 'x'" && "{'key' : 'x'" + "," == "{'key' : 'x',";
    assert "{'key' : 'x'," + "\n" == "{'key' : 'x',\n";
    assert "{'key' : 'x',\n" + "'key' : 'k', 'val' : '7'}" == "{'key' : 'x',\n'key' : 'k', 'val' : '7'}";
  }

  lemma SecondLineSpelt()
    ensures "'key' : 'k'" + (", " + ("'val' : '7'" + "}")) == "'key' : 'k', 'val' : '7'}"
  {
    assert "'val' : '7'" + "}" == "'val' : '7'}" && ", " + "'val' : '7'}" == ", 'val' : '7'}";
    assert "'key' : 'k'" + ", 'val' : '7'}" == "'key' : 'k', 'val' : '7'}";
  }

  /** Both at concrete texts. */
  lemma BrokenPushes(text: string, default: string)
    ensures LoadedValue(Processed(text, "{'key' : 'k',\n'val' : 'v'}"), "k", default) == ""
    ensures LoadedValue(Processed(text, "{'key' : 'x',\n'key' : 'k', 'val' : '7'}"), "k", default) == "7"
  {
    SplitRecordSpelt();
    TwoKeyRecordSpelt();
    BrokenPushLosesValue(text, "k", "v", default);
    assert "x"[0] != "k"[0];
    PushForAnotherKeyReplaces(text, "x", "k", "7", default);
  }

  lemma LookupAfterComma(s: string, wanted: string)
    ensures Lookup(", " + s, wanted) == Lookup(s, wanted)
  {
    BlankedConcat(", ", s);
    assert Blanked(", ") == ", ";
    RunComma(Blanked(s), wanted);
  }

  lemma SecondLineWins(text: string, json: string, first: string, second: string, key: string, default: string)
    requires KeyOf(json) != key && KeyOf(first) != key && KeyOf(second) == key && Lookup(second, CONFIG_VALUE_KEY) != ""
    requires Lines(json + "\n") == [first, second]
    ensures !Untouched(json, key)
    ensures LoadedValue(Processed(text, json), key, default) == Lookup(second, CONFIG_VALUE_KEY)
  {
    var others := Without(Lines(text), KeyOf(json));
    LinesSaved(text, KeyOf(json), json);
    FindConcat(others, [first, second], key);
    assert [first, second][1..] == [second] && [second][1..] == [];
    OverlaidConcat("", others, [first, second], key);
    var buffer := Overlaid("", others, key);
    assert Overlaid(buffer, [first, second], key) == Overlaid(buffer, [second], key) == Overlay(buffer, second);
    assert Overlay(buffer, second) == second + if |buffer| <= |second| then "" else buffer[|second|..];
    LookupCut(second, if |buffer| <= |second| then "" else buffer[|second|..], CONFIG_VALUE_KEY);
  }

  // ---- The records that the driver prints ----

  function Head(key: string, t: ConfigType): string {
    "{" + QuotedPair(CONFIG_KEY_KEY, key).Print() + ", " + QuotedPair(CONFIG_TYPE_KEY, TypeText(t)).Print() + ", " + VALUE_HEAD
  }

  const VALUE_HEAD: string := Token('\'', CONFIG_VALUE_KEY).Print() + " : '"
  const DESC_HEAD: string := "', " + (Token('\'', CONFIG_DESCRIPTION_KEY).Print() + " : '")

  /** Where the value and the description stand in a record. */
  lemma RecordShape(key: string, t: ConfigType, value: string, desc: string)
    ensures ConfigJson(key, t, value, desc) == Head(key, t) + value + DESC_HEAD + desc + "'}"
  {
    var ps := ConfigPairs(key, t, value, desc);
    PrintWhole(ps);
    ShapeRegroup(ps[0].Print(), ps[1].Print(), ps[2].key.Print(), value, ps[3].key.Print(), desc);
  }

  lemma ShapeRegroup(a: string, b: string, k: string, v: string, l: string, d: string)
    ensures "{" + (a + (", " + (b + (", " + ((k + " : " + (['\''] + v + ['\'']))
                 + (", " + ((l + " : " + (['\''] + d + ['\''])) + "}")))))))
         == ("{" + a + ", " + b + ", " + (k + " : '")) + v + ("', " + (l + " : '")) + d + "'}"
  {
  }

  function Quotes(s: string): nat {
    multiset(s)['\'']
  }

  /** Two records that differ in value and description only are the same text exactly if both agree, provided that one of
      them has no quote there and, when the other has none either, that their texts are of equal length. */
  lemma RecordsAgree(key: string, t: ConfigType, v: string, d: string, w: string, e: string)
    requires '\'' !in w && '\'' !in e
    requires '\'' !in v && '\'' !in d ==> |v| == |w| && |d| == |e|
    ensures ConfigJson(key, t, v, d) == ConfigJson(key, t, w, e) <==> v == w && d == e
  {
    if ConfigJson(key, t, v, d) == ConfigJson(key, t, w, e) {
      RecordShape(key, t, v, d);
      RecordShape(key, t, w, e);
      SameQuotes(Head(key, t), v, DESC_HEAD, d, w, e, "'}");
      NoQuotes(v, d);
      NoQuotes(w, e);
      SamePlaces(Head(key, t), v, DESC_HEAD, d, w, e, "'}");
    }
  }

  lemma NoQuotes(v: string, d: string)
    ensures Quotes(v) + Quotes(d) == 0 <==> '\'' !in v && '\'' !in d
  {
    assert '\'' in multiset(v) <==> '\'' in v;
    assert '\'' in multiset(d) <==> '\'' in d;
  }

  lemma SameQuotes(a: string, v: string, b: string, d: string, w: string, e: string, c: string)
    requires a + v + b + d + c == a + w + b + e + c
    ensures Quotes(v) + Quotes(d) == Quotes(w) + Quotes(e)
  {
    assert Quotes(a + v + b + d + c) == Quotes(a) + Quotes(v) + Quotes(b) + Quotes(d) + Quotes(c);
    assert Quotes(a + w + b + e + c) == Quotes(a) + Quotes(w) + Quotes(b) + Quotes(e) + Quotes(c);
  }

  lemma SamePlaces(a: string, v: string, b: string, d: string, w: string, e: string, c: string)
    requires |v| == |w| && |d| == |e| && a + v + b + d + c == a + w + b + e + c
    ensures v == w && d == e
  {
    var s := a + v + b + d + c;
    assert s[|a|..|a| + |v|] == v && s[|a|..|a| + |v|] == w;
    var n := |a| + |v| + |b|;
    assert s[n..n + |d|] == d && s[n..n + |d|] == e;
  }

  /** A printed record without LF is one line of the file. */
  lemma RecordVisible(key: string, t: ConfigType, value: string, desc: string)
    requires '\n' !in key
    ensures Visible(ConfigJson(key, t, value, desc)) <==> '\n' !in value && '\n' !in desc
  {
    RecordShape(key, t, value, desc);
    assert '\n' !in Head(key, t) && '\n' !in DESC_HEAD && '\n' !in "'}";
  }

  lemma PrefixInFirstLine(json: string, front: string)
    requires front <= json && '\n' !in front
    ensures front <= Cut(json).0
  {
    CutParts(json);
    var line := Cut(json).0;
    assert forall i :: 0 <= i < |front| ==> json[i] != '\n';
    if '\n' in json {
      assert json == line + "\n" + Cut(json).1;
      assert json[|line|] == '\n';
    }
  }

  /** What a prefix without LF holds is found in the first line. */
  lemma FoundInFirstLine(json: string, front: string, wanted: string)
    requires front <= json && '\n' !in front && FoundIn(front, wanted)
    ensures FoundIn(Cut(json).0, wanted)
  {
    PrefixInFirstLine(json, front);
    var line := Cut(json).0;
    assert line == front + line[|front|..];
    LookupCut(front, line[|front|..], wanted);
  }

  /** The first line of a printed record holds its key, and its value too if there is no LF in it. */
  lemma RecordFirstLine(key: string, t: ConfigType, value: string, desc: string)
    requires Plain(key)
    ensures var line := Cut(ConfigJson(key, t, value, desc)).0;
            && StripCR(line) != "" && FoundIn(line, CONFIG_KEY_KEY)
            && ('\n' !in value ==> FoundIn(line, CONFIG_VALUE_KEY))
  {
    var json, k := ConfigJson(key, t, value, desc), UpToPair([], QuotedPair(CONFIG_KEY_KEY, key));
    RecordPrefixes(key, t, value, desc);
    KeyFoundIn(key);
    FoundInFirstLine(json, k, CONFIG_KEY_KEY);
    PrefixInFirstLine(json, k);
    StartsVisible(Cut(json).0);
    if '\n' !in value {
      ValueFoundIn(key, t, value);
      FoundInFirstLine(json, Head(key, t) + value + "'", CONFIG_VALUE_KEY);
    }
  }

  lemma RecordPrefixes(key: string, t: ConfigType, value: string, desc: string)
    requires '\n' !in key
    ensures var json, k := ConfigJson(key, t, value, desc), UpToPair([], QuotedPair(CONFIG_KEY_KEY, key));
            && k != "" && k[0] == '{' && k <= json && '\n' !in k
            && Head(key, t) + value + "'" <= json && '\n' !in Head(key, t)
  {
    RecordShape(key, t, value, desc);
    var p := QuotedPair(CONFIG_KEY_KEY, key).Print();
    assert PrintBody([]) == "" && UpToPair([], QuotedPair(CONFIG_KEY_KEY, key)) == "{" + p;
    assert "{" + p <= Head(key, t);
    assert DESC_HEAD[0] == '\'' && "'" <= DESC_HEAD;
    PrefixOf(Head(key, t), value, DESC_HEAD, desc + "'}");
  }

  lemma PrefixOf(head: string, value: string, middle: string, rest: string)
    requires "'" <= middle
    ensures head <= head + value + middle + rest && head + value + "'" <= head + value + middle + rest
  {
  }

  lemma KeyFoundIn(key: string)
    ensures FoundIn(UpToPair([], QuotedPair(CONFIG_KEY_KEY, key)), CONFIG_KEY_KEY)
  {
    var p := QuotedPair(CONFIG_KEY_KEY, key);
    assert UpToPair([], p) == Field([], p.key, '\'', key, "");
    BlankedPlain(CONFIG_KEY_KEY);
    LookupField([], p.key, '\'', key, "", CONFIG_KEY_KEY);
  }

  lemma ValueFoundIn(key: string, t: ConfigType, value: string)
    requires '\'' !in key
    ensures FoundIn(Head(key, t) + value + "'", CONFIG_VALUE_KEY)
  {
    var ps := ConfigPairs(key, t, value, "");
    FrontValid(ps, t);
    NotInFront(ps);
    BlankedPlain(CONFIG_VALUE_KEY);
    assert PrintBody(ps[..2]) == ps[0].Print() + ", " + (ps[1].Print() + ", ") by {
      assert ps[..2][1..] == [ps[1]] && [ps[1]][1..] == [];
      assert PrintBody([ps[1]]) == ps[1].Print() + ", ";
    }
    HeadRegroup(ps[0].Print(), ps[1].Print(), ps[2].key.Print(), value);
    assert Head(key, t) + value + "'" == Field(ps[..2], ps[2].key, '\'', value, "");
    LookupField(ps[..2], ps[2].key, '\'', value, "", CONFIG_VALUE_KEY);
  }

  lemma HeadRegroup(a: string, b: string, k: string, v: string)
    ensures "{" + a + ", " + b + ", " + (k + " : '") + v + "'"
         == "{" + (a + ", " + (b + ", ")) + k + " : " + ['\''] + v + ['\''] + ""
  {
  }

  // ---- Runs of pushes and registrations ----

  /** A text saved under another key, without a line of this one. */
  predicate Untouched(json: string, key: string) {
    KeyOf(json) != key && Find(Lines(json + "\n"), key).None?
  }

  /** No other record is pushed for `key`, on whatever line, and the application registers plain keys, other ones than
      `key` with texts without LF. */
  predicate Leaves(es: seq<Event>, key: string) {
    es != [] ==> Leaves(es[1..], key) && match es[0]
                 case Push(json) => Untouched(json, key)
                 case Register(k, _, value, desc) => Plain(k) && (k == key || ('\n' !in value && '\n' !in desc))
  }

  predicate Registers(es: seq<Event>, key: string) {
    es != [] && (Registers(es[1..], key) || (es[0].Register? && es[0].key == key))
  }

  /** A record made of loaded texts, or of defaults without LF, is one line. */
  lemma InUseIsOneLine(text: string, key: string, t: ConfigType, value: string, desc: string)
    requires Plain(key) && (Got(Lines(text), key).Some? || ('\n' !in value && '\n' !in desc))
    ensures var json := RecordInUse(text, key, t, value, desc);
            && Lines(json + "\n") == [json] && KeyOf(json) == key
            && forall k :: Find([json], k) == Got([json], k) == if k == key then Some(json) else None
  {
    var v, d := LoadedValue(text, key, value), LoadedDesc(text, key, desc);
    var stored := Got(Lines(text), key);
    if stored.Some? {
      LookupHasNoLineEnds(stored.value, CONFIG_VALUE_KEY);
      LookupHasNoLineEnds(stored.value, CONFIG_DESCRIPTION_KEY);
    }
    var json := ConfigJson(key, t, v, d);
    RecordVisible(key, t, v, d);
    OneLine(json);
    RecordKey(key, t, v, d);
    ReadBackPlain(key);
    OneGot(json);
  }

  lemma OneGot(json: string)
    ensures forall key :: Find([json], key) == Got([json], key) == if KeyOf(json) == key then Some(json) else None
  {
    var one := [json];
    assert one[0] == json && one[1..] == [];
    forall key
      ensures Find(one, key) == if KeyOf(json) == key then Some(json) else None
      ensures KeyOf(json) == key ==> Overlaid("", one, key) == json
    {
      assert Find([], key) == None;
      assert Overlay("", json) == json && Overlaid(json, [], key) == json;
    }
  }

  /** What a registration of the key does to the value stored for it, and what events of other keys leave. */
  lemma ValueAfterOwn(text: string, key: string, t: ConfigType, value: string, desc: string)
    requires Plain(key) && Got(Lines(text), key).Some?
    ensures var now := Registered(text, key, t, value, desc);
            Got(Lines(now), key).Some? && LoadedValue(now, key, "") == ReadBack(LoadedValue(text, key, ""))
  {
    var json := RecordInUse(text, key, t, value, desc);
    InUseIsOneLine(text, key, t, value, desc);
    GotSaved(text, key, json, key);
    RecordValue(key, t, LoadedValue(text, key, value), LoadedDesc(text, key, desc));
  }

  lemma ValueAfterOther(text: string, json: string, key: string, default: string)
    requires Untouched(json, key)
    ensures Got(Lines(Processed(text, json)), key) == Got(Lines(text), key)
    ensures LoadedValue(Processed(text, json), key, default) == LoadedValue(text, key, default)
  {
    GotSaved(text, KeyOf(json), json, key);
  }

  lemma ValueAfterEvent(text: string, e: Event, key: string)
    requires Leaves([e], key) && Got(Lines(text), key).Some?
    ensures var w, now := LoadedValue(text, key, ""), Processed(text, Written(text, e));
            && Got(Lines(now), key).Some?
            && LoadedValue(now, key, "") == if Registers([e], key) then ReadBack(w) else w
  {
    assert [e][1..] == [];
    match e
    case Push(json) => ValueAfterOther(text, json, key, "");
    case Register(k, t, value, desc) =>
      if k == key {
        ValueAfterOwn(text, key, t, value, desc);
      } else {
        InUseIsOneLine(text, k, t, value, desc);
        ValueAfterOther(text, RecordInUse(text, k, t, value, desc), key, "");
      }
  }

  lemma {:induction false} ValueAfterRun(text: string, es: seq<Event>, key: string)
    requires Leaves(es, key) && Got(Lines(text), key).Some? && Run(text, es).Some?
    ensures var w, now := LoadedValue(text, key, ""), Run(text, es).value;
            && Got(Lines(now), key).Some?
            && LoadedValue(now, key, "") == if Registers(es, key) then ReadBack(w) else w
    decreases |es|
  {
    if es != [] {
      assert [es[0]][1..] == [];
      ValueAfterEvent(text, es[0], key);
      ValueAfterRun(Apply(text, es[0]).value, es[1..], key);
      ReadBackPlain(LoadedValue(text, key, ""));
    }
  }

  /** A pushed record that survives wins over every default, whatever is registered and pushed for other keys after it:
      registering the key loads the pushed value. A quote in it is the one exception: it cuts the value from the second
      registration on. */
  lemma PushedConfigWins(text: string, json: string, es: seq<Event>, default: string)
    requires Survives(json) && Leaves(es, KeyOf(json)) && Run(text, [Push(json)] + es).Some?
    ensures var key, value := KeyOf(json), Lookup(json, CONFIG_VALUE_KEY);
            var loaded := LoadedValue(Run(text, [Push(json)] + es).value, key, default);
            && loaded == (if Registers(es, key) then ReadBack(value) else value)
            && (loaded == value <==> '\'' !in value || !Registers(es, key))
  {
    var key, value := KeyOf(json), Lookup(json, CONFIG_VALUE_KEY);
    assert ([Push(json)] + es)[1..] == es;
    LookupHasNoLineEnds(json, CONFIG_VALUE_KEY);
    GotSaved(text, key, json, key);
    ValueAfterRun(Processed(text, json), es, key);
    ReadBackPlain(value);
  }

  /** An integer pushed in decimal is the integer the application gets if and only if it fits an `int`, for every description
      unless one of its later lines carries the key. */
  lemma PushedIntIsLoaded(text: string, key: string, n: int, desc: string, es: seq<Event>, default: string)
    requires var json := ConfigJson(key, CONFIG_INT, Decimal(n), desc);
             && Plain(key) && Find(LaterLines(json), key).None?
             && Leaves(es, key) && Run(text, [Push(json)] + es).Some?
    ensures var json := ConfigJson(key, CONFIG_INT, Decimal(n), desc);
            AtoiOf(LoadedValue(Run(text, [Push(json)] + es).value, key, default)) == Some(n) <==> -INT_LIMIT < n < INT_LIMIT
  {
    var json := ConfigJson(key, CONFIG_INT, Decimal(n), desc);
    DecimalPlain(n);
    RecordKey(key, CONFIG_INT, Decimal(n), desc);
    RecordValue(key, CONFIG_INT, Decimal(n), desc);
    ReadBackPlain(key);
    ReadBackPlain(Decimal(n));
    RecordFirstLine(key, CONFIG_INT, Decimal(n), desc);
    SurvivesByFirstLine(json);
    PushedConfigWins(text, json, es, default);
    AtoiOfDecimal(n);
  }

  lemma DecimalPlain(n: int)
    ensures Plain(Decimal(n))
  {
    NumberOfDigits(if n < 0 then -n else n);
  }

  // ---- Registering a second time ----

  lemma {:induction false} WithoutConcat(a: seq<string>, b: seq<string>, key: string)
    ensures Without(a + b, key) == Without(a, key) + Without(b, key)
  {
    if a == [] {
      assert a + b == b;
    } else {
      assert (a + b)[1..] == a[1..] + b;
      WithoutConcat(a[1..], b, key);
    }
  }

  lemma {:induction false} WithoutTwice(lines: seq<string>, key: string)
    ensures Without(Without(lines, key), key) == Without(lines, key)
    ensures forall l :: l in Without(lines, key) ==> KeyOf(l) != key
  {
    if lines != [] {
      WithoutTwice(lines[1..], key);
      if KeyOf(lines[0]) == key {
        assert Without(lines, key) == Without(lines[1..], key);
      } else {
        assert Without(lines, key)[1..] == Without(lines[1..], key);
      }
    }
  }

  /** Two records saved under one key, one after the other. */
  lemma ProcessedTwice(text: string, key: string, json: string, again: string)
    requires KeyOf(json) == key && KeyOf(again) == key
    ensures Processed(Processed(text, json), again)
         == Join(Without(Lines(text), key)) + (Join(Without(Lines(json + "\n"), key)) + (again + "\n"))
  {
    var others, left := Without(Lines(text), key), Without(Lines(json + "\n"), key);
    LinesSaved(text, key, json);
    WithoutConcat(others, Lines(json + "\n"), key);
    WithoutTwice(Lines(text), key);
    JoinConcat(others, left);
    Associate(Join(others), Join(left), again + "\n");
  }

  lemma Associate(a: string, b: string, c: string)
    ensures a + b + c == a + (b + c)
  {
  }

  /** A record is what is read back from it if and only if value and description are plain. */
  lemma RecordReadBack(key: string, t: ConfigType, v: string, d: string)
    requires Plain(key)
    ensures var json := ConfigJson(key, t, v, d);
            json == ConfigJson(key, t, Lookup(json, CONFIG_VALUE_KEY), Lookup(json, CONFIG_DESCRIPTION_KEY))
            <==> Plain(v) && Plain(d)
  {
    var json := ConfigJson(key, t, v, d);
    var v2, d2 := Lookup(json, CONFIG_VALUE_KEY), Lookup(json, CONFIG_DESCRIPTION_KEY);
    RecordValue(key, t, v, d);
    ReadBackPlain(v);
    ReadBackPlain(d);
    if '\'' !in v {
      RecordDesc(key, t, v, d);
      UpToAbsent(v, '\'');
    }
    if '\'' !in d {
      UpToAbsent(d, '\'');
    }
    if json == ConfigJson(key, t, v2, d2) {
      RecordDesc(key, t, v2, d2);
      ReadBackPlain(d2);
      RecordsAgree(key, t, v, d, v2, d2);
    }
  }

  lemma SameTail(a: string, b: string, c: string)
    ensures a + b == a + c <==> b == c
  {
    assert (a + b)[|a|..] == b && (a + c)[|a|..] == c;
  }

  /** A record with an LF is not what stands in the file after another record of its key was saved. */
  lemma BrokenRecordGone(key: string, json: string, again: string)
    requires '\n' in json && '\n' !in again && StripCR(Cut(json).0) != "" && KeyOf(StripCR(Cut(json).0)) == key
    ensures json + "\n" != Join(Without(Lines(json + "\n"), key)) + (again + "\n")
  {
    var (line, rest) := Cut(json);
    CutParts(json);
    assert json + "\n" == line + "\n" + (rest + "\n");
    CutLine(line, rest + "\n");
    var left := Without(Lines(json + "\n"), key);
    WithoutTwice(Lines(json + "\n"), key);
    LinesVisible(json + "\n");
    WithoutVisible(Lines(json + "\n"), key);
    if left == [] {
      CutLine(again, "");
      assert Join(left) + (again + "\n") == again + "\n" + "";
    } else {
      var more := Join(left[1..]) + (again + "\n");
      assert Join(left) + (again + "\n") == left[0] + "\n" + more;
      assert Visible(left[0]) && KeyOf(left[0]) != key;
      CutLine(left[0], more);
      StripVisible(left[0]);
    }
  }

  /** Registering again leaves the file as it is if and only if both texts in use are plain. */
  lemma RegisteringAgainChangesNothing(text: string, key: string, t: ConfigType, value: string, desc: string)
    requires Plain(key)
    ensures var once := Registered(text, key, t, value, desc);
            Registered(once, key, t, value, desc) == once
            <==> Plain(LoadedValue(text, key, value)) && Plain(LoadedDesc(text, key, desc))
  {
    var v, d := LoadedValue(text, key, value), LoadedDesc(text, key, desc);
    var json := ConfigJson(key, t, v, d);
    var once := Processed(text, json);
    var again := RecordInUse(once, key, t, value, desc);
    RecordKey(key, t, v, d);
    RecordKey(key, t, LoadedValue(once, key, value), LoadedDesc(once, key, desc));
    ReadBackPlain(key);
    ProcessedTwice(text, key, json, again);
    var left := Without(Lines(json + "\n"), key);
    SameTail(Join(Without(Lines(text), key)), json + "\n", Join(left) + (again + "\n"));
    RecordVisible(key, t, v, d);
    if '\n' in v || '\n' in d {
      BrokenAgain(text, key, t, value, desc);
    } else {
      PlainAgain(text, key, json);
      assert Join(left) + (again + "\n") == again + "\n";
      assert json + "\n" == again + "\n" <==> json == again by {
        assert (json + "\n")[..|json|] == json && (again + "\n")[..|again|] == again;
      }
      RecordReadBack(key, t, v, d);
    }
  }

  lemma PlainAgain(text: string, key: string, json: string)
    requires Visible(json) && KeyOf(json) == key
    ensures Without(Lines(json + "\n"), key) == [] && Got(Lines(Processed(text, json)), key) == Some(json)
  {
    OneLine(json);
    OneGot(json);
    GotSaved(text, key, json, key);
    assert [json][1..] == [];
  }

  lemma BrokenAgain(text: string, key: string, t: ConfigType, value: string, desc: string)
    requires Plain(key)
    requires var v, d := LoadedValue(text, key, value), LoadedDesc(text, key, desc); '\n' in v || '\n' in d
    ensures var json := RecordInUse(text, key, t, value, desc);
            var again := RecordInUse(Processed(text, json), key, t, value, desc);
            json + "\n" != Join(Without(Lines(json + "\n"), key)) + (again + "\n")
  {
    var v, d := LoadedValue(text, key, value), LoadedDesc(text, key, desc);
    var json := ConfigJson(key, t, v, d);
    var once := Processed(text, json);
    var first := StripCR(Cut(json).0);
    RecordFirstLine(key, t, v, d);
    LookupFirstLine(json, CONFIG_KEY_KEY);
    RecordKey(key, t, v, d);
    ReadBackPlain(key);
    assert '\n' in json by {
      RecordShape(key, t, v, d);
    }
    GotSaved(text, key, json, key);
    LinesOfRecord(json);
    assert ([first] + LaterLines(json))[1..] == LaterLines(json);
    assert Got(Lines(once), key).Some?;
    InUseIsOneLine(once, key, t, value, desc);
    var again := RecordInUse(once, key, t, value, desc);
    LinesVisible(again + "\n");
    assert Visible(again);
    BrokenRecordGone(key, json, again);
  }

  /** So registering again loads the value of the time before exactly when it is plain, unless the record in use has a later
      line that carries the key. */
  lemma RegisteringAgainLoadsTheSame(text: string, key: string, t: ConfigType, value: string, desc: string)
    requires Plain(key) && Find(LaterLines(RecordInUse(text, key, t, value, desc)), key).None?
    ensures var once := Registered(text, key, t, value, desc);
            LoadedValue(once, key, value) == LoadedValue(text, key, value) <==> Plain(LoadedValue(text, key, value))
  {
    var v, d := LoadedValue(text, key, value), LoadedDesc(text, key, desc);
    var json := ConfigJson(key, t, v, d);
    RecordKey(key, t, v, d);
    RecordValue(key, t, v, d);
    ReadBackPlain(key);
    ReadBackPlain(v);
    RecordFirstLine(key, t, v, d);
    KeptFirstLine(json);
    LookupFirstLine(json, CONFIG_KEY_KEY);
    LookupFirstLine(json, CONFIG_VALUE_KEY);
    LoadedAfterPush(text, json, CONFIG_VALUE_KEY, value);
    LookupHasNoLineEnds(Kept(json).value, CONFIG_VALUE_KEY);
  }

  // ---- The format of a record ----

  function PairFormat(letter: char): string {
    "'" + ("%s" + ("' : '" + ("%" + [letter] + "'")))
  }

  /** {'%s' : '%s', '%s' : '%d', '%s' : '%s', '%s' : '%s'} */
  const CONFIG_FORMAT: string :=
    "{" + (PairFormat('s') + (", " + (PairFormat('d') + (", " + (PairFormat('s') + (", " + (PairFormat('s') + "}")))))))

  predicate Prints(f: string, args: seq<Sprintf.Arg>, text: string) {
    Sprintf.Format(f, args) == Sprintf.Done(text)
  }

  lemma LiteralPrinted(text: string, f: string, args: seq<Sprintf.Arg>, more: string)
    requires '%' !in text && Prints(f, args, more)
    ensures Prints(text + f, args, text + more)
  {
    Sprintf.PieceFormatted(Sprintf.Literal(text), f, args);
    assert [] + args == args;
  }

  lemma StringPrinted(s: string, f: string, args: seq<Sprintf.Arg>, more: string)
    requires Prints(f, args, more)
    ensures Prints("%s" + f, [Sprintf.Str(s)] + args, s + more)
  {
    Sprintf.PieceFormatted(Sprintf.Text(0, s), f, args);
    assert Sprintf.Text(0, s).Source() == "%s" && s + "" == s;
  }

  lemma IntPrinted(n: nat, f: string, args: seq<Sprintf.Arg>, more: string)
    requires n < 2 && Prints(f, args, more)
    ensures Prints("%d" + f, [Sprintf.Word(n)] + args, Decimal(n) + more)
  {
    Sprintf.PieceFormatted(Sprintf.Int(false, 0, n), f, args);
    Sprintf.PlainInt(n);
    assert Sprintf.Int(false, 0, n).Source() == "%d";
  }

  predicate Shows(letter: char, arg: Sprintf.Arg, value: string) {
    (letter == 's' && arg == Sprintf.Str(value)) || (letter == 'd' && arg.Word? && arg.n < 2 && value == Decimal(arg.n))
  }

  lemma ValuePrinted(letter: char, arg: Sprintf.Arg, value: string, f: string, args: seq<Sprintf.Arg>, more: string)
    requires Prints(f, args, more) && Shows(letter, arg, value)
    ensures Prints("%" + [letter] + f, [arg] + args, value + more)
  {
    if letter == 's' {
      StringPrinted(value, f, args, more);
      assert "%" + [letter] == "%s";
    } else {
      IntPrinted(arg.n, f, args, more);
      assert "%" + [letter] == "%d";
    }
  }

  lemma NamePrinted(name: string, f: string, args: seq<Sprintf.Arg>, more: string)
    requires Prints(f, args, more)
    ensures Prints("'" + ("%s" + ("' : '" + f)), [Sprintf.Str(name)] + args, "'" + (name + ("' : '" + more)))
  {
    LiteralPrinted("' : '", f, args, more);
    StringPrinted(name, "' : '" + f, args, "' : '" + more);
    LiteralPrinted("'", "%s" + ("' : '" + f), [Sprintf.Str(name)] + args, name + ("' : '" + more));
  }

  /** One pair of the format, with its name and its value as arguments. */
  lemma PairPrinted(name: string, letter: char, arg: Sprintf.Arg, value: string, f: string, args: seq<Sprintf.Arg>, more: string)
    requires Prints(f, args, more) && Shows(letter, arg, value)
    ensures Prints(PairFormat(letter) + f, [Sprintf.Str(name), arg] + args, QuotedPair(name, value).Print() + more)
  {
    LiteralPrinted("'", f, args, more);
    ValuePrinted(letter, arg, value, "'" + f, args, "'" + more);
    NamePrinted(name, "%" + [letter] + ("'" + f), [arg] + args, value + ("'" + more));
    PairCut(letter, f, name, value, more);
    TwoArgs(Sprintf.Str(name), arg, args);
  }

  lemma TwoArgs(a: Sprintf.Arg, b: Sprintf.Arg, args: seq<Sprintf.Arg>)
    ensures [a, b] + args == [a] + ([b] + args)
  {
  }

  lemma PairCut(letter: char, f: string, name: string, value: string, more: string)
    ensures PairFormat(letter) + f == "'" + ("%s" + ("' : '" + ("%" + [letter] + ("'" + f))))
    ensures QuotedPair(name, value).Print() + more == "'" + (name + ("' : '" + (value + ("'" + more))))
  {
  }

  function RecordArgs(key: string, t: ConfigType, value: string, desc: string): seq<Sprintf.Arg> {
    [Sprintf.Str(CONFIG_KEY_KEY), Sprintf.Str(key), Sprintf.Str(CONFIG_TYPE_KEY), Sprintf.Word(TypeNumber(t)),
     Sprintf.Str(CONFIG_VALUE_KEY), Sprintf.Str(value), Sprintf.Str(CONFIG_DESCRIPTION_KEY), Sprintf.Str(desc)]
  }

  /** sg_varargs, with the format of generate_config_json, prints the dictionary of the four pairs. It is the sprintf of
      the devices that have no other; linux_desktop maps sg_sprintf to the C library's. */
  lemma RecordPrinted(key: string, t: ConfigType, value: string, desc: string)
    ensures Prints(CONFIG_FORMAT, RecordArgs(key, t, value, desc), ConfigJson(key, t, value, desc))
  {
    var ps := ConfigPairs(key, t, value, desc);
    var args := RecordArgs(key, t, value, desc);
    ArgsCut(args);
    assert "}" + "" == "}";
    LiteralPrinted("}", "", [], "");
    PairPrinted(CONFIG_DESCRIPTION_KEY, 's', args[7], desc, "}", [], "}");
    var f4, m4 := PairFormat('s') + "}", ps[3].Print() + "}";
    LiteralPrinted(", ", f4, args[6..], m4);
    PairPrinted(CONFIG_VALUE_KEY, 's', args[5], value, ", " + f4, args[6..], ", " + m4);
    var f3, m3 := PairFormat('s') + (", " + f4), ps[2].Print() + (", " + m4);
    LiteralPrinted(", ", f3, args[4..], m3);
    TypeDigit(t);
    PairPrinted(CONFIG_TYPE_KEY, 'd', args[3], TypeText(t), ", " + f3, args[4..], ", " + m3);
    var f2, m2 := PairFormat('d') + (", " + f3), ps[1].Print() + (", " + m3);
    LiteralPrinted(", ", f2, args[2..], m2);
    PairPrinted(CONFIG_KEY_KEY, 's', args[1], key, ", " + f2, args[2..], ", " + m2);
    LiteralPrinted("{", PairFormat('s') + (", " + f2), args, ps[0].Print() + (", " + m2));
    PrintWhole(ps);
  }

  lemma TypeDigit(t: ConfigType)
    ensures Decimal(TypeNumber(t)) == TypeText(t)
  {
  }

  lemma ArgsCut(args: seq<Sprintf.Arg>)
    requires |args| == 8
    ensures args[6..] == [args[6], args[7]] + [] && args[4..] == [args[4], args[5]] + args[6..]
    ensures args[2..] == [args[2], args[3]] + args[4..] && args == [args[0], args[1]] + args[2..]
  {
  }

  lemma PrintWhole(ps: seq<Pair>)
    requires |ps| == 4
    ensures Print(ps) == "{" + (ps[0].Print() + (", " + (ps[1].Print() + (", " + (ps[2].Print() + (", " + (ps[3].Print() + "}")))))))
  {
    var front := ps[..3];
    assert ps[..|ps| - 1] == front && front[1..] == ps[1..3] && ps[1..3][1..] == [ps[2]];
    assert PrintBody([ps[2]]) == ps[2].Print() + ", " + PrintBody([]);
    assert PrintBody(ps[1..3]) == ps[1].Print() + ", " + PrintBody([ps[2]]);
    assert PrintBody(front) == ps[0].Print() + ", " + PrintBody(ps[1..3]);
    FourParts(ps[0].Print(), ps[1].Print(), ps[2].Print(), ps[3].Print());
  }

  lemma FourParts(a: string, b: string, c: string, d: string)
    ensures "{" + (a + ", " + (b + ", " + (c + ", " + ""))) + d + "}" == "{" + (a + (", " + (b + (", " + (c + (", " + (d + "}")))))))
  {
  }

  /** generate_config_json */
  method GenerateConfigJson(key: string, t: ConfigType, value: string, desc: string) returns (messageBuffer: string)
    ensures messageBuffer == ConfigJson(key, t, value, desc)
  {
    RecordPrinted(key, t, value, desc);
    var out := Sprintf.SgVarargs(CONFIG_FORMAT, RecordArgs(key, t, value, desc));
    messageBuffer := out.text;
  }

  /** A record spelt out: the keys and the type as numbers are part of what the server understands. */
  lemma RecordSpelt(key: string, value: string, desc: string)
    ensures ConfigJson(key, CONFIG_STRING, value, desc)
         == "{'key' : '" + key + "', 'type' : '" + "0" + "', 'val' : '" + value + "', 'desc' : '" + desc + "'}"
    ensures ConfigJson(key, CONFIG_INT, value, desc)
         == "{'key' : '" + key + "', 'type' : '" + "1" + "', 'val' : '" + value + "', 'desc' : '" + desc + "'}"
  {
    RecordShape(key, CONFIG_STRING, value, desc);
    RecordShape(key, CONFIG_INT, value, desc);
    HeadSpelt(key);
    DescSpelt();
    SpeltRegroup(key, "0", value, desc);
    SpeltRegroup(key, "1", value, desc);
  }

  /** What a registration stores and publishes: type and key of the call, and value and description of the stored record if
      there is one, else those of the call. */
  lemma RegisteredSpelt(text: string, key: string, t: ConfigType, value: string, desc: string)
    ensures var stored := Got(Lines(text), key);
            var v := if stored.Some? then Lookup(stored.value, "val") else value;
            var d := if stored.Some? then Lookup(stored.value, "desc") else desc;
            Written(text, Register(key, t, value, desc))
            == "{'key' : '" + key + "', 'type' : '" + (if t == CONFIG_STRING then "0" else "1") + "', 'val' : '" + v + "', 'desc' : '" + d + "'}"
  {
    RecordSpelt(key, LoadedValue(text, key, value), LoadedDesc(text, key, desc));
  }

  lemma DescSpelt()
    ensures DESC_HEAD == "', 'desc' : '"
  {
    assert ['\''] + "desc" + ['\''] == "'desc'";
  }

  lemma HeadSpelt(key: string)
    ensures Head(key, CONFIG_STRING) == "{'key' : '" + key + ("', 'type' : '" + "0" + "', 'val' : '")
    ensures Head(key, CONFIG_INT) == "{'key' : '" + key + ("', 'type' : '" + "1" + "', 'val' : '")
  {
    assert ['\''] + "key" + ['\''] == "'key'" && ['\''] + "type" + ['\''] == "'type'" && ['\''] + "val" + ['\''] == "'val'";
    assert ['\''] + "0" + ['\''] == "'0'" && ['\''] + "1" + ['\''] == "'1'";
    assert VALUE_HEAD == "'val' : '";
    HeadParts(key, "0");
    HeadParts(key, "1");
  }

  lemma HeadParts(key: string, digit: string)
    requires digit == "0" || digit == "1"
    ensures "{" + ("'key'" + " : " + (['\''] + key + ['\''])) + ", " + ("'type'" + " : " + (['\''] + digit + ['\''])) + ", " + "'val' : '"
         == "{'key' : '" + key + ("', 'type' : '" + digit + "', 'val' : '")
  {
    assert "{" + "'key'" + " : " + ['\''] == "{'key' : '";
    assert ['\''] + ", " + "'type'" + " : " + ['\''] == "', 'type' : '";
    assert ['\''] + ", " + "'val' : '" == "', 'val' : '";
    HeadPieces("{", "'key'", " : ", key, ", ", "'type'", digit, "'val' : '");
  }

  lemma HeadPieces(a: string, b: string, c: string, key: string, d: string, e: string, digit: string, f: string)
    ensures a + (b + c + (['\''] + key + ['\''])) + d + (e + c + (['\''] + digit + ['\''])) + d + f
         == (a + b + c + ['\'']) + key + ((['\''] + d + e + c + ['\'']) + digit + (['\''] + d + f))
  {
  }

  lemma SpeltRegroup(key: string, digit: string, value: string, desc: string)
    ensures "{'key' : '" + key + ("', 'type' : '" + digit + "', 'val' : '") + value + "', 'desc' : '" + desc + "'}"
         == "{'key' : '" + key + "', 'type' : '" + digit + "', 'val' : '" + value + "', 'desc' : '" + desc + "'}"
  {
  }

  // ---- config.c ----

  /** The configured variable: a text, or a number, which is None when reading it overflows an `int`. */
  datatype Setting = Text(s: string) | Number(n: Option<int>)

  /** What a variable receives after a record that survives was pushed for its key, whatever happened to other keys: a text
      variable the pushed text, up to a quote in it once the key was registered; a number variable the pushed number. */
  lemma PushedSetting(text: string, json: string, es: seq<Event>, t: ConfigType, default: string, setting: Setting)
    requires Survives(json) && Leaves(es, KeyOf(json)) && Run(text, [Push(json)] + es).Some?
    requires var loaded := LoadedValue(Run(text, [Push(json)] + es).value, KeyOf(json), default);
             setting == match t case CONFIG_STRING => Text(loaded) case CONFIG_INT => Number(AtoiOf(loaded))
    ensures var value := Lookup(json, CONFIG_VALUE_KEY);
            && (t == CONFIG_STRING ==> (setting == Text(value) <==> '\'' !in value || !Registers(es, KeyOf(json))))
            && (t == CONFIG_INT ==>
                  forall n :: value == Decimal(n) ==> (setting == Number(Some(n)) <==> -0x8000_0000 < n < 0x8000_0000))
  {
    var value := Lookup(json, CONFIG_VALUE_KEY);
    PushedConfigWins(text, json, es, default);
    forall n | value == Decimal(n)
      ensures AtoiOf(value) == Some(n) <==> -0x8000_0000 < n < 0x8000_0000
      ensures ReadBack(value) == value
    {
      DecimalPlain(n);
      ReadBackPlain(value);
      AtoiOfDecimal(n);
    }
  }

  lemma DefaultInt(value: string)
    ensures forall n :: value == Decimal(n) ==> (AtoiOf(value) == Some(n) <==> -0x8000_0000 < n < 0x8000_0000)
  {
    forall n | value == Decimal(n)
      ensures AtoiOf(value) == Some(n) <==> -0x8000_0000 < n < 0x8000_0000
    {
      AtoiOfDecimal(n);
    }
  }

  /** Stores the record under its own key, and publishes the same text to the server. */
  method ProcessConfig(store: ConfigFile, configJson: string) returns (published: string)
    requires store.Valid() && |configJson| < MAX_BUFFER_SIZE
    modifies store.disk
    ensures store.Valid() && store.Text() == Processed(old(store.Text()), configJson)
    ensures store.disk.files == old(store.disk.files)[CONFIG_FILE := store.Text()]
    ensures published == configJson && Got(Lines(store.Text()), KeyOf(published)) == Kept(published)
  {
    ShortTextFits(configJson, MAX_BUFFER_SIZE);
    var configKey := GetJsonKeyValueIfPresent(configJson, CONFIG_KEY_KEY, "");
    assert configKey == KeyOf(configJson);
    GotSaved(store.Text(), configKey, configJson, configKey);
    var _ := store.Save(configKey, configJson);
    published := configJson;
  }

  /** registerEditableConfig: what the variable receives, and the record that is stored and published. None is a record
      that is too long for messageBuffer. With nothing stored a text variable receives the default, and a number variable
      the number that the default is in decimal. */
  method RegisterEditableConfig(store: ConfigFile, key: string, t: ConfigType, stringifiedValue: string, desc: string)
    returns (r: Option<(Setting, string)>)
    requires store.Valid()
    modifies store.disk
    ensures var e := Register(key, t, stringifiedValue, desc);
            && (r.Some? <==> Apply(old(store.Text()), e).Some?)
            && (r.Some? ==>
              && store.Valid() && Some(store.Text()) == Apply(old(store.Text()), e)
              && r.value.1 == Written(old(store.Text()), e))
    ensures r.Some? ==>
              var loaded := LoadedValue(old(store.Text()), key, stringifiedValue);
              r.value.0 == match t case CONFIG_STRING => Text(loaded) case CONFIG_INT => Number(AtoiOf(loaded))
    ensures r.Some? && Got(Lines(old(store.Text())), key).None? ==>
              && (t == CONFIG_STRING ==> r.value.0 == Text(stringifiedValue))
              && (t == CONFIG_INT ==>
                    forall n :: stringifiedValue == Decimal(n) ==>
                      (r.value.0 == Number(Some(n)) <==> -0x8000_0000 < n < 0x8000_0000))
  {
    var value, usedDesc := stringifiedValue, desc;
    ghost var text := store.Text();
    DefaultInt(stringifiedValue);
    var rc, stored := store.Get(key);
    if rc == SUCCESS {
      value := GetJsonKeyValueIfPresent(stored, CONFIG_VALUE_KEY, "");
      usedDesc := GetJsonKeyValueIfPresent(stored, CONFIG_DESCRIPTION_KEY, "");
    }
    assert value == LoadedValue(text, key, stringifiedValue) && usedDesc == LoadedDesc(text, key, desc);
    var setting;
    if t == CONFIG_STRING {
      setting := Text(value);
    } else {
      var n := Atoi(value);
      setting := Number(n);
    }
    var messageBuffer := GenerateConfigJson(key, t, value, usedDesc);
    if |messageBuffer| >= MAX_BUFFER_SIZE {
      return None;
    }
    var published := ProcessConfig(store, messageBuffer);
    r := Some((setting, published));
  }
}
