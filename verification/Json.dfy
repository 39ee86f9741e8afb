/**
 The restricted JSON reader of json.c: a character scan over one flat dictionary whose keys and
 values are quoted with ' or ".  Every lookup scans the text from the start.
 */
module Json {
  import opened Common

  /** The scanner's "no token open" mark, which is also the blank. */
  const NOT_FOUND: char := ' '

  /** The scan works on a copy in which CR and LF have become blanks. */
  function Blank(c: char): char {
    if c == '\r' || c == '\n' then NOT_FOUND else c
  }

  function Blanked(s: string): string {
    seq(|s|, i requires 0 <= i < |s| => Blank(s[i]))
  }

  datatype Scan =
    | Reading(wrapper: char, inValue: bool, key: string, value: string)
    | Found(result: string)

  const START: Scan := Reading(NOT_FOUND, false, "", "")

  predicate IsQuote(c: char) {
    c == '\'' || c == '"'
  }

  function Put(st: Scan, c: char): Scan
    requires st.Reading?
  {
    if st.inValue then st.(value := st.value + [c]) else st.(key := st.key + [c])
  }

  /** The open token ends: a key is followed by its value, a value completes a pair. */
  function Close(st: Scan, wanted: string): Scan
    requires st.Reading?
  {
    if !st.inValue && st.value == "" then Reading(NOT_FOUND, true, st.key, st.value)
    else if st.key == wanted then Found(st.value)
    else START
  }

  function Step(st: Scan, c: char, wanted: string): Scan
    requires st.Reading?
  {
    if st.wrapper != NOT_FOUND then
      if c == st.wrapper then Close(st, wanted) else Put(st, c)
    else if c in {NOT_FOUND, '{', ',', ':'} then st
    else if IsQuote(c) then st.(wrapper := c)
    else if c == '}' then Close(st, wanted)
    else Put(st.(wrapper := ','), c)
  }

  function Run(st: Scan, s: string, wanted: string): Scan
    decreases |s|
  {
    if st.Found? || s == "" then st else Run(Step(st, s[0], wanted), s[1..], wanted)
  }

  function Result(st: Scan): string {
    if st.Found? then st.result else ""
  }

  function Lookup(json: string, wanted: string): string {
    Result(Run(START, Blanked(json), wanted))
  }

  /** The scan of the text finds the wanted key, whatever may stand behind the text. */
  predicate FoundIn(json: string, wanted: string) {
    Run(START, Blanked(json), wanted).Found?
  }

  /** The scan as json.c runs it: blanks are written into the working copy, then one pass over it.
      The value found is appended to what `buf` already holds. */
  method GetJsonKeyValueIfPresent(jsonOriginal: string, key: string, buf: string) returns (out: string)
    ensures out == buf + Lookup(jsonOriginal, key)
  {
    var json := jsonOriginal;
    var i := 0;
    while i < |json|
      invariant 0 <= i <= |json| == |jsonOriginal|
      invariant forall k :: 0 <= k < |json| ==> json[k] == if k < i then Blank(jsonOriginal[k]) else jsonOriginal[k]
    {
      if json[i] == '\r' || json[i] == '\n' {
        json := json[i := NOT_FOUND];
      }
      i := i + 1;
    }
    assert json == Blanked(jsonOriginal);

    out := buf;
    var keyWrapper := NOT_FOUND;
    var parsedKeyToken, parsedValueToken := "", "";
    var tokenIsValue := false;
    ghost var copy := json;
    while json != ""
      invariant out == buf
      invariant Run(START, copy, key) == Run(Reading(keyWrapper, tokenIsValue, parsedKeyToken, parsedValueToken), json, key)
      decreases |json|
    {
      var c := json[0];
      if keyWrapper == NOT_FOUND && c == NOT_FOUND {
      } else if keyWrapper == NOT_FOUND && (c == '{' || c == ',') {
      } else if keyWrapper == NOT_FOUND && (c == '\'' || c == '"') {
        keyWrapper := c;
      } else if keyWrapper == NOT_FOUND && c == ':' {
      } else if keyWrapper == NOT_FOUND && c != '}' {
        keyWrapper := ',';
        if tokenIsValue {
          parsedValueToken := parsedValueToken + [c];
        } else {
          parsedKeyToken := parsedKeyToken + [c];
        }
      } else if keyWrapper == c || (keyWrapper == NOT_FOUND && c == '}') {
        keyWrapper := NOT_FOUND;
        if |parsedValueToken| == 0 && !tokenIsValue {
          tokenIsValue := true;
        } else {
          if parsedKeyToken == key {
            out := out + parsedValueToken;
            return;
          }
          parsedKeyToken, parsedValueToken := "", "";
          tokenIsValue := false;
        }
      } else {
        if tokenIsValue {
          parsedValueToken := parsedValueToken + [c];
        } else {
          parsedKeyToken := parsedKeyToken + [c];
        }
      }
      json := json[1..];
    }
  }

  // ---- Printed dictionaries ----

  datatype Token = Token(quote: char, text: string) {
    predicate Valid() {
      quote in {'\'', '"'} && quote !in text
    }

    function Print(): string {
      [quote] + text + [quote]
    }
  }

  datatype Pair = Pair(key: Token, value: Token) {
    predicate Valid() {
      key.Valid() && value.Valid()
    }

    function Print(): string {
      key.Print() + " : " + value.Print()
    }
  }

  predicate AllValid(ps: seq<Pair>) {
    forall p :: p in ps ==> p.Valid()
  }

  function PrintBody(ps: seq<Pair>): string {
    if ps == [] then "" else ps[0].Print() + ", " + PrintBody(ps[1..])
  }

  /** The shape the printers produce: {'k' : 'v', 'k' : 'v'} */
  function Print(ps: seq<Pair>): string {
    if ps == [] then "{}" else "{" + PrintBody(ps[..|ps| - 1]) + ps[|ps| - 1].Print() + "}"
  }

  /** Dictionary meaning of a list of pairs: the first pair with the wanted key decides. */
  function FirstValue(ps: seq<Pair>, wanted: string): Option<string> {
    if ps == [] then None
    else if Blanked(ps[0].key.text) == wanted then Some(Blanked(ps[0].value.text))
    else FirstValue(ps[1..], wanted)
  }

  /** The part of `s` before the first `q`. */
  function UpTo(s: string, q: char): string {
    if s == "" || s[0] == q then "" else [s[0]] + UpTo(s[1..], q)
  }

  lemma BlankedConcat(a: string, b: string)
    ensures Blanked(a + b) == Blanked(a) + Blanked(b)
  {
  }

  lemma {:induction false} UpToSplit(s: string, q: char)
    ensures |UpTo(s, q)| <= |s| && s[..|UpTo(s, q)|] == UpTo(s, q) && q !in UpTo(s, q)
    ensures q in s <==> |UpTo(s, q)| < |s|
    ensures q in s ==> s[|UpTo(s, q)|] == q
  {
    if s != "" && s[0] != q {
      UpToSplit(s[1..], q);
      assert s == [s[0]] + s[1..];
    }
  }

  function Extend(st: Scan, t: string): Scan
    requires st.Reading?
  {
    if st.inValue then st.(value := st.value + t) else st.(key := st.key + t)
  }

  /** An open token swallows everything up to its own quote, whatever that is. */
  lemma {:induction false} RunToken(st: Scan, t: string, q: char, rest: string, wanted: string)
    requires st.Reading? && st.wrapper == q && q != NOT_FOUND && q !in t
    ensures Run(st, t + [q] + rest, wanted) == Run(Close(Extend(st, t), wanted), rest, wanted)
    decreases |t|
  {
    var s := t + [q] + rest;
    if t == "" {
      assert s[1..] == rest && Extend(st, t) == st;
    } else {
      assert s[0] == t[0] && s[1..] == t[1..] + [q] + rest;
      RunToken(Put(st, t[0]), t[1..], q, rest, wanted);
      assert [t[0]] + t[1..] == t;
      assert st.value + [t[0]] + t[1..] == st.value + t;
      assert st.key + [t[0]] + t[1..] == st.key + t;
      assert Extend(Put(st, t[0]), t[1..]) == Extend(st, t);
    }
  }

  /** Reading a quoted key and the text after the opening quote of its value. */
  lemma RunPair(k: Token, q: char, v: string, rest: string, wanted: string)
    requires k.Valid() && IsQuote(q) && q !in v
    ensures Run(START, k.Print() + " : " + [q] + v + [q] + rest, wanted)
         == if k.text == wanted then Found(v) else Run(START, rest, wanted)
  {
    var afterKey := " : " + ([q] + (v + [q] + rest));
    PairCut(k, q, v, rest);
    RunToken(START.(wrapper := k.quote), k.text, k.quote, afterKey, wanted);
    assert "" + k.text == k.text;
    RunValue(k.text, q, v, rest, wanted);
  }

  lemma PairCut(k: Token, q: char, v: string, rest: string)
    ensures var s := k.Print() + " : " + [q] + v + [q] + rest;
            s[0] == k.quote && s[1..] == k.text + [k.quote] + (" : " + ([q] + (v + [q] + rest)))
  {
  }

  /** The value after its key. */
  lemma RunValue(key: string, q: char, v: string, rest: string, wanted: string)
    requires IsQuote(q) && q !in v
    ensures Run(Reading(NOT_FOUND, true, key, ""), " : " + ([q] + (v + [q] + rest)), wanted)
         == if key == wanted then Found(v) else Run(START, rest, wanted)
  {
    var inVal, tail := Reading(NOT_FOUND, true, key, ""), v + [q] + rest;
    RunSeparator(inVal, [q] + tail, wanted);
    assert ([q] + tail)[1..] == tail;
    assert Run(inVal, [q] + tail, wanted) == Run(inVal.(wrapper := q), tail, wanted);
    RunToken(inVal.(wrapper := q), v, q, rest, wanted);
    assert "" + v == v;
    assert Extend(inVal.(wrapper := q), v) == Reading(q, true, key, v);
  }

  lemma RunSeparator(st: Scan, rest: string, wanted: string)
    requires st.Reading? && st.wrapper == NOT_FOUND
    ensures Run(st, " : " + rest, wanted) == Run(st, rest, wanted)
  {
    var s := " : " + rest;
    assert s[1..] == ": " + rest && s[1..][1..] == " " + rest && s[1..][1..][1..] == rest;
    assert Run(st, s, wanted) == Run(st, s[1..], wanted) == Run(st, s[1..][1..], wanted);
  }

  lemma RunComma(rest: string, wanted: string)
    ensures Run(START, ", " + rest, wanted) == Run(START, rest, wanted)
  {
    var s := ", " + rest;
    assert s[1..] == " " + rest && s[1..][1..] == rest;
  }

  function BlankedPair(p: Pair): Pair {
    Pair(Token(p.key.quote, Blanked(p.key.text)), Token(p.value.quote, Blanked(p.value.text)))
  }

  lemma BlankedToken(t: Token)
    requires t.Valid()
    ensures Blanked(t.Print()) == Token(t.quote, Blanked(t.text)).Print()
    ensures Token(t.quote, Blanked(t.text)).Valid()
  {
  }

  lemma BlankedPrint(p: Pair)
    requires p.Valid()
    ensures Blanked(p.Print()) == BlankedPair(p).Print() && BlankedPair(p).Valid()
  {
    BlankedToken(p.key);
    BlankedToken(p.value);
    BlankedConcat(p.key.Print() + " : ", p.value.Print());
    BlankedConcat(p.key.Print(), " : ");
    assert Blanked(" : ") == " : ";
  }

  /** Pairs whose key is not the wanted one leave no trace in the scan. */
  lemma {:induction false} RunBody(ps: seq<Pair>, rest: string, wanted: string)
    requires AllValid(ps)
    ensures Run(START, Blanked(PrintBody(ps)) + rest, wanted)
         == match FirstValue(ps, wanted) case Some(v) => Found(v) case None => Run(START, rest, wanted)
  {
    if ps == [] {
      assert Blanked(PrintBody(ps)) + rest == rest;
    } else {
      var p, b := ps[0], BlankedPair(ps[0]);
      assert p in ps;
      BlankedPrint(p);
      var more := Blanked(PrintBody(ps[1..])) + rest;
      BlankedConcat(p.Print() + ", ", PrintBody(ps[1..]));
      BlankedConcat(p.Print(), ", ");
      assert Blanked(", ") == ", ";
      assert Blanked(PrintBody(ps)) + rest
          == b.key.Print() + " : " + [b.value.quote] + b.value.text + [b.value.quote] + (", " + more);
      RunPair(b.key, b.value.quote, b.value.text, ", " + more, wanted);
      RunComma(more, wanted);
      RunBody(ps[1..], rest, wanted);
    }
  }

  lemma RunBrace(rest: string, wanted: string)
    ensures Run(START, "{" + rest, wanted) == Run(START, rest, wanted)
  {
    assert ("{" + rest)[1..] == rest;
  }

  lemma {:induction false} FirstValueConcat(ps: seq<Pair>, p: Pair, wanted: string)
    ensures FirstValue(ps + [p], wanted)
         == if FirstValue(ps, wanted).Some? then FirstValue(ps, wanted) else FirstValue([p], wanted)
  {
    if ps != [] {
      assert (ps + [p])[1..] == ps[1..] + [p];
      FirstValueConcat(ps[1..], p, wanted);
    }
  }

  /** A dictionary whose last value is the text `raw`, followed by any text at all. */
  function Field(front: seq<Pair>, k: Token, q: char, raw: string, rest: string): string {
    "{" + PrintBody(front) + k.Print() + " : " + [q] + raw + [q] + rest
  }

  lemma RunFront(front: seq<Pair>, s: string, wanted: string)
    requires AllValid(front)
    ensures Run(START, Blanked("{" + PrintBody(front) + s), wanted)
         == match FirstValue(front, wanted) case Some(v) => Found(v) case None => Run(START, Blanked(s), wanted)
  {
    assert "{" + PrintBody(front) + s == "{" + (PrintBody(front) + s);
    BlankedConcat("{", PrintBody(front) + s);
    BlankedConcat(PrintBody(front), s);
    assert Blanked("{") == "{";
    RunBrace(Blanked(PrintBody(front)) + Blanked(s), wanted);
    RunBody(front, Blanked(s), wanted);
  }

  lemma BlankedField(k: Token, q: char, u: string, rest: string)
    requires k.Valid() && IsQuote(q)
    ensures Blanked(k.Print() + " : " + [q] + u + [q] + rest)
         == Token(k.quote, Blanked(k.text)).Print() + " : " + [q] + Blanked(u) + [q] + Blanked(rest)
  {
  }

  lemma RunRawPair(k: Token, q: char, raw: string, rest: string, wanted: string)
    requires k.Valid() && IsQuote(q)
    ensures var r := Run(START, Blanked(k.Print() + " : " + [q] + raw + [q] + rest), wanted);
            if Blanked(k.text) == wanted then r == Found(Blanked(UpTo(raw, q)))
            else q !in raw ==> r == Run(START, Blanked(rest), wanted)
  {
    var u := UpTo(raw, q);
    var after := RawCut(k.Print() + " : " + [q], q, raw, rest);
    BlankedToken(k);
    BlankedField(k, q, u, after);
    assert q !in Blanked(u);
    RunPair(Token(k.quote, Blanked(k.text)), q, Blanked(u), Blanked(after), wanted);
  }

  /** The text up to the first quote, and what follows that quote. */
  lemma RawCut(front: string, q: char, raw: string, rest: string) returns (after: string)
    ensures q !in UpTo(raw, q) && front + raw + [q] + rest == front + UpTo(raw, q) + [q] + after
    ensures q !in raw ==> after == rest
  {
    UpToSplit(raw, q);
    var u := UpTo(raw, q);
    var tail := raw[|u|..] + [q] + rest;
    assert tail[0] == q && raw == u + raw[|u|..];
    after := tail[1..];
    assert front + raw + [q] + rest == front + u + tail;
    assert tail == [q] + after;
  }

  /** The reader stops a value at the first quote inside it, whatever `raw` and `rest` are. */
  lemma LookupField(front: seq<Pair>, k: Token, q: char, raw: string, rest: string, wanted: string)
    requires AllValid(front) && k.Valid() && IsQuote(q)
    requires FirstValue(front, wanted).None? && Blanked(k.text) == wanted
    ensures Lookup(Field(front, k, q, raw, rest), wanted) == Blanked(UpTo(raw, q))
    ensures FoundIn(Field(front, k, q, raw, rest), wanted)
  {
    var s := k.Print() + " : " + [q] + raw + [q] + rest;
    assert Field(front, k, q, raw, rest) == "{" + PrintBody(front) + s;
    RunFront(front, s, wanted);
    RunRawPair(k, q, raw, rest, wanted);
  }

  /** Printing and looking up are inverse: the reader finds the first pair with the wanted key. */
  lemma LookupPrinted(ps: seq<Pair>, wanted: string)
    requires AllValid(ps)
    ensures Lookup(Print(ps), wanted) == FirstValue(ps, wanted).GetOr("")
  {
    if ps == [] {
      assert Blanked("{}") == "{" + "}";
      RunBrace("}", wanted);
    } else {
      var front, p := ps[..|ps| - 1], ps[|ps| - 1];
      assert p in ps && AllValid(front);
      PrintSplit(ps);
      RunFront(front, p.Print() + "}", wanted);
      RunLast(p, wanted);
      assert ps == front + [p];
      FirstValueConcat(front, p, wanted);
    }
  }

  lemma PrintSplit(ps: seq<Pair>)
    requires ps != []
    ensures Print(ps) == "{" + PrintBody(ps[..|ps| - 1]) + (ps[|ps| - 1].Print() + "}")
  {
  }

  lemma RunLast(p: Pair, wanted: string)
    requires p.Valid()
    ensures Result(Run(START, Blanked(p.Print() + "}"), wanted)) == FirstValue([p], wanted).GetOr("")
  {
    var q, raw := p.value.quote, p.value.text;
    assert p.Print() + "}" == p.key.Print() + " : " + [q] + raw + [q] + "}";
    RunRawPair(p.key, q, raw, "}", wanted);
    assert Blanked("}") == "}";
    assert Run(START, "}", wanted).Reading?;
    UpToAbsent(raw, q);
  }

  lemma UpToAbsent(s: string, q: char)
    requires q !in s
    ensures UpTo(s, q) == s
  {
    UpToSplit(s, q);
    assert s[..|s|] == s;
  }

  // ---- Where the scan finds ----

  lemma {:induction false} RunConcat(st: Scan, a: string, b: string, wanted: string)
    ensures Run(st, a + b, wanted) == Run(Run(st, a, wanted), b, wanted)
    decreases |a|
  {
    if a == "" {
      assert a + b == b;
    } else if st.Reading? {
      assert (a + b)[0] == a[0] && (a + b)[1..] == a[1..] + b;
      RunConcat(Step(st, a[0], wanted), a[1..], b, wanted);
    }
  }

  /** Cutting a text off loses exactly what is found behind the cut. */
  lemma LookupCut(a: string, b: string, wanted: string)
    ensures Lookup(a, wanted) == if FoundIn(a, wanted) then Lookup(a + b, wanted) else ""
    ensures FoundIn(a, wanted) ==> FoundIn(a + b, wanted)
  {
    BlankedConcat(a, b);
    RunConcat(START, Blanked(a), Blanked(b), wanted);
  }

  /** A line end behind a text is a blank that changes nothing. */
  lemma LookupBlank(a: string, c: char, wanted: string)
    requires c == '\r' || c == '\n'
    ensures Lookup(a + [c], wanted) == Lookup(a, wanted)
  {
    BlankedConcat(a, [c]);
    var st := Run(START, Blanked(a), wanted);
    RunConcat(START, Blanked(a), Blanked([c]), wanted);
    assert Blanked([c]) == " " && " "[1..] == "";
    assert Run(st, " ", wanted) == if st.Found? then st else Step(st, ' ', wanted);
    StepBlank(st, wanted);
  }

  lemma StepBlank(st: Scan, wanted: string)
    ensures st.Reading? && st.wrapper != NOT_FOUND ==> Step(st, ' ', wanted) == Put(st, ' ')
    ensures st.Reading? && st.wrapper == NOT_FOUND ==> Step(st, ' ', wanted) == st
  {
  }

  /** An open token stays open up to its own quote. */
  lemma {:induction false} RunOpen(st: Scan, t: string, wanted: string)
    requires st.Reading? && st.wrapper != NOT_FOUND && st.wrapper !in t
    ensures Run(st, t, wanted).Reading?
    decreases |t|
  {
    if t != "" {
      RunOpen(Put(st, t[0]), t[1..], wanted);
    }
  }

  /** A dictionary up to and with the closing quote of a pair. */
  function UpToPair(front: seq<Pair>, p: Pair): string {
    "{" + PrintBody(front) + p.Print()
  }

  /** The first pair with the wanted key is found from its closing quote on, and not before. */
  lemma FoundFromClosingQuote(front: seq<Pair>, p: Pair, n: nat, wanted: string)
    requires AllValid(front) && p.Valid() && FirstValue(front, wanted).None? && Blanked(p.key.text) == wanted
    requires n <= |UpToPair(front, p)|
    ensures FoundIn(UpToPair(front, p)[..n], wanted) <==> n == |UpToPair(front, p)|
  {
    var whole := UpToPair(front, p);
    var open := whole[..|whole| - 1];
    PairCutOpen(front, p);
    RunFront(front, p.Print() + "", wanted);
    assert p.Print() + "" == p.key.Print() + " : " + [p.value.quote] + p.value.text + [p.value.quote] + "";
    assert "{" + PrintBody(front) + (p.Print() + "") == whole;
    RunRawPair(p.key, p.value.quote, p.value.text, "", wanted);
    assert whole[..|whole|] == whole;
    OpenPairNotFound(front, p, wanted);
    if n < |whole| {
      assert open == whole[..n] + open[n..];
      LookupCut(whole[..n], open[n..], wanted);
    }
  }

  lemma PairCutOpen(front: seq<Pair>, p: Pair)
    ensures var whole := UpToPair(front, p);
            |whole| > 0 && whole[..|whole| - 1] == "{" + PrintBody(front) + (p.key.Print() + " : " + ([p.value.quote] + p.value.text))
  {
  }

  lemma OpenPairNotFound(front: seq<Pair>, p: Pair, wanted: string)
    requires AllValid(front) && p.Valid() && FirstValue(front, wanted).None?
    ensures !FoundIn("{" + PrintBody(front) + (p.key.Print() + " : " + ([p.value.quote] + p.value.text)), wanted)
  {
    var s := p.key.Print() + " : " + ([p.value.quote] + p.value.text);
    RunFront(front, s, wanted);
    BlankedToken(p.key);
    BlankedToken(p.value);
    BlankedOpen(p);
    RunOpenPair(Token(p.key.quote, Blanked(p.key.text)), p.value.quote, Blanked(p.value.text), wanted);
  }

  lemma RunOpenPair(k: Token, q: char, v: string, wanted: string)
    requires k.Valid() && IsQuote(q) && q !in v
    ensures Run(START, k.Print() + " : " + ([q] + v), wanted).Reading?
  {
    var tail := [q] + v;
    var s := k.Print() + " : " + tail;
    assert s[0] == k.quote && s[1..] == k.text + [k.quote] + (" : " + tail);
    RunToken(START.(wrapper := k.quote), k.text, k.quote, " : " + tail, wanted);
    assert "" + k.text == k.text;
    var inVal := Reading(NOT_FOUND, true, k.text, "");
    RunSeparator(inVal, tail, wanted);
    assert tail[1..] == v;
    RunOpen(inVal.(wrapper := q), v, wanted);
  }

  lemma BlankedOpen(p: Pair)
    requires p.Valid()
    ensures Blanked(p.key.Print() + " : " + ([p.value.quote] + p.value.text))
         == Token(p.key.quote, Blanked(p.key.text)).Print() + " : " + ([p.value.quote] + Blanked(p.value.text))
  {
  }

  // ---- Texts in single quotes ----

  /** A pair as the driver's printers write it. */
  function QuotedPair(key: string, value: string): Pair {
    Pair(Token('\'', key), Token('\'', value))
  }

  /** A text as it comes back: up to the first quote, line ends as blanks. */
  function ReadBack(s: string): string {
    Blanked(UpTo(s, '\''))
  }

  predicate Plain(s: string) {
    '\'' !in s && '\r' !in s && '\n' !in s
  }

  lemma ReadBackPlain(s: string)
    ensures Plain(ReadBack(s)) && ReadBack(ReadBack(s)) == ReadBack(s)
    ensures ReadBack(s) == s <==> Plain(s)
  {
    UpToSplit(s, '\'');
    var r := ReadBack(s);
    assert '\'' !in r;
    UpToAbsent(r, '\'');
    BlankedPlain(r);
    if Plain(s) {
      UpToAbsent(s, '\'');
      BlankedPlain(s);
    }
  }

  lemma BlankedPlain(s: string)
    requires '\r' !in s && '\n' !in s
    ensures Blanked(s) == s
  {
  }
}
