/** The format interpreter around Varargs' conversions: what a whole format string produces. */
module Sprintf {
  import opened Common
  import opened Numerals
  import opened SgStdlib
  import opened Varargs

  datatype Arg = Word(n: nat) | Str(s: string)

  /** Undefined: an argument is missing or of the wrong kind, `%` ends the string, or a number overruns `pcBuf`. */
  datatype Output = Done(text: string) | Undefined

  function After(text: string, rest: Output): Output {
    if rest.Done? then Done(text + rest.text) else Undefined
  }

  predicate WordFirst(args: seq<Arg>) {
    args != [] && args[0].Word? && args[0].n < WORD
  }

  /** The word as a `long`; the most negative one stays as it is when negated. */
  function IsNegative(n: nat): bool {
    n >= WORD / 2
  }

  function Magnitude(n: nat): nat {
    if IsNegative(n) && n < WORD then WORD - n else n
  }

  /** Left-justified text. */
  function Field(s: string, width: nat): string {
    s + Repeat(' ', if width > |s| then width - |s| else 0)
  }

  /** One command: its text, or None if it is undefined. A letter that is none produces nothing. */
  function Command(c: char, width: nat, fill: char, args: seq<Arg>): Option<string> {
    match c
    case 'c' => if WordFirst(args) then Some([(args[0].n % 256) as char]) else None
    case 's' => if args != [] && args[0].Str? then Some(Field(args[0].s, width)) else None
    case 'd' => SignedNumber(width, fill, args)
    case 'i' => SignedNumber(width, fill, args)
    case 'u' => UnsignedNumber(10, width, fill, args)
    case 'x' => UnsignedNumber(16, width, fill, args)
    case 'X' => UnsignedNumber(16, width, fill, args)
    case 'p' => UnsignedNumber(16, width, fill, args)
    case '%' => Some("%")
    case _ => Some("")
  }

  function SignedNumber(width: nat, fill: char, args: seq<Arg>): Option<string> {
    if WordFirst(args) then Justified(Sign(IsNegative(args[0].n)), Digits(Magnitude(args[0].n), 10), fill, width) else None
  }

  function UnsignedNumber(base: nat, width: nat, fill: char, args: seq<Arg>): Option<string>
    requires base in {10, 16}
  {
    if WordFirst(args) then Justified("", Digits(args[0].n, base), fill, width) else None
  }

  predicate TakesArgument(c: char) {
    c in {'c', 's', 'd', 'i', 'u', 'x', 'X', 'p'}
  }

  function Taken(c: char, args: seq<Arg>): seq<Arg> {
    if TakesArgument(c) && args != [] then args[1..] else args
  }

  /** What a format string is read as: characters to copy and commands. `Cut` is a `%` at the end of the string. */
  datatype Token = Plain(c: char) | Cmd(letter: char, width: nat, fill: char) | Cut

  function Parse(f: string): seq<Token>
    decreases |f|
  {
    if f == "" then []
    else if f[0] != '%' then [Plain(f[0])] + Parse(f[1..])
    else ParseCommand(f[1..], 0, ' ')
  }

  /** The tokens from behind a `%`. */
  function ParseCommand(f: string, width: nat, fill: char): seq<Token>
    decreases |f|
  {
    if f == "" then [Cut]
    else if IsDigit(f[0]) then ParseCommand(f[1..], Width(width, f[0]), Fill(width, fill, f[0]))
    else [Cmd(f[0], width, fill)] + Parse(f[1..])
  }

  /** The output of the tokens, each command taking its argument. */
  function Run(ts: seq<Token>, args: seq<Arg>): Output
    decreases |ts|, 0
  {
    if ts == [] then Done("")
    else
      match ts[0]
      case Plain(c) => After([c], Run(ts[1..], args))
      case Cmd(letter, width, fill) => Printed(Command(letter, width, fill, args), ts[1..], Taken(letter, args))
      case Cut => Undefined
  }

  function Printed(text: Option<string>, more: seq<Token>, args: seq<Arg>): Output
    decreases |more|, 1
  {
    if text.None? then Undefined else After(text.value, Run(more, args))
  }

  /** The output of a format string. */
  function Format(f: string, args: seq<Arg>): Output {
    Run(Parse(f), args)
  }

  function Width(width: nat, c: char): (w: nat)
    requires IsDigit(c)
    ensures w < WORD
  {
    LowWord(width * 10 + DigitValue(c))
  }

  /** The part of a number that a word holds. */
  function LowWord(n: nat): (w: nat)
    ensures w < WORD
    decreases n
  {
    if n < WORD then n else LowWord(n - WORD)
  }

  lemma {:induction false} LowWordIsRemainder(n: nat)
    ensures LowWord(n) == n % WORD
    decreases n
  {
    if n >= WORD {
      LowWordIsRemainder(n - WORD);
    }
  }

  function Fill(width: nat, fill: char, c: char): char {
    if c == '0' && width == 0 then '0' else fill
  }

  // ---- sg_varargs ----

  method FormatNumber(c: char, width: nat, fill: char, n: nat) returns (r: Option<string>)
    requires c in {'d', 'i', 'u', 'x', 'X', 'p'} && n < WORD && width < WORD
    ensures forall args: seq<Arg> :: WordFirst(args) && args[0].n == n ==> Command(c, width, fill, args) == r
  {
    if c == 'd' || c == 'i' {
      if n >= WORD / 2 {
        r := Convert(WORD - n, 10, true, width, fill);
      } else {
        r := Convert(n, 10, false, width, fill);
      }
    } else if c == 'u' {
      r := Convert(n, 10, false, width, fill);
    } else {
      r := Convert(n, 16, false, width, fill);
    }
  }

  method Execute(c: char, width: nat, fill: char, args: seq<Arg>) returns (r: Option<string>)
    requires width < WORD
    ensures r == Command(c, width, fill, args)
  {
    if c in {'d', 'i', 'u', 'x', 'X', 'p'} {
      if args == [] || !args[0].Word? || args[0].n >= WORD {
        return None;
      }
      r := FormatNumber(c, width, fill, args[0].n);
    } else if c == 'c' {
      if args == [] || !args[0].Word? || args[0].n >= WORD {
        return None;
      }
      r := Some([(args[0].n % 256) as char]);
    } else if c == 's' {
      if args == [] || !args[0].Str? {
        return None;
      }
      var pcStr := args[0].s;
      var out := pcStr;
      if width > |pcStr| {
        out := PadRight(pcStr, width - |pcStr|);
      } else {
        assert pcStr + "" == pcStr;
      }
      r := Some(out);
    } else if c == '%' {
      r := Some("%");
    } else {
      r := Some("");
    }
  }

  method PadRight(s: string, count: nat) returns (out: string)
    ensures out == s + Repeat(' ', count)
  {
    out := s;
    assert s + "" == s;
    for i := 0 to count
      invariant out == s + Repeat(' ', i)
    {
      assert s + Repeat(' ', i) + [' '] == s + Repeat(' ', i + 1);
      out := out + [' '];
    }
  }

  method SgVarargs(pcString: string, vaArgP: seq<Arg>) returns (r: Output)
    ensures r == Format(pcString, vaArgP)
  {
    var out, f, args := "", pcString, vaArgP;
    AfterNothing(Format(pcString, vaArgP));
    while f != ""
      invariant After(out, Run(Parse(f), args)) == Format(pcString, vaArgP)
      decreases |f|
    {
      var c := f[0];
      if c != '%' {
        TokenInFront(Plain(c), Parse(f[1..]));
        AfterAfter(out, [c], Run(Parse(f[1..]), args));
        out, f := out + [c], f[1..];
      } else {
        f := f[1..];
        var ulCount: nat, cFill := 0, ' ';
        while f != "" && IsDigit(f[0])
          invariant ulCount < WORD
          invariant After(out, Run(ParseCommand(f, ulCount, cFill), args)) == Format(pcString, vaArgP)
          decreases |f|
        {
          cFill := Fill(ulCount, cFill, f[0]);
          LowWordIsRemainder(ulCount * 10 + DigitValue(f[0]));
          ulCount := (ulCount * 10 + DigitValue(f[0])) % WORD;
          f := f[1..];
        }
        if f == "" {
          return Undefined;
        }
        TokenInFront(Cmd(f[0], ulCount, cFill), Parse(f[1..]));
        var text := Execute(f[0], ulCount, cFill, args);
        if text.None? {
          return Undefined;
        }
        AfterAfter(out, text.value, Run(Parse(f[1..]), Taken(f[0], args)));
        out, f, args := out + text.value, f[1..], Taken(f[0], args);
      }
    }
    assert out + "" == out;
    r := Done(out);
  }

  lemma TokenInFront(x: Token, ts: seq<Token>)
    ensures ([x] + ts)[0] == x && ([x] + ts)[1..] == ts
  {
  }

  lemma AfterNothing(r: Output)
    ensures After("", r) == r
  {
    assert r.Done? ==> "" + r.text == r.text;
  }

  lemma AfterAfter(a: string, b: string, r: Output)
    ensures After(a, After(b, r)) == After(a + b, r)
  {
    assert r.Done? ==> a + (b + r.text) == a + b + r.text;
  }

  // ---- What formats mean ----

  /** The pieces a format string is made of, with the arguments they stand for. */
  datatype Piece =
    | Literal(text: string)
    | Percent
    | Char(code: nat)
    | Text(width: nat, s: string)
    | Int(zeros: bool, width: nat, value: int)
    | Unsigned(zeros: bool, width: nat, n: nat)
    | Hex(zeros: bool, width: nat, n: nat)
  {
    predicate Valid() {
      match this
      case Literal(text) => '%' !in text
      case Percent => true
      case Char(code) => code < 256
      case Text(width, _) => width < WORD
      case Int(_, width, value) => width < WORD && -0x8000_0000 <= value < 0x8000_0000
      case Unsigned(_, width, n) => width < WORD && n < WORD
      case Hex(_, width, n) => width < WORD && n < WORD
    }

    /** How the piece is written in the format string. */
    function Source(): string {
      match this
      case Literal(text) => text
      case Percent => "%" + (Flags(false, 0) + "%")
      case Char(_) => "%" + (Flags(false, 0) + "c")
      case Text(width, _) => "%" + (Flags(false, width) + "s")
      case Int(zeros, width, _) => "%" + (Flags(zeros, width) + "d")
      case Unsigned(zeros, width, _) => "%" + (Flags(zeros, width) + "u")
      case Hex(zeros, width, _) => "%" + (Flags(zeros, width) + "x")
    }

    function Args(): seq<Arg> {
      match this
      case Literal(_) => []
      case Percent => []
      case Char(code) => [Word(code)]
      case Text(_, s) => [Str(s)]
      case Int(_, _, value) => [Word(value % WORD)]
      case Unsigned(_, _, n) => [Word(n)]
      case Hex(_, _, n) => [Word(n)]
    }

    /** What it is meant to print; None where a number overruns `pcBuf`. */
    function Rendered(): Option<string> {
      match this
      case Literal(text) => Some(text)
      case Percent => Some("%")
      case Char(code) => if code < 256 then Some([code as char]) else None
      case Text(width, s) => Some(Field(s, width))
      case Int(zeros, width, value) =>
        Justified(Sign(value < 0), Digits(if value < 0 then -value else value, 10), FillOf(zeros), width)
      case Unsigned(zeros, width, n) => Justified("", Digits(n, 10), FillOf(zeros), width)
      case Hex(zeros, width, n) => Justified("", Digits(n, 16), FillOf(zeros), width)
    }
  }

  function FillOf(zeros: bool): char {
    if zeros then '0' else ' '
  }

  function WidthText(width: nat): string {
    if width == 0 then "" else Digits(width, 10)
  }

  function Flags(zeros: bool, width: nat): string {
    (if zeros then "0" else "") + WidthText(width)
  }

  function AllSource(ps: seq<Piece>): string {
    if ps == [] then "" else ps[0].Source() + AllSource(ps[1..])
  }

  function AllArgs(ps: seq<Piece>): seq<Arg> {
    if ps == [] then [] else ps[0].Args() + AllArgs(ps[1..])
  }

  function AllRendered(ps: seq<Piece>): Output {
    if ps == [] then Done("")
    else
      var text := ps[0].Rendered();
      if text.None? then Undefined else After(text.value, AllRendered(ps[1..]))
  }

  predicate AllValid(ps: seq<Piece>) {
    ps != [] ==> ps[0].Valid() && AllValid(ps[1..])
  }

  function Tokens(p: Piece): seq<Token> {
    match p
    case Literal(text) => Plains(text)
    case Percent => [Cmd('%', 0, ' ')]
    case Char(_) => [Cmd('c', 0, ' ')]
    case Text(width, _) => [Cmd('s', width, ' ')]
    case Int(zeros, width, _) => [Cmd('d', width, FillOf(zeros))]
    case Unsigned(zeros, width, _) => [Cmd('u', width, FillOf(zeros))]
    case Hex(zeros, width, _) => [Cmd('x', width, FillOf(zeros))]
  }

  function Plains(text: string): seq<Token> {
    if text == "" then [] else [Plain(text[0])] + Plains(text[1..])
  }

  function AllTokens(ps: seq<Piece>): seq<Token> {
    if ps == [] then [] else Tokens(ps[0]) + AllTokens(ps[1..])
  }

  /** A width is read as it was written, and its first digit is no flag. */
  lemma {:induction false} WidthRead(d: string, rest: string, fill: char)
    requires AllDigits(d) && Number(d) < WORD && (d != "" ==> d[0] != '0')
    ensures ParseCommand(d + rest, 0, fill) == ParseCommand(rest, Number(d), fill)
    ensures d != "" ==> Number(d) > 0
    decreases |d|
  {
    if d == "" {
      assert d + rest == rest;
    } else {
      var front, c := d[..|d| - 1], d[|d| - 1];
      assert d == front + [c] && c in d;
      assert front != "" ==> front[0] == d[0];
      WidthRead(front, [c] + rest, fill);
      assert d + rest == front + ([c] + rest);
      DigitRead(c, rest, Number(front), fill);
      assert Width(Number(front), c) == Number(d) && Fill(Number(front), fill, c) == fill;
    }
  }

  lemma DigitRead(c: char, rest: string, width: nat, fill: char)
    requires IsDigit(c)
    ensures ParseCommand([c] + rest, width, fill) == ParseCommand(rest, Width(width, c), Fill(width, fill, c))
  {
    assert ([c] + rest)[1..] == rest;
  }

  lemma {:induction false} LeadingDigit(n: nat)
    requires n > 0
    ensures Digits(n, 10)[0] != '0'
    decreases n
  {
    if n >= 10 {
      LeadingDigit(n / 10);
    }
  }

  lemma WidthTextRead(width: nat, rest: string, fill: char)
    requires width < WORD
    ensures ParseCommand(WidthText(width) + rest, 0, fill) == ParseCommand(rest, width, fill)
  {
    if width == 0 {
      assert "" + rest == rest;
    } else {
      NumberOfDigits(width);
      LeadingDigit(width);
      WidthRead(Digits(width, 10), rest, fill);
    }
  }

  lemma FlagsRead(zeros: bool, width: nat, rest: string)
    requires width < WORD
    ensures ParseCommand(Flags(zeros, width) + rest, 0, ' ') == ParseCommand(rest, width, FillOf(zeros))
  {
    WidthTextRead(width, rest, FillOf(zeros));
    FlagsCut(zeros, width, rest);
    if zeros {
      DigitRead('0', WidthText(width) + rest, 0, ' ');
    }
  }

  lemma FlagsCut(zeros: bool, width: nat, rest: string)
    ensures Flags(zeros, width) + rest == if zeros then ['0'] + (WidthText(width) + rest) else WidthText(width) + rest
  {
    var text := WidthText(width);
    assert "0" + text + rest == ['0'] + (text + rest);
    assert "" + text == text;
  }

  lemma PercentRead(text: string, letter: char, rest: string)
    ensures Parse("%" + (text + [letter]) + rest) == ParseCommand(text + ([letter] + rest), 0, ' ')
  {
    var tail := text + ([letter] + rest);
    assert "%" + (text + [letter]) + rest == "%" + tail;
    assert ("%" + tail)[1..] == tail;
  }

  lemma LetterRead(letter: char, rest: string, width: nat, fill: char)
    requires !IsDigit(letter)
    ensures ParseCommand([letter] + rest, width, fill) == [Cmd(letter, width, fill)] + Parse(rest)
  {
    assert ([letter] + rest)[1..] == rest;
  }

  lemma CommandRead(zeros: bool, width: nat, letter: char, rest: string)
    requires width < WORD && !IsDigit(letter)
    ensures Parse("%" + (Flags(zeros, width) + [letter]) + rest) == [Cmd(letter, width, FillOf(zeros))] + Parse(rest)
  {
    PercentRead(Flags(zeros, width), letter, rest);
    FlagsRead(zeros, width, [letter] + rest);
    LetterRead(letter, rest, width, FillOf(zeros));
  }

  lemma {:induction false} LiteralRead(text: string, rest: string)
    requires '%' !in text
    ensures Parse(text + rest) == Plains(text) + Parse(rest)
    decreases |text|
  {
    if text == "" {
      assert text + rest == rest;
    } else {
      assert (text + rest)[1..] == text[1..] + rest;
      LiteralRead(text[1..], rest);
    }
  }

  lemma PieceRead(p: Piece, rest: string)
    requires p.Valid()
    ensures Parse(p.Source() + rest) == Tokens(p) + Parse(rest)
  {
    match p
    case Literal(text) => LiteralRead(text, rest);
    case Percent => CommandRead(false, 0, '%', rest);
    case Char(_) => CommandRead(false, 0, 'c', rest);
    case Text(width, _) => CommandRead(false, width, 's', rest);
    case Int(zeros, width, _) => CommandRead(zeros, width, 'd', rest);
    case Unsigned(zeros, width, _) => CommandRead(zeros, width, 'u', rest);
    case Hex(zeros, width, _) => CommandRead(zeros, width, 'x', rest);
  }

  lemma {:induction false} PiecesRead(ps: seq<Piece>)
    requires AllValid(ps)
    ensures Parse(AllSource(ps)) == AllTokens(ps)
    decreases |ps|
  {
    if ps != [] {
      PieceRead(ps[0], AllSource(ps[1..]));
      PiecesRead(ps[1..]);
    }
  }

  lemma WordOf(value: int)
    requires -0x8000_0000 <= value < 0x8000_0000
    ensures var n := value % WORD;
            n < WORD && IsNegative(n) == (value < 0) && Magnitude(n) == if value < 0 then -value else value
  {
    assert value % WORD == if value < 0 then value + WORD else value;
  }

  lemma IntCommand(width: nat, fill: char, value: int, args: seq<Arg>)
    requires -0x8000_0000 <= value < 0x8000_0000
    ensures Command('d', width, fill, [Word(value % WORD)] + args)
         == Justified(Sign(value < 0), Digits(if value < 0 then -value else value, 10), fill, width)
  {
    WordOf(value);
    var all := [Word(value % WORD)] + args;
    assert all[0] == Word(value % WORD);
  }

  lemma {:induction false} PlainsRun(text: string, more: seq<Token>, args: seq<Arg>)
    ensures Run(Plains(text) + more, args) == After(text, Run(more, args))
    decreases |text|
  {
    if text == "" {
      assert Plains(text) + more == more;
      AfterNothing(Run(more, args));
    } else {
      var rest := Plains(text[1..]) + more;
      assert Plains(text) + more == [Plain(text[0])] + rest;
      TokenInFront(Plain(text[0]), rest);
      PlainsRun(text[1..], more, args);
      AfterAfter([text[0]], text[1..], Run(more, args));
      assert [text[0]] + text[1..] == text;
    }
  }

  lemma CommandRuns(letter: char, width: nat, fill: char, arg: Arg, more: seq<Token>, args: seq<Arg>)
    requires TakesArgument(letter)
    ensures Run([Cmd(letter, width, fill)] + more, [arg] + args) == Printed(Command(letter, width, fill, [arg] + args), more, args)
  {
    TokenInFront(Cmd(letter, width, fill), more);
    assert ([arg] + args)[1..] == args;
  }

  predicate Runs(p: Piece, more: seq<Token>, args: seq<Arg>) {
    Run(Tokens(p) + more, p.Args() + args) == Printed(p.Rendered(), more, args)
  }

  lemma IntRuns(p: Piece, more: seq<Token>, args: seq<Arg>)
    requires p.Int? && p.Valid()
    ensures Runs(p, more, args)
  {
    IntCommand(p.width, FillOf(p.zeros), p.value, args);
    CommandRuns('d', p.width, FillOf(p.zeros), Word(p.value % WORD), more, args);
  }

  lemma WordRuns(p: Piece, more: seq<Token>, args: seq<Arg>)
    requires (p.Unsigned? || p.Hex?) && p.Valid()
    ensures Runs(p, more, args)
  {
    CommandRuns(if p.Hex? then 'x' else 'u', p.width, FillOf(p.zeros), Word(p.n), more, args);
  }

  lemma OtherRuns(p: Piece, more: seq<Token>, args: seq<Arg>)
    requires (p.Char? || p.Text?) && p.Valid()
    ensures Runs(p, more, args)
  {
    match p
    case Char(code) => CommandRuns('c', 0, ' ', Word(code), more, args);
    case Text(width, s) => CommandRuns('s', width, ' ', Str(s), more, args);
  }

  lemma FreeRuns(p: Piece, more: seq<Token>, args: seq<Arg>)
    requires (p.Literal? || p.Percent?) && p.Valid()
    ensures Runs(p, more, args)
  {
    assert [] + args == args;
    match p
    case Literal(text) => PlainsRun(text, more, args);
    case Percent => TokenInFront(Cmd('%', 0, ' '), more);
  }

  lemma PieceRuns(p: Piece, more: seq<Token>, args: seq<Arg>)
    requires p.Valid()
    ensures Runs(p, more, args)
  {
    match p
    case Int(_, _, _) => IntRuns(p, more, args);
    case Unsigned(_, _, _) => WordRuns(p, more, args);
    case Hex(_, _, _) => WordRuns(p, more, args);
    case Char(_) => OtherRuns(p, more, args);
    case Text(_, _) => OtherRuns(p, more, args);
    case _ => FreeRuns(p, more, args);
  }

  lemma {:induction false} PiecesRun(ps: seq<Piece>, more: seq<Arg>)
    requires AllValid(ps)
    ensures Run(AllTokens(ps), AllArgs(ps) + more) == AllRendered(ps)
    decreases |ps|
  {
    if ps != [] {
      var args := AllArgs(ps[1..]) + more;
      assert AllArgs(ps) + more == ps[0].Args() + args;
      PieceRuns(ps[0], AllTokens(ps[1..]), args);
      PiecesRun(ps[1..], more);
    }
  }

  /** One piece in front of any other format. */
  lemma PieceFormatted(p: Piece, rest: string, args: seq<Arg>)
    requires p.Valid()
    ensures Format(p.Source() + rest, p.Args() + args) == Printed(p.Rendered(), Parse(rest), args)
  {
    PieceRead(p, rest);
    PieceRuns(p, Parse(rest), args);
  }

  /** Any format string made of pieces prints the pieces, one after the other, each with its own argument. */
  lemma FormatsPieces(ps: seq<Piece>, more: seq<Arg>)
    requires AllValid(ps)
    ensures Format(AllSource(ps), AllArgs(ps) + more) == AllRendered(ps)
  {
    PiecesRead(ps);
    PiecesRun(ps, more);
  }

  lemma JustifiedPlain(sign: string, digits: string)
    requires |sign| + |digits| <= PC_BUF
    ensures Justified(sign, digits, ' ', 0) == Some(sign + digits)
  {
    assert "" + "" + sign + digits == sign + digits;
  }

  lemma PlainInt(n: int)
    requires -0x8000_0000 <= n < 0x8000_0000
    ensures Int(false, 0, n).Rendered() == Some(Decimal(n))
  {
    var digits := Digits(if n < 0 then -n else n, 10);
    ShortWord(if n < 0 then -n else n, 10);
    JustifiedPlain(Sign(n < 0), digits);
    assert Sign(n < 0) + digits == Decimal(n);
  }

  /** `%d` prints the decimal form, and sg_atoi reads it back for every `int` but the smallest. */
  lemma PrintedIntIsRead(n: int)
    requires -0x8000_0000 <= n < 0x8000_0000
    ensures Format("%d", [Word(n % WORD)]) == Done(Decimal(n))
    ensures AtoiOf(Decimal(n)) == Some(n) <==> n != -0x8000_0000
  {
    var p := Int(false, 0, n);
    PieceFormatted(p, "", []);
    PlainInt(n);
    assert p.Source() + "" == "%d" && p.Args() + [] == p.Args();
    assert Decimal(n) + "" == Decimal(n);
    AtoiOfDecimal(n);
  }

  /** A text is never cut, and filled up with blanks behind it. */
  lemma FieldFilled(s: string, width: nat)
    ensures |Field(s, width)| == if width > |s| then width else |s|
    ensures Field(s, width)[..|s|] == s && forall i :: |s| <= i < |Field(s, width)| ==> Field(s, width)[i] == ' '
  {
    RepeatAll(' ', if width > |s| then width - |s| else 0);
  }

  /** `%i` is `%d`, `%X` and `%p` are `%x`, and a letter that is no command prints nothing and takes no argument. */
  lemma OtherLetters(zeros: bool, width: nat, letter: char, rest: string, args: seq<Arg>)
    requires width < WORD && !IsDigit(letter) && letter !in {'c', 's', 'd', 'u', 'x', '%'}
    ensures var f := "%" + (Flags(zeros, width) + [letter]) + rest;
            Format(f, args) == if letter == 'i' then Format("%" + (Flags(zeros, width) + ['d']) + rest, args)
                               else if letter in {'X', 'p'} then Format("%" + (Flags(zeros, width) + ['x']) + rest, args)
                               else Format(rest, args)
  {
    LetterRuns(zeros, width, letter, rest, args);
    if letter == 'i' {
      LetterRuns(zeros, width, 'd', rest, args);
    } else if letter in {'X', 'p'} {
      LetterRuns(zeros, width, 'x', rest, args);
    } else {
      AfterNothing(Format(rest, args));
    }
  }

  lemma LetterRuns(zeros: bool, width: nat, letter: char, rest: string, args: seq<Arg>)
    requires width < WORD && !IsDigit(letter)
    ensures Format("%" + (Flags(zeros, width) + [letter]) + rest, args)
         == Printed(Command(letter, width, FillOf(zeros), args), Parse(rest), Taken(letter, args))
  {
    CommandRead(zeros, width, letter, rest);
    TokenInFront(Cmd(letter, width, FillOf(zeros)), Parse(rest));
  }
}
