/** The pretty printer: what it would write with room enough, and what its size guess lets it write. */
module Pretty {
  import opened Chars
  import opened Lexer
  import opened TokenStream
  import opened Layout
  import opened Transform

  predicate Opens(c: char) { c == '{' || c == '[' }

  predicate Closes(c: char) { c == '}' || c == ']' }

  predicate Structural(c: char) { Opens(c) || Closes(c) || c == ',' || c == ':' }

  /** The left margin, nesting level times indent, after one character. It can turn negative. */
  function Shift(m: Mode, margin: int, indent: int, c: char): (n: int) {
    if m.inString then margin
    else if Opens(c) then margin + indent
    else if Closes(c) then margin - indent
    else margin
  }

  function Blanks(margin: int): (n: nat) {
    if margin > 0 then margin else 0
  }

  /** What is written for one character, with `pad` blanks of indentation. */
  function Put(m: Mode, c: char, pad: nat): (s: string)
    ensures s != ""
  {
    if m.inString then [c]
    else if Opens(c) || c == ',' then [c] + ("\n" + Spaces(pad))
    else if Closes(c) then ("\n" + Spaces(pad)) + [c]
    else if c == ':' then [c] + " "
    else [c]
  }

  /** The pretty printing of `s`, with no bound on the output. */
  function PrettyFrom(m: Mode, margin: int, indent: int, s: string): (r: string)
    decreases s
  {
    if s == "" then ""
    else
      var l := Shift(m, margin, indent, s[0]);
      Put(m, s[0], Blanks(l)) + PrettyFrom(Step(m, s[0]), l, indent, s[1..])
  }

  function Full(indent: int, s: string): (r: string) {
    PrettyFrom(START, 0, indent, s)
  }

  // ---- pretty-printing only adds removable white space ----

  lemma {:induction false} PadIsSpace(pad: nat)
    ensures AllSpace("\n" + Spaces(pad))
  {
  }

  lemma {:induction false} PutStep(m: Mode, c: char, pad: nat)
    ensures Minify(m, Put(m, c, pad)) == if Kept(m, c) then [c] else ""
    ensures Run(m, Put(m, c, pad)) == Step(m, c)
  {
    var w := "\n" + Spaces(pad);
    PadIsSpace(pad);
    assert [c][1..] == "";
    assert Minify(m, [c]) == if Kept(m, c) then [c] else "";
    assert Run(m, [c]) == Step(m, c);
    if !m.inString {
      MinifySpace(m, w);
      if Opens(c) || c == ',' {
        MinifyPlus(m, [c], w);
        MinifySpace(Step(m, c), w);
      } else if Closes(c) {
        MinifyPlus(m, w, [c]);
      } else if c == ':' {
        MinifyPlus(m, [c], " ");
        MinifySpace(Step(m, c), " ");
      }
    }
  }

  /** Minify undoes the unbounded pretty printing, on every text, in every state and at every margin. */
  lemma {:induction false} MinifyPretty(m: Mode, margin: int, indent: int, s: string)
    ensures Minify(m, PrettyFrom(m, margin, indent, s)) == Minify(m, s)
    decreases s
  {
    if s != "" {
      var l := Shift(m, margin, indent, s[0]);
      var p := Put(m, s[0], Blanks(l));
      PutStep(m, s[0], Blanks(l));
      MinifyPlus(m, p, PrettyFrom(Step(m, s[0]), l, indent, s[1..]));
      MinifyPretty(Step(m, s[0]), l, indent, s[1..]);
    }
  }

  // ---- pretty-printing never changes what a parser reads ----

  /** A character that is not structural, or is inside a string, is copied. */
  lemma {:induction false} PrettyCopies(m: Mode, margin: int, indent: int, c: char, r: string)
    requires m.inString || !Structural(c)
    ensures PrettyFrom(m, margin, indent, [c] + r) == [c] + PrettyFrom(Step(m, c), margin, indent, r)
  {
    assert ([c] + r)[1..] == r;
  }

  /** Text that holds no structural character and opens no string. */
  predicate Flat(x: string) {
    forall i | 0 <= i < |x| :: !Structural(x[i]) && x[i] != '"'
  }

  lemma {:induction false} PrettyPlain(margin: int, indent: int, x: string, r: string)
    requires Flat(x)
    ensures PrettyFrom(START, margin, indent, x + r) == x + PrettyFrom(START, margin, indent, r)
  {
    var p := PrettyFrom(START, margin, indent, r);
    if x == "" {
      assert x + r == r && x + p == p;
    } else {
      Peel(x, r);
      Peel(x, p);
      PrettyCopies(START, margin, indent, x[0], x[1..] + r);
      PrettyPlain(margin, indent, x[1..], r);
    }
  }

  lemma {:induction false} PrettyBody(margin: int, indent: int, v: string, r: string, escaped: bool)
    requires ScanBody(v + "\"", escaped) == |v|
    ensures PrettyFrom(Mode(true, escaped), margin, indent, v + "\"" + r)
         == v + "\"" + PrettyFrom(START, margin, indent, r)
    decreases v
  {
    var m := Mode(true, escaped);
    var p := PrettyFrom(START, margin, indent, r);
    assert "" + "\"" == "\"";
    if v == "" {
      assert v + "\"" + r == ['"'] + r && v + "\"" + p == ['"'] + p;
      PrettyCopies(m, margin, indent, '"', r);
    } else {
      PeelQuoted(v, r);
      PeelQuoted(v, p);
      PrettyCopies(m, margin, indent, v[0], v[1..] + "\"" + r);
      PrettyBody(margin, indent, v[1..], r, !escaped && v[0] == '\\');
    }
  }

  lemma {:induction false} PrettyOpenString(margin: int, indent: int, s: string, escaped: bool)
    requires ScanBody(s, escaped) == |s|
    ensures PrettyFrom(Mode(true, escaped), margin, indent, s) == s
    decreases s
  {
    if s != "" {
      PrettyOpenString(margin, indent, s[1..], !escaped && s[0] == '\\');
    }
  }

  lemma {:induction false} ScanBodyCut(s: string, escaped: bool)
    requires ScanBody(s, escaped) < |s|
    ensures var n := ScanBody(s, escaped); ScanBody(s[..n] + "\"", escaped) == n
  {
    var n := ScanBody(s, escaped);
    if n > 0 {
      ScanBodyCut(s[1..], !escaped && s[0] == '\\');
      assert (s[..n] + "\"")[1..] == s[1..][..n - 1] + "\"";
    }
  }

  lemma {:induction false} PrettyHead(margin: int, indent: int, s: string)
    requires s != ""
    ensures PrettyFrom(START, margin, indent, s) != ""
    ensures PrettyFrom(START, margin, indent, s)[0] == if Closes(s[0]) then '\n' else s[0]
  {
  }

  /** A word found in the pretty printing was already there. */
  lemma {:induction false} WordKept(margin: int, indent: int, w: string, s: string)
    requires forall c | c in w :: 'a' <= c <= 'z'
    requires w <= PrettyFrom(START, margin, indent, s)
    ensures w <= s
    decreases w
  {
    if w != "" && s != "" {
      assert w[0] in w && forall c | c in w[1..] :: c in w;
      PrettyHead(margin, indent, s);
      var p := PrettyFrom(START, margin, indent, s[1..]);
      assert s == [s[0]] + s[1..];
      PrettyCopies(START, margin, indent, s[0], s[1..]);
      assert ([s[0]] + p)[1..] == p;
      WordKept(margin, indent, w[1..], s[1..]);
    }
  }

  /** A scan for digits that stops inside the text is settled by the text up to where it stops. */
  lemma {:induction false} DigitsSettled(s: string, m: nat, z: string)
    requires Digits(s) < m <= |s|
    ensures Digits(s[..m] + z) == Digits(s)
  {
    var t := s[..m] + z;
    assert t[0] == s[0];
    if IsDigit(s[0]) {
      assert t[1..] == s[1..][..m - 1] + z;
      DigitsSettled(s[1..], m - 1, z);
    }
  }

  lemma {:induction false} IntegerSettled(s: string, m: nat, z: string)
    requires IntegerEnd(s) < m <= |s|
    ensures IntegerEnd(s[..m] + z) == IntegerEnd(s)
  {
    var t := s[..m] + z;
    var sign := if s[0] == '-' then 1 else 0;
    assert t[0] == s[0];
    assert t[sign..] == s[sign..][..m - sign] + z;
    DigitsSettled(s[sign..], m - sign, z);
  }

  lemma {:induction false} FractionSettled(s: string, m: nat, z: string)
    requires FractionEnd(s) < m <= |s|
    ensures FractionEnd(s[..m] + z) == FractionEnd(s)
  {
    var t := s[..m] + z;
    assert t[0] == s[0];
    if s[0] == '.' {
      assert t[1..] == s[1..][..m - 1] + z;
      DigitsSettled(s[1..], m - 1, z);
    }
  }

  lemma {:induction false} ExponentSettled(s: string, m: nat, z: string)
    requires ExponentEnd(s) < m <= |s|
    ensures ExponentEnd(s[..m] + z) == ExponentEnd(s)
  {
    var t := s[..m] + z;
    assert t[0] == s[0];
    if s[0] == 'e' || s[0] == 'E' {
      var n := if |s| > 1 && (s[1] == '+' || s[1] == '-') then 2 else 1;
      assert t[1] == s[1];
      assert t[n..] == s[n..][..m - n] + z;
      DigitsSettled(s[n..], m - n, z);
    }
  }

  lemma {:induction false} NumberSettled(s: string, m: nat, z: string)
    requires NumberEnd(s) < m <= |s|
    ensures NumberEnd(s[..m] + z) == NumberEnd(s)
  {
    var t := s[..m] + z;
    var i := IntegerEnd(s);
    var f := i + FractionEnd(s[i..]);
    assert NumberEnd(s) == f + ExponentEnd(s[f..]) by { NumberEndParts(s, i, f); }
    assert IntegerEnd(t) == i by { IntegerSettled(s, m, z); }
    assert FractionEnd(t[i..]) == FractionEnd(s[i..]) by {
      DropOfTake(s, m, z, i);
      FractionSettled(s[i..], m - i, z);
    }
    assert ExponentEnd(t[f..]) == ExponentEnd(s[f..]) by {
      DropOfTake(s, m, z, f);
      ExponentSettled(s[f..], m - f, z);
    }
    assert NumberEnd(t) == f + ExponentEnd(t[f..]) by { NumberEndParts(t, i, f); }
  }

  lemma {:induction false} TakeOneMore(s: string, n: nat, r: string)
    requires n < |s| && r != "" && r[0] == s[n]
    ensures s[..n] + r == s[..n + 1] + r[1..]
  {
  }

  lemma {:induction false} NumberEndKept(s: string, r: string)
    requires var n := NumberEnd(s);
             && ((n < |s| && r != "" && r[0] == s[n]) || (NumberStops(s[n..]) && NumberStops(r)))
    requires s != "" && NumberEnd(s) > 0
    ensures var n := NumberEnd(s); NumberEnd(s[..n] + r) == n
  {
    var n := NumberEnd(s);
    if NumberStops(r) && NumberStops(s[n..]) {
      NumberEndStops(s[..n], r);
      NumberEndStops(s[..n], s[n..]);
      TakeDrop(s, n);
    } else {
      TakeOneMore(s, n, r);
      NumberSettled(s, n + 1, r[1..]);
    }
  }

  lemma {:induction false} NumberStream(margin: int, indent: int, s: string)
    requires s != "" && (s[0] == '-' || IsDigit(s[0]))
    ensures var r := s[NumberEnd(s)..];
            && Lex(s) == Lexed(Number(s[..NumberEnd(s)]), r)
            && Lex(PrettyFrom(START, margin, indent, s))
               == Lexed(Number(s[..NumberEnd(s)]), PrettyFrom(START, margin, indent, r))
  {
    var n := NumberEnd(s);
    var x, r := s[..n], s[n..];
    var pr := PrettyFrom(START, margin, indent, r);
    LexAtNumber(s);
    assert PrettyFrom(START, margin, indent, s) == x + pr by {
      NumberTextKept(margin, indent, s);
    }
    assert NumberEnd(x + pr) == n by {
      NumberEndOfPretty(margin, indent, s);
    }
    LexNumberPrefix(x, pr);
  }

  lemma {:induction false} LexNumberPrefix(x: string, r: string)
    requires x != "" && (x[0] == '-' || IsDigit(x[0])) && NumberEnd(x + r) == |x|
    ensures Lex(x + r) == Lexed(Number(x), r)
  {
    var s := x + r;
    assert s[0] == x[0];
    LexAtNumber(s);
    assert s[..|x|] == x && s[|x|..] == r;
  }

  lemma {:induction false} NumberTextKept(margin: int, indent: int, s: string)
    ensures var n := NumberEnd(s);
            PrettyFrom(START, margin, indent, s) == s[..n] + PrettyFrom(START, margin, indent, s[n..])
  {
    NumberChars(s);
    assert forall i | 0 <= i < NumberEnd(s) :: s[..NumberEnd(s)][i] in s[..NumberEnd(s)];
    assert s == s[..NumberEnd(s)] + s[NumberEnd(s)..];
    PrettyPlain(margin, indent, s[..NumberEnd(s)], s[NumberEnd(s)..]);
  }

  lemma {:induction false} NumberEndOfPretty(margin: int, indent: int, s: string)
    requires s != "" && (s[0] == '-' || IsDigit(s[0]))
    ensures var n := NumberEnd(s); NumberEnd(s[..n] + PrettyFrom(START, margin, indent, s[n..])) == n
  {
    var r := s[NumberEnd(s)..];
    if r != "" {
      PrettyHead(margin, indent, r);
    }
    NumberEndKept(s, PrettyFrom(START, margin, indent, r));
  }

  lemma {:induction false} QuoteParts(s: string, n: nat)
    requires n + 2 <= |s| && s[0] == '"' && s[n + 1] == '"'
    ensures s == "\"" + s[1..1 + n] + "\"" + s[n + 2..]
  {
  }

  lemma {:induction false} PrettyQuoted(margin: int, indent: int, v: string, r: string)
    requires ScanBody(v + "\"", false) == |v|
    ensures PrettyFrom(START, margin, indent, "\"" + v + "\"" + r)
         == "\"" + v + "\"" + PrettyFrom(START, margin, indent, r)
  {
    var p := PrettyFrom(START, margin, indent, r);
    assert "\"" + v + "\"" + r == ['"'] + (v + "\"" + r);
    assert "\"" + v + "\"" + p == ['"'] + (v + "\"" + p);
    PrettyCopies(START, margin, indent, '"', v + "\"" + r);
    PrettyBody(margin, indent, v, r, false);
  }

  lemma {:induction false} StringStream(margin: int, indent: int, s: string)
    requires s != "" && s[0] == '"' && ScanBody(s[1..], false) < |s| - 1
    ensures var n := ScanBody(s[1..], false);
            && Lex(s) == Lexed(Str(CStr(s[1..1 + n])), s[n + 2..])
            && Lex(PrettyFrom(START, margin, indent, s))
               == Lexed(Str(CStr(s[1..1 + n])), PrettyFrom(START, margin, indent, s[n + 2..]))
  {
    var n := ScanBody(s[1..], false);
    var v, r := s[1..1 + n], s[n + 2..];
    var pr := PrettyFrom(START, margin, indent, r);
    assert ScanBody(v + "\"", false) == |v| by {
      ScanBodyCut(s[1..], false);
      assert s[1..][..n] == v;
    }
    QuoteParts(s, n);
    hide LexAt, ScanBody, PrettyFrom;
    LexClosed(v, r);
    assert PrettyFrom(START, margin, indent, s) == "\"" + v + "\"" + pr by {
      PrettyQuoted(margin, indent, v, r);
    }
    LexClosed(v, pr);
  }

  lemma {:induction false} WordStream(margin: int, indent: int, s: string, w: string, t: Token)
    requires (w == "true" && t == Boolean(true)) || (w == "false" && t == Boolean(false)) || (w == "null" && t == Null)
    requires w <= s
    ensures Lex(s) == Lexed(t, s[|w|..])
    ensures Lex(PrettyFrom(START, margin, indent, s)) == Lexed(t, PrettyFrom(START, margin, indent, s[|w|..]))
  {
    var r := s[|w|..];
    assert s == w + r && Lexeme(t) == w;
    LexWord(t, r);
    PrettyPlain(margin, indent, w, r);
    LexWord(t, PrettyFrom(START, margin, indent, r));
  }

  lemma {:induction false} PunctuationStream(margin: int, indent: int, s: string, t: Token)
    requires s != "" && Structural(s[0]) && Lexeme(t) == [s[0]] && TokenOk(t) && !t.Number? && !t.Str?
    ensures Lex(s) == Lexed(t, s[1..])
    ensures StreamOf(PrettyFrom(START, margin, indent, s))
         == Cons(t, StreamOf(PrettyFrom(START, Shift(START, margin, indent, s[0]), indent, s[1..])))
  {
    hide LexAt;
    var l := Shift(START, margin, indent, s[0]);
    var pr := PrettyFrom(START, l, indent, s[1..]);
    var w := "\n" + Spaces(Blanks(l));
    PadIsSpace(Blanks(l));
    assert s == Lexeme(t) + s[1..];
    LexLexeme(t, s[1..]);
    if Closes(s[0]) {
      SpacedLexeme(w, t, "", pr);
      assert w + [s[0]] + pr == w + (Lexeme(t) + ("" + pr));
    } else {
      var x := if s[0] == ':' then " " else w;
      SpacedLexeme("", t, x, pr);
      assert [s[0]] + x + pr == "" + (Lexeme(t) + (x + pr));
    }
  }

  lemma {:induction false} SpacedLexeme(before: string, t: Token, after: string, r: string)
    requires AllSpace(before) && AllSpace(after) && TokenOk(t) && !t.Number?
    ensures StreamOf(before + (Lexeme(t) + (after + r))) == Cons(t, StreamOf(r))
  {
    assert t != NoToken && t != EndOfText;
    hide LexAt, TokenOk, Lexeme;
    LexOverSpace(before, Lexeme(t) + (after + r));
    LexLexeme(t, after + r);
    LexOverSpace(after, r);
  }

  lemma {:induction false} StuckStream(s: string)
    requires s != "" && LexAt(s) == Lexed(NoToken, s) && !IsSpace(s[0])
    ensures StreamOf(s) == Stuck
  {
    assert SkipSpace(s) == s;
  }

  lemma {:induction false} UnexpectedStream(margin: int, indent: int, s: string)
    requires s != "" && !IsSpace(s[0]) && !Structural(s[0]) && s[0] != '"' && s[0] != '-' && !IsDigit(s[0])
    requires !("true" <= s) && !("false" <= s) && !("null" <= s)
    ensures StreamOf(s) == StreamOf(PrettyFrom(START, margin, indent, s)) == Stuck
  {
    var p := PrettyFrom(START, margin, indent, s);
    StuckStream(s);
    assert !Closes(s[0]);
    PrettyHead(margin, indent, s);
    if "true" <= p { WordKept(margin, indent, "true", s); }
    if "false" <= p { WordKept(margin, indent, "false", s); }
    if "null" <= p { WordKept(margin, indent, "null", s); }
    StuckStream(p);
  }

  function Punctuation(c: char): (t: Token) {
    match c
    case '{' => ObjectStart
    case '}' => ObjectEnd
    case '[' => ArrayStart
    case ']' => ArrayEnd
    case ':' => Colon
    case _ => Comma
  }

  lemma {:induction false} SpaceStream(margin: int, indent: int, s: string)
    requires s != "" && IsSpace(s[0])
    ensures StreamOf(s) == StreamOf(s[1..])
    ensures StreamOf(PrettyFrom(START, margin, indent, s))
         == StreamOf(PrettyFrom(START, margin, indent, s[1..]))
  {
    hide Lex, StreamOf;
    var p := PrettyFrom(START, margin, indent, s[1..]);
    assert s == [s[0]] + s[1..];
    PrettyCopies(START, margin, indent, s[0], s[1..]);
    LexOverSpace([s[0]], p);
    LexOverSpace([s[0]], s[1..]);
  }

  /** Every text, JSON or not, lexes to the same stream before and after unbounded pretty-printing. */
  lemma {:induction false} PrettyStream(margin: int, indent: int, s: string)
    ensures StreamOf(PrettyFrom(START, margin, indent, s)) == StreamOf(s)
    decreases |s|, 1
  {
    hide LexAt;
    if s == "" {
      assert PrettyFrom(START, margin, indent, s) == "";
    } else if IsSpace(s[0]) {
      SpaceStream(margin, indent, s);
      PrettyStream(margin, indent, s[1..]);
    } else if Structural(s[0]) {
      PunctuationStream(margin, indent, s, Punctuation(s[0]));
      PrettyStream(Shift(START, margin, indent, s[0]), indent, s[1..]);
    } else if s[0] == '"' {
      PrettyStreamAtQuote(margin, indent, s);
    } else if s[0] == '-' || IsDigit(s[0]) {
      NumberStream(margin, indent, s);
      PrettyStream(margin, indent, s[NumberEnd(s)..]);
    } else {
      PrettyStreamAtWord(margin, indent, s);
    }
  }

  lemma {:induction false} PrettyStreamAtWord(margin: int, indent: int, s: string)
    requires s != "" && !IsSpace(s[0]) && !Structural(s[0]) && s[0] != '"' && s[0] != '-' && !IsDigit(s[0])
    ensures StreamOf(PrettyFrom(START, margin, indent, s)) == StreamOf(s)
    decreases |s|, 0
  {
    hide LexAt, PrettyFrom;
    if "true" <= s {
      WordStream(margin, indent, s, "true", Boolean(true));
      PrettyStream(margin, indent, s[4..]);
    } else if "false" <= s {
      WordStream(margin, indent, s, "false", Boolean(false));
      PrettyStream(margin, indent, s[5..]);
    } else if "null" <= s {
      WordStream(margin, indent, s, "null", Null);
      PrettyStream(margin, indent, s[4..]);
    } else {
      UnexpectedStream(margin, indent, s);
    }
  }

  lemma {:induction false} PrettyStreamAtQuote(margin: int, indent: int, s: string)
    requires s != "" && s[0] == '"'
    ensures StreamOf(PrettyFrom(START, margin, indent, s)) == StreamOf(s)
    decreases |s|, 0
  {
    hide LexAt;
    var n := ScanBody(s[1..], false);
    if n < |s| - 1 {
      StringStream(margin, indent, s);
      PrettyStream(margin, indent, s[n + 2..]);
    } else {
      PrettyOpenString(margin, indent, s[1..], false);
      assert PrettyFrom(START, margin, indent, s) == ['"'] + s[1..] == s;
    }
  }
}
