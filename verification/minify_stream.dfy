/** Minify and the tokens of texts that need not be JSON: exactly when they stay. */
module MinifyStream {
  import opened Chars
  import opened Lexer
  import opened TokenStream
  import opened Layout
  import opened Transform
  import opened Pretty

  predicate StartsNumber(s: string) {
    s != "" && (s[0] == '-' || IsDigit(s[0]))
  }

  /** The length of the word a text begins with; 0 when it begins with none. */
  function WordLength(s: string): (n: nat)
    ensures n <= |s|
  {
    if "true" <= s then 4 else if "false" <= s then 5 else if "null" <= s then 4 else 0
  }

  /**
   * Dropping the blanks glues nothing together: no number is prolonged by what comes to stand behind it, and no
   * character that begins no token comes to begin a word.
   */
  predicate NothingGlues(s: string)
    decreases |s|
  {
    if s == "" then true
    else if IsSpace(s[0]) || Structural(s[0]) then NothingGlues(s[1..])
    else if s[0] == '"' then
      var n := ScanBody(s[1..], false);
      n == |s| - 1 || NothingGlues(s[n + 2..])
    else if StartsNumber(s) then
      var n := NumberEnd(s);
      NumberEnd(s[..n] + Minify(START, s[n..])) == n && NothingGlues(s[n..])
    else if WordLength(s) > 0 then NothingGlues(s[WordLength(s)..])
    else WordLength(Minify(START, s)) == 0
  }

  /** A text that is kept up to `r` and minified from there. */
  predicate Splits(s: string, x: string, r: string) {
    s == x + r && Minify(START, s) == x + Minify(START, r)
  }

  lemma {:induction false} PlainSplits(x: string, r: string)
    requires forall c | c in x :: !IsSpace(c) && c != '"'
    ensures Splits(x + r, x, r)
  {
    MinifyPlain(x, r);
  }

  lemma {:induction false} BlankStream(s: string)
    requires s != "" && IsSpace(s[0])
    ensures StreamOf(s) == StreamOf(s[1..]) && Minify(START, s) == Minify(START, s[1..])
  {
    assert s == [s[0]] + s[1..];
    LexOverSpace([s[0]], s[1..]);
  }

  /** A token of which the lexer reads the same lexeme, whatever follows. */
  lemma {:induction false} TokenStays(t: Token, x: string, r: string)
    requires TokenOk(t) && !t.Number? && x == Lexeme(t)
    ensures StreamOf(x + r) == Cons(t, StreamOf(r)) && StreamOf(x + Minify(START, r)) == Cons(t, StreamOf(Minify(START, r)))
  {
    hide LexAt, Lexeme;
    LexLexeme(t, r);
    LexLexeme(t, Minify(START, r));
  }

  lemma {:induction false} PunctuationStays(s: string)
    requires s != "" && Structural(s[0])
    ensures StreamOf(Minify(START, s)) == StreamOf(s) <==> StreamOf(Minify(START, s[1..])) == StreamOf(s[1..])
  {
    var x, t := [s[0]], Punctuation(s[0]);
    assert s == x + s[1..];
    PlainSplits(x, s[1..]);
    assert Lexeme(t) == x;
    hide Lex, StreamOf, Minify;
    TokenStays(t, x, s[1..]);
  }

  lemma {:induction false} WordStays(s: string, t: Token)
    requires (t.Boolean? || t == Null) && Lexeme(t) <= s
    ensures var r := s[|Lexeme(t)|..];
            StreamOf(Minify(START, s)) == StreamOf(s) <==> StreamOf(Minify(START, r)) == StreamOf(r)
  {
    var x, r := Lexeme(t), s[|Lexeme(t)|..];
    assert s == x + r;
    PlainSplits(x, r);
    hide Lex, StreamOf, Minify, Lexeme;
    TokenStays(t, x, r);
  }

  lemma {:induction false} StringStays(s: string)
    requires s != "" && s[0] == '"' && ScanBody(s[1..], false) < |s| - 1
    ensures var r := s[ScanBody(s[1..], false) + 2..];
            StreamOf(Minify(START, s)) == StreamOf(s) <==> StreamOf(Minify(START, r)) == StreamOf(r)
  {
    var n := ScanBody(s[1..], false);
    var v, r := s[1..1 + n], s[n + 2..];
    var m := Minify(START, r);
    ScanBodyCut(s[1..], false);
    assert s[1..][..n] == v;
    QuoteParts(s, n);
    assert Minify(START, s) == "\"" + v + "\"" + m by { QuotedKept(v, r); }
    hide LexAt, ScanBody, Minify;
    LexClosed(v, r);
    LexClosed(v, m);
  }

  lemma {:induction false} QuotedKept(v: string, r: string)
    requires ScanBody(v + "\"", false) == |v|
    ensures Minify(START, "\"" + v + "\"" + r) == "\"" + v + "\"" + Minify(START, r)
  {
    var s := v + "\"" + r;
    assert "\"" + v + "\"" + r == ['"'] + s;
    assert (['"'] + s)[1..] == s;
    MinifyBody(v, r, false);
    assert ['"'] + (v + "\"" + Minify(START, r)) == "\"" + v + "\"" + Minify(START, r);
  }

  /** The rest of a string that is never closed is kept as it is. */
  lemma {:induction false} OpenStringKept(s: string, escaped: bool)
    requires ScanBody(s, escaped) == |s|
    ensures Minify(Mode(true, escaped), s) == s
    decreases s
  {
    if s != "" {
      OpenStringKept(s[1..], !escaped && s[0] == '\\');
    }
  }

  /** Which number a text begins with, and what stands behind it. */
  lemma {:induction false} NumberHead(s: string)
    requires StartsNumber(s)
    ensures var n := NumberEnd(s); 0 < n <= |s| && StreamOf(s) == Cons(Number(s[..n]), StreamOf(s[n..]))
  {
    LexAtNumber(s);
    hide LexAt;
  }

  lemma {:induction false} NumberKept(s: string)
    requires StartsNumber(s)
    ensures var n := NumberEnd(s);
            var t := s[..n] + Minify(START, s[n..]);
            Minify(START, s) == t && StartsNumber(t)
  {
    var n := NumberEnd(s);
    NumberChars(s);
    TakeDrop(s, n);
    assert Splits(s, s[..n], s[n..]) by { PlainSplits(s[..n], s[n..]); }
  }

  lemma {:induction false} NumberStays(s: string)
    requires StartsNumber(s)
    ensures var n := NumberEnd(s);
            StreamOf(Minify(START, s)) == StreamOf(s)
            <==> NumberEnd(s[..n] + Minify(START, s[n..])) == n && StreamOf(Minify(START, s[n..])) == StreamOf(s[n..])
  {
    var n := NumberEnd(s);
    var x, m := s[..n], Minify(START, s[n..]);
    var e := NumberEnd(x + m);
    NumberKept(s);
    NumberHead(s);
    NumberHead(x + m);
    hide Lex, StreamOf, Minify, NumberEnd, StartsNumber;
    if e == n {
      assert (x + m)[..n] == x && (x + m)[n..] == m;
    } else {
      assert |(x + m)[..e]| != |x|;
    }
  }

  lemma {:induction false} WordBegins(s: string)
    requires WordLength(s) > 0
    ensures StreamOf(s).Cons?
  {
    var t := if "true" <= s then Boolean(true) else if "false" <= s then Boolean(false) else Null;
    assert s == Lexeme(t) + s[|Lexeme(t)|..];
    LexWord(t, s[|Lexeme(t)|..]);
  }

  lemma {:induction false} UnexpectedStays(s: string)
    requires s != "" && !IsSpace(s[0]) && !Structural(s[0]) && s[0] != '"' && !StartsNumber(s) && WordLength(s) == 0
    ensures StreamOf(Minify(START, s)) == StreamOf(s) <==> WordLength(Minify(START, s)) == 0
  {
    var m := Minify(START, s);
    assert m[0] == s[0];
    StuckStream(s);
    if WordLength(m) == 0 {
      StuckStream(m);
    } else {
      WordBegins(m);
    }
  }

  /** Minifying a text, JSON or not, keeps its tokens exactly when it glues nothing together. */
  lemma {:induction false} MinifyKeepsTokens(s: string)
    ensures StreamOf(Minify(START, s)) == StreamOf(s) <==> NothingGlues(s)
    decreases |s|
  {
    hide Lex, StreamOf, Minify, NumberEnd;
    if s == "" {
      assert Minify(START, s) == "" by { EmptyStays(); }
    } else if IsSpace(s[0]) {
      BlankStream(s);
      MinifyKeepsTokens(s[1..]);
    } else if Structural(s[0]) {
      PunctuationStays(s);
      MinifyKeepsTokens(s[1..]);
    } else if s[0] == '"' {
      var n := ScanBody(s[1..], false);
      if n == |s| - 1 {
        OpenStays(s);
      } else {
        StringStays(s);
        MinifyKeepsTokens(s[n + 2..]);
      }
    } else if StartsNumber(s) {
      NumberNotEmpty(s);
      NumberStays(s);
      MinifyKeepsTokens(s[NumberEnd(s)..]);
    } else if WordLength(s) > 0 {
      WordStays(s, if "true" <= s then Boolean(true) else if "false" <= s then Boolean(false) else Null);
      MinifyKeepsTokens(s[WordLength(s)..]);
    } else {
      UnexpectedStays(s);
    }
  }

  lemma {:induction false} EmptyStays()
    ensures Minify(START, "") == ""
  {
  }

  lemma {:induction false} NumberNotEmpty(s: string)
    requires StartsNumber(s)
    ensures NumberEnd(s) > 0
  {
  }

  lemma {:induction false} OpenStays(s: string)
    requires s != "" && s[0] == '"' && ScanBody(s[1..], false) == |s| - 1
    ensures Minify(START, s) == s
  {
    OpenStringKept(s[1..], false);
    assert Minify(START, s) == [s[0]] + Minify(Mode(true, false), s[1..]);
    assert s == [s[0]] + s[1..];
  }

  lemma {:induction false} UnexpectedStuck(s: string)
    requires |s| >= 2 && s[0] == 't' && s[1] == ' '
    ensures WordLength(s) == 0 && StreamOf(s) == Stuck
  {
    StuckStream(s);
  }

  lemma {:induction false} WordMade()
    ensures Minify(START, "t" + " " + "rue") == "true"
  {
    hide Minify;
    PlainSplits("t", " " + "rue");
    assert "t" + (" " + "rue") == "t" + " " + "rue";
    BlankDropped("rue");
    PlainSplits("rue", "");
    EmptyStays();
    assert "rue" + "" == "rue" && "t" + "rue" == "true";
  }

  lemma {:induction false} BlankDropped(s: string)
    ensures Minify(START, " " + s) == Minify(START, s)
  {
    MinifySpace(START, " ");
    MinifyPlus(START, " ", s);
  }

  /** The other way to lose tokens: an unexpected character becomes the first of a word. */
  lemma {:induction false} MinifyMakesWords()
    ensures Minify(START, "t" + " " + "rue") == "true"
    ensures StreamOf("t" + " " + "rue") == Stuck && StreamOf("true").Cons?
    ensures !NothingGlues("t" + " " + "rue")
  {
    hide Lex, Minify, NothingGlues, StreamOf, WordLength;
    WordMade();
    assert WordLength("true") > 0 by { TrueIsWord(); }
    WordBegins("true");
    UnexpectedStuck("t" + " " + "rue");
    MinifyKeepsTokens("t" + " " + "rue");
  }

  lemma {:induction false} TrueIsWord()
    ensures WordLength("true") == 4
  {
  }
}
