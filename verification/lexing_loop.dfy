/** Loops that lex to the end of a text: at which character they are caught for ever, if at any. */
module LexingLoop {
  import opened Chars
  import opened Lexer
  import opened TokenStream
  import opened Layout
  import opened Pretty

  /** Where a scan of the characters stands: at the start of a token, in a part of a number, or in a string. */
  datatype Place = Start | Whole | Fraction | Exponent | Power | Quoted(escaped: bool)

  predicate Sign(c: char) { c == '+' || c == '-' }

  predicate Exponential(c: char) { c == 'e' || c == 'E' }

  /** Whether the scan goes on from `Start` without a character: the character does not belong to the number. */
  predicate Leaves(p: Place, c: char) {
    match p
    case Whole => !IsDigit(c) && c != '.' && !Exponential(c)
    case Fraction => !IsDigit(c) && !Exponential(c)
    case Exponent => !IsDigit(c) && !Sign(c)
    case Power => !IsDigit(c)
    case _ => false
  }

  /** The place behind a character that does belong to the token it is in. */
  function Onward(p: Place, c: char): (q: Place) {
    match p
    case Whole => if c == '.' then Fraction else if Exponential(c) then Exponent else Whole
    case Fraction => if Exponential(c) then Exponent else Fraction
    case Exponent => Power
    case Power => Power
    case Quoted(escaped) => if !escaped && c == '"' then Start else Quoted(!escaped && c == '\\')
    case Start => if c == '"' then Quoted(false) else if c == '-' || IsDigit(c) then Whole else Start
  }

  predicate BeginsToken(c: char) {
    IsSpace(c) || Structural(c) || c == '"' || c == '-' || IsDigit(c)
  }

  /** Position of the first character that stands where a token should start and begins none; the length when there is none. */
  function StuckAt(p: Place, s: string): (n: nat)
    ensures n <= |s|
    decreases |s|, if p == Start then 0 else 1
  {
    if s == "" then 0
    else if Leaves(p, s[0]) then StuckAt(Start, s)
    else if p != Start || BeginsToken(s[0]) then 1 + StuckAt(Onward(p, s[0]), s[1..])
    else if "true" <= s then 4 + StuckAt(Start, s[4..])
    else if "false" <= s then 5 + StuckAt(Start, s[5..])
    else if "null" <= s then 4 + StuckAt(Start, s[4..])
    else 0
  }

  // ---- the scan passes over whole tokens ----

  lemma {:induction false} DigitsPassed(p: Place, s: string)
    requires p == Whole || p == Fraction || p == Power
    ensures StuckAt(p, s) == Digits(s) + StuckAt(p, s[Digits(s)..])
  {
    if s != "" && IsDigit(s[0]) {
      DigitsPassed(p, s[1..]);
      assert s[1..][Digits(s) - 1..] == s[Digits(s)..];
    }
  }

  lemma {:induction false} PowerPassed(s: string)
    ensures StuckAt(Power, s) == Digits(s) + StuckAt(Start, s[Digits(s)..])
  {
    DigitsPassed(Power, s);
  }

  lemma {:induction false} DropTwice(s: string, i: nat, j: nat)
    requires i + j <= |s|
    ensures s[i..][j..] == s[i + j..]
  {
  }

  /** Behind the letter of an exponent: a sign or a digit, and digits. */
  lemma {:induction false} ExponentBody(r: string)
    ensures var n := (if r != "" && Sign(r[0]) then 1 else 0);
            var d := n + Digits(r[n..]);
            StuckAt(Exponent, r) == d + StuckAt(Start, r[d..])
  {
    if r != "" && (Sign(r[0]) || IsDigit(r[0])) {
      PowerPassed(r[1..]);
      DropTwice(r, 1, Digits(r[1..]));
      assert r[0..] == r;
    }
  }

  lemma {:induction false} ExponentPassed(p: Place, s: string)
    requires (p == Whole && (s == "" || s[0] != '.')) || p == Fraction
    requires s == "" || !IsDigit(s[0])
    ensures StuckAt(p, s) == ExponentEnd(s) + StuckAt(Start, s[ExponentEnd(s)..])
  {
    hide Digits;
    if s != "" && Exponential(s[0]) {
      var r := s[1..];
      var n := if r != "" && Sign(r[0]) then 1 else 0;
      var d := n + Digits(r[n..]);
      assert StuckAt(p, s) == 1 + StuckAt(Exponent, r);
      ExponentBody(r);
      hide StuckAt;
      DropTwice(s, 1, n);
      assert ExponentEnd(s) == 1 + d;
      DropTwice(s, 1, d);
    } else {
      assert ExponentEnd(s) == 0 && s[0..] == s;
    }
  }

  /** Fraction and exponent, behind the digits in front of them. */
  lemma {:induction false} TailPassed(r: string)
    requires r == "" || !IsDigit(r[0])
    ensures var f := FractionEnd(r);
            var e := f + ExponentEnd(r[f..]);
            StuckAt(Whole, r) == e + StuckAt(Start, r[e..])
  {
    hide ExponentEnd;
    var f := FractionEnd(r);
    if r != "" && r[0] == '.' {
      DigitsPassed(Fraction, r[1..]);
      DropTwice(r, 1, Digits(r[1..]));
      ExponentPassed(Fraction, r[f..]);
      DropTwice(r, f, ExponentEnd(r[f..]));
    } else {
      assert r[0..] == r;
      ExponentPassed(Whole, r);
    }
  }

  lemma {:induction false} NumberPassed(s: string)
    requires s != "" && (s[0] == '-' || IsDigit(s[0]))
    ensures StuckAt(Start, s) == NumberEnd(s) + StuckAt(Start, s[NumberEnd(s)..])
  {
    hide StuckAt, IntegerEnd, FractionEnd, ExponentEnd, NumberEnd;
    var i := IntegerEnd(s);
    var f := FractionEnd(s[i..]);
    DropTwice(s, i, f);
    NumberEndParts(s, i, i + f);
    IntegerPassed(s);
    IntegerStopsHere(s);
    TailPassed(s[i..]);
    DropTwice(s, i, f + ExponentEnd(s[i + f..]));
  }

  lemma {:induction false} IntegerPassed(s: string)
    requires s != "" && (s[0] == '-' || IsDigit(s[0]))
    ensures StuckAt(Start, s) == IntegerEnd(s) + StuckAt(Whole, s[IntegerEnd(s)..])
  {
    DigitsPassed(Whole, s[1..]);
    assert s[1..][Digits(s[1..])..] == s[1 + Digits(s[1..])..];
    assert s[0..] == s;
  }

  lemma {:induction false} IntegerStopsHere(s: string)
    ensures var r := s[IntegerEnd(s)..]; r == "" || !IsDigit(r[0])
  {
    var sign := if s != "" && s[0] == '-' then 1 else 0;
    assert s[sign..][Digits(s[sign..])..] == s[IntegerEnd(s)..];
  }

  lemma {:induction false} QuotedPassed(escaped: bool, s: string)
    ensures var n := ScanBody(s, escaped);
            StuckAt(Quoted(escaped), s) == if n < |s| then n + 1 + StuckAt(Start, s[n + 1..]) else |s|
    decreases |s|
  {
    if s != "" && (escaped || s[0] != '"') {
      QuotedPassed(!escaped && s[0] == '\\', s[1..]);
      var n := ScanBody(s, escaped);
      assert n < |s| ==> s[1..][n..] == s[n + 1..];
    }
  }

  // ---- one call of the lexer ----

  /** Leading blanks are passed over. */
  lemma {:induction false} BlanksPassed(s: string)
    ensures var r := SkipSpace(s);
            StuckAt(Start, s) == |s| - |r| + StuckAt(Start, r) && r == s[|s| - |r|..]
  {
    if s != "" && IsSpace(s[0]) {
      BlanksPassed(s[1..]);
      var r := SkipSpace(s);
      assert s[1..][|s| - 1 - |r|..] == s[|s| - |r|..];
    }
  }

  /** A call that finds a token passes over it; a call that finds none is at the character, or at the end. */
  predicate Passes(s: string, l: Lexed) {
    && |l.rest| <= |s| && l.rest == s[|s| - |l.rest|..]
    && (l.tok != NoToken ==> StuckAt(Start, s) == |s| - |l.rest| + StuckAt(Start, l.rest))
    && (l.tok == NoToken ==> StuckAt(Start, s) == if l.rest == "" then |s| else 0)
    && (l.tok == NoToken && l.rest != "" ==> l.rest == s)
  }

  lemma {:induction false} CallPasses(s: string)
    requires s == "" || !IsSpace(s[0])
    ensures Passes(s, LexAt(s))
  {
    if s == "" {
    } else if s[0] == '-' || IsDigit(s[0]) {
      NumberPassed(s);
      hide StuckAt, NumberEnd;
    } else if s[0] == '"' {
      StringCallPasses(s);
      hide StuckAt, ScanBody;
    } else {
      OtherCallPasses(s);
      hide StuckAt, Passes;
    }
  }

  lemma {:induction false} StringCallPasses(s: string)
    requires s != "" && s[0] == '"'
    ensures var n := ScanBody(s[1..], false);
            StuckAt(Start, s) == if n < |s| - 1 then n + 2 + StuckAt(Start, s[n + 2..]) else |s|
  {
    QuotedPassed(false, s[1..]);
    var n := ScanBody(s[1..], false);
    if n < |s| - 1 {
      DropTwice(s, 1, n + 1);
    }
  }

  lemma {:induction false} OtherCallPasses(s: string)
    requires s != "" && !IsSpace(s[0]) && s[0] != '-' && !IsDigit(s[0]) && s[0] != '"'
    ensures Passes(s, LexAt(s))
  {
    OtherScanned(s);
    hide StuckAt;
  }

  lemma {:induction false} OtherScanned(s: string)
    requires s != "" && !IsSpace(s[0]) && s[0] != '-' && !IsDigit(s[0]) && s[0] != '"'
    ensures StuckAt(Start, s) ==
            if Structural(s[0]) then 1 + StuckAt(Start, s[1..])
            else if "true" <= s then 4 + StuckAt(Start, s[4..])
            else if "false" <= s then 5 + StuckAt(Start, s[5..])
            else if "null" <= s then 4 + StuckAt(Start, s[4..])
            else 0
  {
  }

  // ---- all calls ----

  /** What one call leaves, and where the scan then stands. */
  lemma {:induction false} LexPasses(s: string)
    ensures var l := Lex(s);
            && l.rest == s[|s| - |l.rest|..]
            && (l.tok != NoToken ==> StuckAt(Start, s) == |s| - |l.rest| + StuckAt(Start, l.rest))
            && (l.tok == EndOfText ==> StuckAt(Start, s) == |s|)
            && (l.tok == NoToken && l.rest == "" ==> StuckAt(Start, s) == |s|)
            && (l.tok == NoToken && l.rest != "" ==> StuckAt(Start, s) == |s| - |l.rest| && Lex(l.rest) == l)
  {
    hide LexAt, StuckAt;
    var r := SkipSpace(s);
    BlanksPassed(s);
    CallPasses(r);
    SkipSpaceTwice(s);
    var l := LexAt(r);
    DropTwice(s, |s| - |r|, |r| - |l.rest|);
    assert r == "" ==> l.rest == "" && StuckAt(Start, r) == 0 by { NothingLeft(); }
  }

  lemma {:induction false} NothingLeft()
    ensures LexAt("").rest == "" && StuckAt(Start, "") == 0
  {
  }

  /** The scan comes to the end exactly when the stream of tokens does not end stuck. */
  lemma {:induction false} ScanIsEnding(s: string)
    ensures StuckAt(Start, s) < |s| <==> Ending(StreamOf(s)) == Stuck
    decreases |s|
  {
    LexPasses(s);
    hide Lex, StuckAt;
    if StreamOf(s).Cons? {
      ScanIsEnding(Lex(s).rest);
    }
  }

  /** From the n-th call on the lexer finds no token, and leaves the text from the stuck character unread. */
  ghost predicate CaughtFrom(s: string, n: nat) {
    forall m: nat | m >= n :: After(s, m) == s[StuckAt(Start, s)..] && Lex(After(s, m)).tok == NoToken
  }

  /** Calls of the lexer until the stuck character is reached. */
  lemma {:induction false} StuckThere(s: string) returns (n: nat)
    requires StuckAt(Start, s) < |s|
    ensures CaughtFrom(s, n)
    decreases |s|
  {
    LexPasses(s);
    var l := Lex(s);
    if l.tok == NoToken {
      hide Lex, StuckAt;
      n := 1;
      forall m: nat | m >= 1 ensures After(s, m) == l.rest {
        StaysThere(l.rest, m - 1);
      }
    } else {
      NextIsLex(s);
      hide Lex, StuckAt;
      n := StuckThere(l.rest);
      n := n + 1;
      forall m: nat | m >= n
        ensures After(s, m) == s[StuckAt(Start, s)..] && Lex(After(s, m)).tok == NoToken
      {
        assert After(s, m) == After(l.rest, m - 1);
        DropTwice(s, |s| - |l.rest|, StuckAt(Start, l.rest));
      }
    }
  }

  lemma {:induction false} StaysThere(r: string, m: nat)
    requires Lex(r).rest == r
    ensures After(r, m) == r
    decreases m
  {
    hide Lex;
    if m > 0 {
      StaysThere(r, m - 1);
    }
  }

  /**
   * A loop that lexes until the end of the text, such as the statistics loop, ends exactly when no character of the
   * text stands where a token should start and begins none. Otherwise all calls from some time on find no token and
   * leave the text from the first such character unread.
   */
  lemma {:induction false} LexingLoopEnds(s: string)
    ensures (exists n: nat :: Lex(After(s, n)).tok == EndOfText) <==> StuckAt(Start, s) == |s|
    ensures StuckAt(Start, s) < |s| ==> exists n: nat :: CaughtFrom(s, n)
  {
    ScanIsEnding(s);
    EndsUnlessStuck(s);
    hide Lex, StuckAt;
    if StuckAt(Start, s) < |s| {
      var n := StuckThere(s);
    }
  }

  /** A text that is never read to its end: its letter begins no token. */
  lemma {:induction false} LoopHangs()
    ensures StuckAt(Start, "[x]") == 1 && !exists n: nat :: Lex(After("[x]", n)).tok == EndOfText
  {
    hide Lex;
    LexingLoopEnds("[x]");
    assert "[x]"[1..] == "x]";
    assert StuckAt(Start, "x]") == 0;
  }
}
