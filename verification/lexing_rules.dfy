/** What one call of the lexer reads from any text, well-formed or not, said of the text alone. */
module LexingRules {
  import opened Chars
  import opened Lexer
  import opened TokenStream
  import opened Layout
  import opened Decimal

  // ---- strings ----

  /** How many backslashes stand directly in front of position `i`. */
  function SlashesBefore(s: string, i: nat): (n: nat)
    requires i <= |s|
    ensures n <= i
  {
    if i == 0 || s[i - 1] != '\\' then 0 else 1 + SlashesBefore(s, i - 1)
  }

  /** The quote at `i` closes a string: an even number of backslashes stands in front of it. */
  predicate Closing(s: string, i: nat) {
    i < |s| && s[i] == '"' && SlashesBefore(s, i) % 2 == 0
  }

  lemma {:induction false} SlashesTail(s: string, i: nat)
    requires 0 < i <= |s|
    ensures SlashesBefore(s, i) == SlashesBefore(s[1..], i - 1)
                                   + if SlashesBefore(s[1..], i - 1) == i - 1 && s[0] == '\\' then 1 else 0
    decreases i
  {
    if i > 1 && s[i - 1] == '\\' {
      SlashesTail(s, i - 1);
    }
  }

  /** The scan stops at position `i` of the rest of a body: escaped or not at its beginning. */
  predicate Stops(s: string, escaped: bool, i: nat) {
    && i < |s| && s[i] == '"'
    && var n := SlashesBefore(s, i); (if n == i && escaped then n + 1 else n) % 2 == 0
  }

  lemma {:induction false} StopsTail(s: string, escaped: bool, i: nat)
    requires 0 < i < |s| && (escaped || s[0] != '"')
    ensures Stops(s, escaped, i) <==> Stops(s[1..], !escaped && s[0] == '\\', i - 1)
  {
    SlashesTail(s, i);
  }

  lemma {:induction false} ScanStops(s: string, escaped: bool)
    ensures var n := ScanBody(s, escaped);
            && (n < |s| ==> Stops(s, escaped, n))
            && forall i | 0 <= i < n :: !Stops(s, escaped, i)
    decreases s
  {
    if s != "" && (escaped || s[0] != '"') {
      var next := !escaped && s[0] == '\\';
      ScanStops(s[1..], next);
      var n := ScanBody(s, escaped);
      if n < |s| {
        StopsTail(s, escaped, n);
      }
      forall i | 0 <= i < n ensures !Stops(s, escaped, i) {
        if i > 0 {
          StopsTail(s, escaped, i);
        }
      }
    }
  }

  /** A string runs to the first quote that no backslash escapes. */
  lemma {:induction false} BodyExactly(s: string)
    ensures var n := ScanBody(s, false);
            && (n < |s| ==> Closing(s, n))
            && forall i | 0 <= i < n :: !Closing(s, i)
  {
    ScanStops(s, false);
    forall i ensures Closing(s, i) <==> Stops(s, false, i) {
    }
  }

  // ---- numbers ----

  /** The text cannot go on with a digit. */
  predicate NoDigit(r: string) {
    r == "" || !IsDigit(r[0])
  }

  /** Nothing, or a point and the digits behind it. */
  predicate IsFraction(f: string) {
    f == "" || (f[0] == '.' && AllDigits(f[1..]))
  }

  /** Nothing, or a letter e, a sign if there is one, and the digits behind it. */
  predicate IsExponent(e: string) {
    || e == ""
    || (e[0] in {'e', 'E'} && (AllDigits(e[1..]) || (|e| > 1 && e[1] in {'+', '-'} && AllDigits(e[2..]))))
  }

  /** `d`, `f` and `e` go as far as they can in front of `r`. */
  predicate GoesOn(d: string, f: string, e: string, r: string) {
    && NoDigit(f + e + r) && NoDigit(e + r) && NoDigit(r)
    && (f == "" && e + r != "" ==> (e + r)[0] != '.')
    && (e == "" && r != "" ==> r[0] !in {'e', 'E'})
    && (|e| == 1 && r != "" ==> r[0] !in {'+', '-'})
  }

  /** A sign, digits, fraction and exponent in front of `r`, any of which may be missing. */
  predicate NumberIn(s: string, sign: string, d: string, f: string, e: string, r: string) {
    && s == sign + (d + (f + (e + r)))
    && sign in {"", "-"} && AllDigits(d) && IsFraction(f) && IsExponent(e) && GoesOn(d, f, e, r)
    && (sign == "" && d == "" && f + e + r != "" ==> (f + e + r)[0] != '-')
  }

  lemma {:induction false} DigitsOf(d: string, r: string)
    requires AllDigits(d) && NoDigit(r)
    ensures Digits(d + r) == |d|
    decreases d
  {
    if d == "" {
      assert d + r == r;
    } else {
      Peel(d, r);
      assert d[0] in d && forall c | c in d[1..] :: c in d;
      DigitsOf(d[1..], r);
    }
  }

  lemma {:induction false} FractionOf(f: string, r: string)
    requires IsFraction(f) && NoDigit(r) && (f == "" && r != "" ==> r[0] != '.')
    ensures FractionEnd(f + r) == |f|
  {
    if f == "" {
      assert f + r == r;
    } else {
      assert (f + r)[0] == f[0] && (f + r)[1..] == f[1..] + r;
      DigitsOf(f[1..], r);
    }
  }

  lemma {:induction false} ExponentOf(e: string, r: string)
    requires IsExponent(e) && NoDigit(r) && (e == "" && r != "" ==> r[0] !in {'e', 'E'})
    requires |e| == 1 && r != "" ==> r[0] !in {'+', '-'}
    ensures ExponentEnd(e + r) == |e|
  {
    if e == "" {
      assert e + r == r;
    } else {
      assert (e + r)[0] == e[0];
      if |e| > 1 && e[1] in {'+', '-'} {
        assert e[1..][0] in e[1..];
        assert (e + r)[1] == e[1] && (e + r)[2..] == e[2..] + r;
        DigitsOf(e[2..], r);
      } else {
        assert (e + r)[1..] == e[1..] + r;
        assert |e + r| > 1 ==> (e + r)[1] == (e[1..] + r)[0];
        assert |e| > 1 ==> e[1..][0] in e[1..];
        DigitsOf(e[1..], r);
      }
    }
  }

  lemma {:induction false} IntegerOf(sign: string, d: string, r: string)
    requires sign in {"", "-"} && AllDigits(d) && NoDigit(r) && (sign == "" && d == "" && r != "" ==> r[0] != '-')
    ensures IntegerEnd(sign + (d + r)) == |sign| + |d|
  {
    var s := sign + (d + r);
    assert s[|sign|..] == d + r;
    assert d != "" ==> d[0] in d && (d + r)[0] == d[0];
    assert d == "" ==> d + r == r;
    DigitsOf(d, r);
  }

  lemma {:induction false} Cuts(sign: string, d: string, f: string, e: string, r: string)
    ensures var s := sign + (d + (f + (e + r)));
            && s[|sign| + |d|..] == f + (e + r) && s[|sign| + |d| + |f|..] == e + r
            && f + e + r == f + (e + r)
  {
    var s, y, z := sign + (d + (f + (e + r))), f + (e + r), e + r;
    assert s == (sign + d) + y;
    assert s == (sign + d + f) + z;
  }

  lemma {:induction false} NumberInEnds(s: string, sign: string, d: string, f: string, e: string, r: string)
    requires NumberIn(s, sign, d, f, e, r)
    ensures NumberEnd(s) == |sign| + |d| + |f| + |e|
  {
    var m := |sign| + |d|;
    var n := m + |f|;
    Cuts(sign, d, f, e, r);
    assert s[m..] == f + (e + r) && s[n..] == e + r;
    IntegerOf(sign, d, f + (e + r));
    FractionOf(f, e + r);
    ExponentOf(e, r);
    hide IntegerEnd, FractionEnd, ExponentEnd, AllDigits, IsFraction, IsExponent, GoesOn;
    NumberEndParts(s, m, n);
  }

  lemma {:induction false} Rejoined(s: string, sign: string, d: string, f: string, e: string, r: string, u: string, v: string, w: string)
    requires s == sign + u && u == d + v && v == f + w && w == e + r
    ensures s == sign + (d + (f + (e + r))) && f + e + r == v && e + r == w
  {
  }

  lemma {:induction false} SignCut(s: string) returns (sign: string, d: string, v: string)
    ensures sign in {"", "-"} && AllDigits(d) && NoDigit(v) && s == sign + (d + v)
    ensures sign == "" && d == "" && v != "" ==> v[0] != '-'
  {
    sign := if s != "" && s[0] == '-' then "-" else "";
    var u := s[|sign|..];
    d, v := u[..Digits(u)], u[Digits(u)..];
    assert u == d + v && s == sign + u;
    assert d == "" ==> u == v;
  }

  /** Every text can be cut so. */
  lemma {:induction false} EveryNumber(s: string) returns (sign: string, d: string, f: string, e: string, r: string)
    ensures NumberIn(s, sign, d, f, e, r)
  {
    var v, w;
    sign, d, v := SignCut(s);
    f, w := FractionCut(v);
    e, r := ExponentCut(w);
    hide AllDigits, IsFraction, IsExponent;
    Rejoined(s, sign, d, f, e, r, d + v, v, w);
  }

  lemma {:induction false} FractionCut(v: string) returns (f: string, w: string)
    requires NoDigit(v)
    ensures v == f + w && IsFraction(f) && NoDigit(w) && (f == "" && w != "" ==> w[0] != '.')
  {
    f, w := v[..FractionEnd(v)], v[FractionEnd(v)..];
    if v != "" && v[0] == '.' {
      var n := Digits(v[1..]);
      assert v[..1 + n][1..] == v[1..][..n];
      assert 1 + n < |v| ==> v[1 + n] == v[1..][n];
    }
  }

  lemma {:induction false} ExponentCut(w: string) returns (e: string, r: string)
    requires NoDigit(w)
    ensures w == e + r && IsExponent(e) && NoDigit(r) && (e == "" && r != "" ==> r[0] !in {'e', 'E'})
    ensures |e| == 1 && r != "" ==> r[0] !in {'+', '-'}
  {
    e, r := w[..ExponentEnd(w)], w[ExponentEnd(w)..];
    if w != "" && w[0] in {'e', 'E'} {
      var sign := if |w| > 1 && w[1] in {'+', '-'} then 1 else 0;
      var n := Digits(w[1 + sign..]);
      assert ExponentEnd(w) == 1 + sign + n;
      assert e[1 + sign..] == w[1 + sign..][..n];
      assert 1 + sign + n < |w| ==> w[1 + sign + n] == w[1 + sign..][n];
    }
  }

  /** A number is a sign, digits, a fraction and an exponent, each as far as it goes, in any text. */
  lemma {:induction false} NumberExactly(s: string, n: nat)
    ensures NumberEnd(s) == n
            <==> exists sign, d, f, e, r :: NumberIn(s, sign, d, f, e, r) && n == |sign| + |d| + |f| + |e|
  {
    hide NumberEnd, NumberIn;
    var a, b, c, g, r0 := EveryNumber(s);
    NumberInEnds(s, a, b, c, g, r0);
    forall sign, d, f, e, r | NumberIn(s, sign, d, f, e, r) ensures NumberEnd(s) == |sign| + |d| + |f| + |e| {
      NumberInEnds(s, sign, d, f, e, r);
    }
  }

  // ---- tokens ----

  predicate StartsNumber(x: string) {
    x != "" && (x[0] == '-' || IsDigit(x[0]))
  }

  /** Some token begins here, be it a string that is never closed. */
  predicate StartsToken(x: string) {
    || x == "" || StartsNumber(x) || x[0] in {'{', '}', '[', ']', ':', ',', '"'}
    || "true" <= x || "false" <= x || "null" <= x
  }

  /** Position `n` of the text holds the first quote that closes a string. */
  predicate FirstClosing(s: string, n: nat) {
    Closing(s, n) && forall i | 0 <= i < n :: !Closing(s, i)
  }

  /** What the lexer takes of a text that begins with no white space. */
  ghost predicate TokenAt(x: string, tok: Token, rest: string) {
    match tok
    case EndOfText => x == "" && rest == ""
    case ObjectStart => x == "{" + rest
    case ObjectEnd => x == "}" + rest
    case ArrayStart => x == "[" + rest
    case ArrayEnd => x == "]" + rest
    case Colon => x == ":" + rest
    case Comma => x == "," + rest
    case Boolean(b) => x == (if b then "true" else "false") + rest
    case Null => x == "null" + rest
    case Number(t) =>
      StartsNumber(x) && exists sign, d, f, e :: NumberIn(x, sign, d, f, e, rest) && t == sign + (d + (f + e))
    case Str(v) =>
      && x != "" && x[0] == '"'
      && exists n :: 0 <= n < |x| && FirstClosing(x[1..], n) && v == CStr(x[1..][..n]) && rest == x[1..][n + 1..]
    case NoToken =>
      if x != "" && x[0] == '"' then rest == "" && forall i | 0 <= i < |x| - 1 :: !Closing(x[1..], i)
      else !StartsToken(x) && rest == x
  }

  /** White space is passed over; then one token is taken. */
  ghost predicate TokenIn(s: string, tok: Token, rest: string) {
    exists w, x :: s == w + x && AllSpace(w) && (x == "" || !IsSpace(x[0])) && TokenAt(x, tok, rest)
  }

  lemma {:induction false} QuotedAt(x: string)
    requires x != "" && x[0] == '"'
    ensures TokenAt(x, LexAt(x).tok, LexAt(x).rest)
    ensures forall tok, rest | TokenAt(x, tok, rest) :: LexAt(x) == Lexed(tok, rest)
  {
    var n := ScanBody(x[1..], false);
    BodyExactly(x[1..]);
    hide ScanBody, Closing;
    if n < |x| - 1 {
      assert FirstClosing(x[1..], n);
      assert x[1..1 + n] == x[1..][..n] && x[n + 2..] == x[1..][n + 1..];
      forall m | 0 <= m < |x| && FirstClosing(x[1..], m) ensures m == n {
      }
    }
    forall tok, rest | TokenAt(x, tok, rest) ensures tok.Str? || tok.NoToken? {
      FirstChar(x, tok, rest);
    }
  }

  lemma {:induction false} FirstChar(x: string, tok: Token, rest: string)
    requires TokenAt(x, tok, rest) && x != ""
    ensures match tok
            case EndOfText => false
            case ObjectStart => x[0] == '{'
            case ObjectEnd => x[0] == '}'
            case ArrayStart => x[0] == '['
            case ArrayEnd => x[0] == ']'
            case Colon => x[0] == ':'
            case Comma => x[0] == ','
            case Boolean(b) => x[0] == if b then 't' else 'f'
            case Null => x[0] == 'n'
            case Number(_) => x[0] == '-' || IsDigit(x[0])
            case _ => true
  {
  }

  lemma {:induction false} NumberTaken(x: string)
    requires StartsNumber(x)
    ensures LexAt(x) == Lexed(Number(x[..NumberEnd(x)]), x[NumberEnd(x)..])
    ensures TokenAt(x, Number(x[..NumberEnd(x)]), x[NumberEnd(x)..])
  {
    var a, b, c, g, r := EveryNumber(x);
    NumberInEnds(x, a, b, c, g, r);
    NumberText(x, a, b, c, g, r);
    hide NumberEnd, NumberIn;
  }

  lemma {:induction false} NumberOnly(x: string, tok: Token, rest: string)
    requires StartsNumber(x) && TokenAt(x, tok, rest)
    ensures Lexed(tok, rest) == Lexed(Number(x[..NumberEnd(x)]), x[NumberEnd(x)..])
  {
    hide NumberEnd, NumberIn;
    FirstChar(x, tok, rest);
    if tok.Number? {
      var sign, d, f, e :| NumberIn(x, sign, d, f, e, rest) && tok.text == sign + (d + (f + e));
      NumberInEnds(x, sign, d, f, e, rest);
      NumberText(x, sign, d, f, e, rest);
    }
  }

  lemma {:induction false} NumberAt(x: string)
    requires StartsNumber(x)
    ensures TokenAt(x, LexAt(x).tok, LexAt(x).rest)
    ensures forall tok, rest | TokenAt(x, tok, rest) :: LexAt(x) == Lexed(tok, rest)
  {
    NumberTaken(x);
    hide LexAt, TokenAt, NumberEnd;
    forall tok, rest | TokenAt(x, tok, rest) ensures LexAt(x) == Lexed(tok, rest) {
      NumberOnly(x, tok, rest);
    }
  }

  lemma {:induction false} NumberText(x: string, sign: string, d: string, f: string, e: string, r: string)
    requires NumberIn(x, sign, d, f, e, r)
    ensures var t := sign + (d + (f + e)); |t| == |sign| + |d| + |f| + |e| && x[..|t|] == t && x[|t|..] == r
  {
    var t := sign + (d + (f + e));
    assert x == t + r;
  }

  lemma {:induction false} CutOff(w: string, x: string)
    ensures w <= x ==> x == w + x[|w|..]
    ensures forall r | x == w + r :: w <= x && x[|w|..] == r
  {
  }

  lemma {:induction false} OtherTaken(x: string)
    requires !StartsNumber(x) && (x == "" || x[0] != '"')
    ensures TokenAt(x, LexAt(x).tok, LexAt(x).rest)
  {
    hide NumberEnd, ScanBody, NumberIn;
    if x != "" {
      CutOff([x[0]], x);
      CutOff("true", x);
      CutOff("false", x);
      CutOff("null", x);
    }
  }

  lemma {:induction false} OtherOnly(x: string, tok: Token, rest: string)
    requires !StartsNumber(x) && (x == "" || x[0] != '"') && TokenAt(x, tok, rest)
    ensures LexAt(x) == Lexed(tok, rest)
  {
    hide NumberEnd, ScanBody, NumberIn;
    if x != "" {
      FirstChar(x, tok, rest);
      CutOff([x[0]], x);
      CutOff("true", x);
      CutOff("false", x);
      CutOff("null", x);
    }
  }

  lemma {:induction false} OtherAt(x: string)
    requires !StartsNumber(x) && (x == "" || x[0] != '"')
    ensures TokenAt(x, LexAt(x).tok, LexAt(x).rest)
    ensures forall tok, rest | TokenAt(x, tok, rest) :: LexAt(x) == Lexed(tok, rest)
  {
    hide LexAt, TokenAt;
    OtherTaken(x);
    forall tok, rest | TokenAt(x, tok, rest) ensures LexAt(x) == Lexed(tok, rest) {
      OtherOnly(x, tok, rest);
    }
  }

  /** One call of the lexer reads exactly this, on every text. */
  lemma {:induction false} LexExactly(s: string, tok: Token, rest: string)
    ensures Lex(s) == Lexed(tok, rest) <==> TokenIn(s, tok, rest)
  {
    hide LexAt, TokenAt;
    forall x: string
      ensures TokenAt(x, LexAt(x).tok, LexAt(x).rest)
      ensures forall t, r | TokenAt(x, t, r) :: LexAt(x) == Lexed(t, r)
    {
      if StartsNumber(x) {
        NumberAt(x);
      } else if x != "" && x[0] == '"' {
        QuotedAt(x);
      } else {
        OtherAt(x);
      }
    }
    var v := SpaceInFront(s);
    var x := SkipSpace(s);
    assert TokenAt(x, LexAt(x).tok, LexAt(x).rest);
    forall w, y | s == w + y && AllSpace(w) && (y == "" || !IsSpace(y[0])) ensures SkipSpace(s) == y {
      SkipSpaceOver(w, y);
    }
  }
}
