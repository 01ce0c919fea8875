/** Minify and pretty-print: two character machines that track whether they are inside a string. */
module Transform {
  import opened Chars
  import opened Lexer
  import opened TokenStream
  import opened Layout
  import opened Json

  /** The two flags both loops carry. */
  datatype Mode = Mode(inString: bool, escaped: bool)

  const START := Mode(false, false)

  function Step(m: Mode, c: char): (n: Mode) {
    if !m.inString then Mode(c == '"', m.escaped)
    else Mode(m.escaped || c != '"', c == '\\' && !m.escaped)
  }

  function Run(m: Mode, s: string): (n: Mode)
    decreases s
  {
    if s == "" then m else Run(Step(m, s[0]), s[1..])
  }

  // ---- minify ----

  predicate Kept(m: Mode, c: char) {
    m.inString || !IsSpace(c)
  }

  function Minify(m: Mode, s: string): (r: string)
    ensures |r| <= |s|
    decreases s
  {
    if s == "" then ""
    else (if Kept(m, s[0]) then [s[0]] else "") + Minify(Step(m, s[0]), s[1..])
  }

  lemma {:induction false} MinifyPlus(m: Mode, a: string, b: string)
    ensures Minify(m, a + b) == Minify(m, a) + Minify(Run(m, a), b)
    ensures Run(m, a + b) == Run(Run(m, a), b)
    decreases a
  {
    if a == "" {
      assert a + b == b;
    } else {
      assert (a + b)[1..] == a[1..] + b;
      MinifyPlus(Step(m, a[0]), a[1..], b);
    }
  }

  /** White space outside strings is dropped and does not move the machine. */
  lemma {:induction false} MinifySpace(m: Mode, w: string)
    requires AllSpace(w) && !m.inString
    ensures Minify(m, w) == "" && Run(m, w) == m
  {
    if w != "" {
      assert w[0] in w;
      assert Step(m, w[0]) == m;
      MinifySpace(m, w[1..]);
    }
  }

  /** Minifying twice is minifying once, on every text, JSON or not. */
  lemma {:induction false} MinifyIdempotent(m: Mode, s: string)
    ensures Minify(m, Minify(m, s)) == Minify(m, s)
    decreases |s|
  {
    if s != "" {
      var n := Step(m, s[0]);
      var r := Minify(n, s[1..]);
      MinifyIdempotent(n, s[1..]);
      if Kept(m, s[0]) {
        assert ([s[0]] + r)[1..] == r;
      } else {
        assert n == m;
        assert Minify(m, s) == r;
      }
    }
  }

  lemma {:induction false} MinifyBody(v: string, k: string, escaped: bool)
    requires ScanBody(v + "\"", escaped) == |v|
    ensures Minify(Mode(true, escaped), v + "\"" + k) == v + "\"" + Minify(START, k)
  {
    var s := v + "\"" + k;
    if v == "" {
      assert s == "\"" + k && s[1..] == k;
    } else {
      PeelQuoted(v, k);
      PeelQuoted(v, Minify(START, k));
      MinifyBody(v[1..], k, !escaped && v[0] == '\\');
    }
  }

  /** Characters that are neither white space nor quotes are kept as they are. */
  lemma {:induction false} MinifyPlain(x: string, k: string)
    requires forall c | c in x :: !IsSpace(c) && c != '"'
    ensures Minify(START, x + k) == x + Minify(START, k)
  {
    if x == "" {
      assert x + k == k;
    } else {
      assert x[0] in x;
      assert (x + k)[1..] == x[1..] + k;
      MinifyPlain(x[1..], k);
    }
  }

  predicate NumberChar(c: char) {
    IsDigit(c) || c in {'.', 'e', 'E', '+', '-'}
  }

  lemma {:induction false} DigitChars(s: string, i: nat)
    requires i <= |s|
    ensures forall c | c in s[i..i + Digits(s[i..])] :: NumberChar(c)
  {
    var n := Digits(s[i..]);
    assert s[i..i + n] == s[i..][..n];
  }

  lemma {:induction false} IntegerChars(s: string)
    ensures forall c | c in s[..IntegerEnd(s)] :: NumberChar(c)
  {
    var sign := if s != "" && s[0] == '-' then 1 else 0;
    DigitChars(s, sign);
    assert s[..IntegerEnd(s)] == s[..sign] + s[sign..IntegerEnd(s)];
  }

  lemma {:induction false} FractionChars(s: string)
    ensures forall c | c in s[..FractionEnd(s)] :: NumberChar(c)
  {
    if s != "" && s[0] == '.' {
      DigitChars(s, 1);
      assert s[..FractionEnd(s)] == s[..1] + s[1..FractionEnd(s)];
    }
  }

  lemma {:induction false} ExponentChars(s: string)
    ensures forall c | c in s[..ExponentEnd(s)] :: NumberChar(c)
  {
    if s != "" && (s[0] == 'e' || s[0] == 'E') {
      var n := if |s| > 1 && (s[1] == '+' || s[1] == '-') then 2 else 1;
      DigitChars(s, n);
      assert s[..ExponentEnd(s)] == s[..1] + s[1..n] + s[n..ExponentEnd(s)];
    }
  }

  predicate AllNumberChars(s: string) {
    forall c | c in s :: NumberChar(c)
  }

  lemma {:induction false} ThreeParts(s: string, i: nat, f: nat, n: nat)
    requires i <= f <= n <= |s|
    requires AllNumberChars(s[..i]) && AllNumberChars(s[i..][..f - i]) && AllNumberChars(s[f..][..n - f])
    ensures AllNumberChars(s[..n])
  {
    assert s[..n] == s[..i] + s[i..][..f - i] + s[f..][..n - f];
  }

  lemma {:induction false} NumberChars(s: string)
    ensures AllNumberChars(s[..NumberEnd(s)])
  {
    var i := IntegerEnd(s);
    var f := i + FractionEnd(s[i..]);
    assert NumberEnd(s) == f + ExponentEnd(s[f..]) by { NumberEndParts(s, i, f); }
    assert AllNumberChars(s[..i]) by { IntegerChars(s); }
    assert AllNumberChars(s[i..][..f - i]) by { FractionChars(s[i..]); }
    assert AllNumberChars(s[f..][..NumberEnd(s) - f]) by { ExponentChars(s[f..]); }
    ThreeParts(s, i, f, NumberEnd(s));
  }

  lemma {:induction false} NumberTextPlain(x: string)
    requires NumberLexeme(x)
    ensures forall c | c in x :: !IsSpace(c) && c != '"'
  {
    NumberChars(x);
    assert x[..NumberEnd(x)] == x;
  }

  lemma {:induction false} MinifyString(v: string, k: string)
    requires StringBody(v)
    ensures Minify(START, "\"" + v + "\"" + k) == "\"" + v + "\"" + Minify(START, k)
  {
    var r := v + "\"" + k;
    var s := "\"" + v + "\"" + k;
    MinifyBody(v, k, false);
    assert s[0] == '"' && s[1..] == r;
    assert Minify(START, s) == ['"'] + Minify(Mode(true, false), r);
  }

  lemma {:induction false} MinifyLexeme(t: Token, k: string)
    requires TokenOk(t)
    ensures Minify(START, Lexeme(t) + k) == Lexeme(t) + Minify(START, k)
  {
    if t.Str? {
      MinifyString(t.value, k);
    } else if t.Number? {
      NumberTextPlain(t.text);
      MinifyPlain(t.text, k);
    } else {
      MinifyPlain(Lexeme(t), k);
    }
  }

  /** The layout without its white space. */
  function Compact(ps: seq<Piece>): (qs: seq<Piece>)
    ensures forall p | p in qs :: p.Tok? && p in ps
  {
    if ps == [] then []
    else if ps[0].Tok? then [ps[0]] + Compact(ps[1..])
    else Compact(ps[1..])
  }

  lemma {:induction false} EmitCompact(ps: seq<Piece>, k: Stream)
    ensures Emit(Compact(ps), k) == Emit(ps, k)
  {
    if ps != [] {
      EmitCompact(ps[1..], k);
      if ps[0].Tok? {
        assert Compact(ps)[1..] == Compact(ps[1..]);
      }
    }
  }

  lemma {:induction false} MinifyText(ps: seq<Piece>)
    requires PiecesOk(ps)
    ensures Minify(START, Text(ps)) == Text(Compact(ps))
  {
    if ps != [] {
      var p, t := ps[0], Text(ps[1..]);
      assert p in ps;
      MinifyText(ps[1..]);
      if p.Ws? {
        MinifySpace(START, p.space);
        MinifyPlus(START, p.space, t);
      } else {
        MinifyLexeme(p.tok, t);
        assert Compact(ps)[1..] == Compact(ps[1..]);
      }
    }
  }

  /** The pieces of the compact printing of a stream of tokens. */
  function PiecesOf(st: Stream): (ps: seq<Piece>) {
    if st.Cons? then [Tok(st.head)] + PiecesOf(st.tail) else []
  }

  /** The compact printing of a tree: its lexemes and nothing between them. */
  function Print(j: Json): (s: string) {
    Text(PiecesOf(Toks(j, End)))
  }

  lemma {:induction false} CompactIsPiecesOf(ps: seq<Piece>)
    ensures Compact(ps) == PiecesOf(Emit(ps, End))
  {
    if ps != [] {
      CompactIsPiecesOf(ps[1..]);
    }
  }

  /**
   * Minify is layout-independent: every layout of a tree minifies to the tree's compact printing,
   * which lexes to the same tokens as the layout.
   */
  lemma {:induction false} MinifyLayout(ps: seq<Piece>, j: Json)
    requires IsLayout(ps, j) && PiecesOk(ps)
    ensures Minify(START, Text(ps)) == Print(j)
    ensures StreamOf(Minify(START, Text(ps))) == StreamOf(Text(ps)) == Toks(j, End)
    ensures IsLayout(Compact(ps), j)
  {
    MinifyText(ps);
    CompactIsPiecesOf(ps);
    EmitCompact(ps, End);
    LexLayout(ps, j, "");
    LexLayout(Compact(ps), j, "");
    assert Text(ps) + "" == Text(ps);
    assert Text(Compact(ps)) + "" == Text(Compact(ps));
  }

  lemma {:induction false} LexLoneNumber(x: string)
    requires NumberLexeme(x)
    ensures StreamOf(x) == Cons(Number(x), End)
  {
    assert x + "" == x;
    LexNumber(x, "");
  }

  lemma {:induction false} LexemeOfDigits(x: string)
    requires x != "" && AllDigits(x)
    ensures NumberLexeme(x)
  {
    assert x[0] in x;
    DigitsOfAll(x);
  }

  /** Off JSON the tokens can change: minifying joins two numbers. */
  lemma {:induction false} MinifyJoinsNumbers()
    ensures Minify(START, "1" + " " + "2") == "12"
    ensures StreamOf("1" + " " + "2") == Cons(Number("1"), Cons(Number("2"), End))
    ensures StreamOf("12") == Cons(Number("12"), End)
  {
    hide NumberEnd, LexAt;
    assert NumberLexeme("1") && NumberLexeme("2") && NumberLexeme("12") by {
      LexemeOfDigits("1");
      LexemeOfDigits("2");
      LexemeOfDigits("12");
    }
    assert Minify(START, "1" + " " + "2") == "12" by {
      MinifyPlain("1", " " + "2");
      assert "1" + (" " + "2") == "1" + " " + "2";
      MinifyPlus(START, " ", "2");
      MinifySpace(START, " ");
      MinifyPlain("2", "");
      assert "2" + "" == "2";
    }
    assert StreamOf("1" + " " + "2") == Cons(Number("1"), Cons(Number("2"), End)) by {
      LexNumber("1", " " + "2");
      assert "1" + (" " + "2") == "1" + " " + "2";
      LexOverSpace(" ", "2");
      LexLoneNumber("2");
    }
    LexLoneNumber("12");
  }

  lemma {:induction false} MinifyNext(m: Mode, s: string, i: nat, out: string, all: string)
    requires i < |s|
    requires out + Minify(m, s[i..]) == all
    ensures (if Kept(m, s[i]) then out + [s[i]] else out) + Minify(Step(m, s[i]), s[i + 1..]) == all
  {
    assert s[i..][1..] == s[i + 1..];
  }

  /** The minifying loop. Its output always fits, with its terminator, in a buffer of the input's size. */
  method Compress(json: string) returns (compressed: array<char>, j: nat)
    ensures fresh(compressed) && compressed.Length == |json| + 1
    ensures j <= |json| && compressed[j] == '\0'
    ensures compressed[..j] == Minify(START, json)
  {
    compressed := new char[|json| + 1];
    j := 0;
    var inString, escaped := false, false;
    ghost var out, mode := "", START;
    for i := 0 to |json|
      invariant j <= i
      invariant mode == Mode(inString, escaped) && compressed[..j] == out
      invariant out + Minify(mode, json[i..]) == Minify(START, json)
    {
      var c := json[i];
      MinifyNext(mode, json, i, out, Minify(START, json));
      if !inString {
        if !IsSpace(c) {
          compressed[j] := c;
          j := j + 1;
          if c == '"' {
            inString := true;
          }
        }
      } else {
        compressed[j] := c;
        j := j + 1;
        if !escaped && c == '"' {
          inString := false;
        }
        escaped := c == '\\' && !escaped;
      }
      out := if Kept(mode, c) then out + [c] else out;
      mode := Step(mode, c);
    }
    compressed[j] := '\0';
  }
}
