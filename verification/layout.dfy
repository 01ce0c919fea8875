/** Texts as lexemes with white space between them, and what the lexer makes of such texts. */
module Layout {
  import opened Chars
  import opened Lexer
  import opened TokenStream

  type Blank = s: string | AllSpace(s)

  /** White space, or one lexeme. */
  datatype Piece = Ws(space: Blank) | Tok(tok: Token)

  function Lexeme(t: Token): (s: string) {
    match t
    case ObjectStart => "{"
    case ObjectEnd => "}"
    case ArrayStart => "["
    case ArrayEnd => "]"
    case Colon => ":"
    case Comma => ","
    case Str(v) => "\"" + v + "\""
    case Number(x) => x
    case Boolean(b) => if b then "true" else "false"
    case Null => "null"
    case NoToken => ""
    case EndOfText => ""
  }

  /** No quote inside the body closes it early, and its last backslash does not escape the closing quote. */
  predicate StringBody(v: string) {
    NulFree(v) && ScanBody(v + "\"", false) == |v|
  }

  predicate NumberLexeme(x: string) {
    x != "" && (x[0] == '-' || IsDigit(x[0])) && NumberEnd(x) == |x|
  }

  predicate TokenOk(t: Token) {
    match t
    case Str(v) => StringBody(v)
    case Number(x) => NumberLexeme(x)
    case NoToken => false
    case EndOfText => false
    case _ => true
  }

  predicate PieceOk(p: Piece) {
    p.Tok? ==> TokenOk(p.tok)
  }

  predicate PiecesOk(ps: seq<Piece>) {
    forall p | p in ps :: PieceOk(p)
  }

  function PieceText(p: Piece): (s: string) {
    match p
    case Ws(w) => w
    case Tok(t) => Lexeme(t)
  }

  function Text(ps: seq<Piece>): (s: string) {
    if ps == [] then "" else PieceText(ps[0]) + Text(ps[1..])
  }

  /** The tokens of `ps`, in front of the stream `k`. */
  function Emit(ps: seq<Piece>, k: Stream): (st: Stream) {
    if ps == [] then k
    else match ps[0]
         case Ws(_) => Emit(ps[1..], k)
         case Tok(t) => Cons(t, Emit(ps[1..], k))
  }

  /** No number directly follows a number in the token stream. */
  predicate NumbersApart(st: Stream) {
    st.Cons? ==>
      && NumbersApart(st.tail)
      && !(st.head.Number? && st.tail.Cons? && st.tail.head.Number?)
  }

  /** `k` cannot prolong a number that ends in front of it. */
  predicate NumberStops(k: string) {
    k == "" || !(IsDigit(k[0]) || k[0] in {'.', 'e', 'E', '+', '-'})
  }

  // ---- concatenation ----

  lemma {:induction false} TextPlus(ps: seq<Piece>, qs: seq<Piece>)
    ensures Text(ps + qs) == Text(ps) + Text(qs)
  {
    if ps == [] {
      assert ps + qs == qs;
    } else {
      assert (ps + qs)[1..] == ps[1..] + qs;
      TextPlus(ps[1..], qs);
    }
  }

  lemma {:induction false} EmitPlus(ps: seq<Piece>, qs: seq<Piece>, k: Stream)
    ensures Emit(ps + qs, k) == Emit(ps, Emit(qs, k))
  {
    if ps == [] {
      assert ps + qs == qs;
    } else {
      assert (ps + qs)[1..] == ps[1..] + qs;
      EmitPlus(ps[1..], qs, k);
    }
  }

  // ---- one lexeme ----

  lemma {:induction false} SkipSpaceOver(w: string, s: string)
    requires AllSpace(w)
    ensures SkipSpace(w + s) == SkipSpace(s)
  {
    if w == "" {
      assert w + s == s;
    } else {
      assert (w + s)[1..] == w[1..] + s;
      SkipSpaceOver(w[1..], s);
    }
  }

  lemma {:induction false} PeelQuoted(v: string, k: string)
    requires v != ""
    ensures (v + "\"")[0] == (v + "\"" + k)[0] == v[0]
    ensures (v + "\"")[1..] == v[1..] + "\""
    ensures (v + "\"" + k)[1..] == v[1..] + "\"" + k
    ensures v + "\"" + k == [v[0]] + (v[1..] + "\"" + k)
  {
  }

  lemma {:induction false} ScanBodyStops(v: string, k: string, escaped: bool)
    requires ScanBody(v + "\"", escaped) == |v|
    ensures ScanBody(v + "\"" + k, escaped) == |v|
  {
    if v == "" {
      assert v + "\"" + k == "\"" + k;
    } else {
      PeelQuoted(v, k);
      ScanBodyStops(v[1..], k, !escaped && v[0] == '\\');
    }
  }

  lemma {:induction false} DigitsStop(x: string, k: string)
    requires k == "" || !IsDigit(k[0])
    ensures Digits(x + k) == Digits(x)
  {
    if x == "" {
      assert x + k == k;
    } else {
      assert (x + k)[1..] == x[1..] + k;
      DigitsStop(x[1..], k);
    }
  }

  lemma {:induction false} FractionStops(x: string, k: string)
    requires NumberStops(k)
    ensures FractionEnd(x + k) == FractionEnd(x)
  {
    if x == "" {
      assert x + k == k;
    } else {
      assert (x + k)[1..] == x[1..] + k;
      DigitsStop(x[1..], k);
    }
  }

  lemma {:induction false} ExponentStops(x: string, k: string)
    requires NumberStops(k)
    ensures ExponentEnd(x + k) == ExponentEnd(x)
  {
    if x == "" {
      assert x + k == k;
    } else if x[0] == 'e' || x[0] == 'E' {
      assert |x| > 1 ==> (x + k)[1] == x[1];
      assert |x| == 1 && k != "" ==> (x + k)[1] == k[0];
      var sign := if |x| > 1 && (x[1] == '+' || x[1] == '-') then 1 else 0;
      assert (x + k)[1 + sign..] == x[1 + sign..] + k;
      DigitsStop(x[1 + sign..], k);
    }
  }

  lemma {:induction false} IntegerStops(x: string, k: string)
    requires NumberStops(k) && x != ""
    ensures IntegerEnd(x + k) == IntegerEnd(x)
  {
    var sign := if x[0] == '-' then 1 else 0;
    assert (x + k)[0] == x[0];
    assert (x + k)[sign..] == x[sign..] + k;
    DigitsStop(x[sign..], k);
  }

  lemma {:induction false} NumberEndParts(s: string, i: nat, f: nat)
    requires i == IntegerEnd(s) && i + FractionEnd(s[i..]) == f
    ensures f <= |s| && NumberEnd(s) == f + ExponentEnd(s[f..])
  {
  }

  lemma {:induction false} NumberEndStops(x: string, k: string)
    requires NumberStops(k) && x != ""
    ensures NumberEnd(x + k) == NumberEnd(x)
  {
    var s, i := x + k, IntegerEnd(x);
    var f := i + FractionEnd(x[i..]);
    assert s[i..] == x[i..] + k && s[f..] == x[f..] + k by {
      DropOfAppend(x, k, i);
      DropOfAppend(x, k, f);
    }
    assert IntegerEnd(s) == i by { IntegerStops(x, k); }
    assert FractionEnd(s[i..]) == FractionEnd(x[i..]) by { FractionStops(x[i..], k); }
    assert ExponentEnd(s[f..]) == ExponentEnd(x[f..]) by { ExponentStops(x[f..], k); }
    assert NumberEnd(x) == f + ExponentEnd(x[f..]) by { NumberEndParts(x, i, f); }
    assert NumberEnd(s) == f + ExponentEnd(s[f..]) by { NumberEndParts(s, i, f); }
  }

  lemma {:induction false} LexAtQuote(s: string, n: nat)
    requires s != "" && s[0] == '"' && n == ScanBody(s[1..], false) < |s| - 1
    ensures Lex(s) == Lexed(Str(CStr(s[1..1 + n])), s[n + 2..])
  {
    assert SkipSpace(s) == s;
  }

  lemma {:induction false} LexClosed(v: string, k: string)
    requires ScanBody(v + "\"", false) == |v|
    ensures Lex("\"" + v + "\"" + k) == Lexed(Str(CStr(v)), k)
  {
    var s := "\"" + v + "\"" + k;
    assert s[0] == '"' && s[1..] == v + "\"" + k;
    assert ScanBody(s[1..], false) == |v| by {
      ScanBodyStops(v, k, false);
    }
    assert s[1..1 + |v|] == v && s[|v| + 2..] == k;
    LexAtQuote(s, |v|);
  }

  lemma {:induction false} LexString(v: string, k: string)
    requires StringBody(v)
    ensures Lex("\"" + v + "\"" + k) == Lexed(Str(v), k)
  {
    LexClosed(v, k);
    CStrOfNulFree(v);
  }

  lemma {:induction false} LexAtNumber(s: string)
    requires s != "" && (s[0] == '-' || IsDigit(s[0]))
    ensures Lex(s) == Lexed(Number(s[..NumberEnd(s)]), s[NumberEnd(s)..])
  {
    assert SkipSpace(s) == s;
  }

  lemma {:induction false} LexNumber(x: string, k: string)
    requires NumberLexeme(x) && NumberStops(k)
    ensures Lex(x + k) == Lexed(Number(x), k)
  {
    var s := x + k;
    var n := NumberEnd(s);
    assert n == |x| by {
      NumberEndStops(x, k);
    }
    assert s[0] == x[0] && s[..n] == x && s[n..] == k;
    LexAtNumber(s);
  }

  lemma {:induction false} LexWord(t: Token, k: string)
    requires t.Boolean? || t == Null
    ensures Lex(Lexeme(t) + k) == Lexed(t, k)
  {
    var w := Lexeme(t);
    var s := w + k;
    assert s[..|w|] == w && s[|w|..] == k;
    assert s[0] == w[0] && SkipSpace(s) == s;
  }

  /** The lexer reads back the lexeme of any well-formed token. */
  lemma {:induction false} LexLexeme(t: Token, k: string)
    requires TokenOk(t)
    requires t.Number? ==> NumberStops(k)
    ensures Lex(Lexeme(t) + k) == Lexed(t, k)
  {
    if t.Str? {
      LexString(t.value, k);
    } else if t.Number? {
      LexNumber(t.text, k);
    } else if t.Boolean? || t.Null? {
      LexWord(t, k);
    } else {
      assert (Lexeme(t) + k)[1..] == k;
    }
  }

  /** Leading white space does not change what one call reads. */
  lemma {:induction false} LexOverSpace(w: string, s: string)
    requires AllSpace(w)
    ensures Lex(w + s) == Lex(s)
    ensures StreamOf(w + s) == StreamOf(s)
  {
    SkipSpaceOver(w, s);
  }

  // ---- whole texts ----

  /** A piece that is neither empty nor a number stops a number in front of it. */
  lemma {:induction false} PieceStops(p: Piece, k: string)
    requires PieceOk(p) && p != Ws("") && (p.Tok? ==> !p.tok.Number?)
    ensures NumberStops(PieceText(p) + k)
  {
    hide NumberEnd, ScanBody;
    var s := PieceText(p);
    if p.Ws? {
      assert p.space[0] in p.space;
    }
    assert s != "" && (s + k)[0] == s[0];
  }

  /** The text after a number does not prolong it. */
  lemma {:induction false} TextStopsNumber(ps: seq<Piece>, k: string, st: Stream)
    requires PiecesOk(ps) && NumberStops(k)
    requires var e := Emit(ps, st); e.Cons? ==> !e.head.Number?
    ensures NumberStops(Text(ps) + k)
  {
    if ps == [] {
      assert Text(ps) + k == k;
    } else {
      TextCons(ps, k);
      var p := ps[0];
      assert p in ps && PiecesOk(ps[1..]);
      hide PieceOk, NumberStops, Text, Lexeme;
      if p == Ws("") {
        assert PieceText(p) + (Text(ps[1..]) + k) == Text(ps[1..]) + k;
        TextStopsNumber(ps[1..], k, st);
      } else {
        PieceStops(p, Text(ps[1..]) + k);
      }
    }
  }

  lemma {:induction false} TextCons(ps: seq<Piece>, k: string)
    requires ps != []
    ensures Text(ps) + k == PieceText(ps[0]) + (Text(ps[1..]) + k)
  {
    hide PieceText;
  }

  /** What one call does at the first piece: it passes over white space and takes a lexeme. */
  lemma {:induction false} LexPiece(ps: seq<Piece>, k: string)
    requires PiecesOk(ps) && NumbersApart(Emit(ps, End)) && NumberStops(k) && ps != []
    ensures var t := Text(ps[1..]) + k;
            match ps[0]
            case Ws(_) => Lex(Text(ps) + k) == Lex(t) && StreamOf(Text(ps) + k) == StreamOf(t)
            case Tok(tok) => Lex(Text(ps) + k) == Lexed(tok, t)
  {
    assert ps[0] in ps;
    var t := Text(ps[1..]) + k;
    assert Text(ps) + k == PieceText(ps[0]) + t;
    if ps[0].Ws? {
      LexOverSpace(ps[0].space, t);
    } else {
      if ps[0].tok.Number? {
        TextStopsNumber(ps[1..], k, End);
      }
      LexLexeme(ps[0].tok, t);
    }
  }

  /** Lexing a text laid out from `ps` gives exactly the tokens of `ps`, however it is spaced. */
  lemma {:induction false} LexText(ps: seq<Piece>, k: string)
    requires PiecesOk(ps) && NumbersApart(Emit(ps, End)) && NumberStops(k)
    ensures StreamOf(Text(ps) + k) == Emit(ps, StreamOf(k))
  {
    if ps == [] {
      assert Text(ps) + k == k;
    } else {
      hide Lex, PieceOk, Lexeme;
      assert ps[0] in ps;
      LexText(ps[1..], k);
      LexPiece(ps, k);
    }
  }

  function TokenCount(ps: seq<Piece>): (n: nat) {
    if ps == [] then 0 else TokenCount(ps[1..]) + if ps[0].Tok? then 1 else 0
  }

  lemma {:induction false} EmitLength(ps: seq<Piece>, k: Stream)
    ensures Len(Emit(ps, k)) == TokenCount(ps) + Len(k)
  {
    if ps != [] {
      EmitLength(ps[1..], k);
    }
  }

  /** Reading the tokens of a layout that ends in a lexeme stops exactly behind that lexeme. */
  lemma {:induction false} AfterText(ps: seq<Piece>, k: string)
    requires PiecesOk(ps) && NumbersApart(Emit(ps, End)) && NumberStops(k)
    requires ps != [] && ps[|ps| - 1].Tok?
    ensures TokenCount(ps) > 0
    ensures After(Text(ps) + k, TokenCount(ps)) == k
  {
    hide Lex, After, PieceOk, StreamOf, Emit, NumbersApart, NumberStops;
    var s := Text(ps) + k;
    var t := Text(ps[1..]) + k;
    var n := TokenCount(ps);
    LexPiece(ps, k);
    if |ps| == 1 {
      assert t == k;
      AfterStep(s, 1);
      assert After(k, 0) == k by {
        AfterNone(k);
      }
    } else {
      LaterPieces(ps);
      AfterText(ps[1..], k);
      AfterStep(s, n);
      if ps[0].Ws? {
        AfterStep(t, n);
      }
    }
  }

  lemma {:induction false} AfterNone(s: string)
    ensures After(s, 0) == s
  {
  }

  lemma {:induction false} LaterPieces(ps: seq<Piece>)
    requires PiecesOk(ps) && NumbersApart(Emit(ps, End)) && |ps| > 1
    ensures PiecesOk(ps[1..]) && NumbersApart(Emit(ps[1..], End))
    ensures ps[1..][|ps| - 2] == ps[|ps| - 1]
  {
    hide PieceOk;
  }
}
