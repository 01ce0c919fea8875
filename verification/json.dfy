/** JSON trees, the grammar of RFC 8259 for their leaves, and the token stream of a tree. */
module Json {
  import opened Chars
  import opened Lexer
  import opened TokenStream
  import opened Layout

  /** A JSON tree; strings and numbers are kept as they are written. */
  datatype Json =
    | JStr(body: string)
    | JNum(text: string)
    | JBool(flag: bool)
    | JNull
    | JObj(members: Members)
    | JArr(elements: Elements)

  datatype Members = NoMembers | Member(key: string, value: Json, more: Members)

  datatype Elements = NoElements | Element(value: Json, more: Elements)

  // ---- leaves (sections 6 and 7 of RFC 8259) ----

  predicate IsHex(c: char) {
    IsDigit(c) || 'a' <= c <= 'f' || 'A' <= c <= 'F'
  }

  /** `*char` of section 7: unescaped characters, two-character escapes and \uXXXX. */
  predicate RfcBody(s: string) {
    if s == "" then true
    else if s[0] == '\\' then
      if |s| >= 2 && s[1] in "\"\\/bfnrt" then RfcBody(s[2..])
      else |s| >= 6 && s[1] == 'u' && (forall c | c in s[2..6] :: IsHex(c)) && RfcBody(s[6..])
    else s[0] != '"' && s[0] as int >= 0x20 && RfcBody(s[1..])
  }

  predicate RfcInt(s: string) {
    s == "0" || (s != "" && '1' <= s[0] <= '9' && AllDigits(s))
  }

  predicate RfcFrac(s: string) {
    s == "" || (|s| >= 2 && s[0] == '.' && AllDigits(s[1..]))
  }

  predicate RfcExp(s: string) {
    || s == ""
    || (|s| >= 2 && s[0] in {'e', 'E'} && AllDigits(s[1..]))
    || (|s| >= 3 && s[0] in {'e', 'E'} && s[1] in {'+', '-'} && AllDigits(s[2..]))
  }

  predicate NumberParts(s: string, sign: string, i: string, f: string, e: string) {
    (sign == "" || sign == "-") && RfcInt(i) && RfcFrac(f) && RfcExp(e) && s == sign + i + f + e
  }

  /** `[ minus ] int [ frac ] [ exp ]` of section 6. */
  ghost predicate RfcNumber(s: string) {
    exists sign, i, f, e :: NumberParts(s, sign, i, f, e)
  }

  ghost predicate Rfc(j: Json) {
    match j
    case JStr(v) => RfcBody(v)
    case JNum(x) => RfcNumber(x)
    case JObj(ms) => RfcMembers(ms)
    case JArr(es) => RfcElements(es)
    case _ => true
  }

  ghost predicate RfcMembers(ms: Members) {
    ms.Member? ==> RfcBody(ms.key) && Rfc(ms.value) && RfcMembers(ms.more)
  }

  ghost predicate RfcElements(es: Elements) {
    es.Element? ==> Rfc(es.value) && RfcElements(es.more)
  }

  /** A key between quotes: by the standard, or merely one that the lexer reads to its closing quote. */
  predicate KeyOk(key: string, strict: bool) {
    if strict then RfcBody(key) else StringBody(key)
  }

  /** A tree of the standard, but for its keys. */
  ghost predicate WellKeyed(j: Json, strict: bool) {
    match j
    case JStr(v) => RfcBody(v)
    case JNum(x) => RfcNumber(x)
    case JObj(ms) => KeyedMembers(ms, strict)
    case JArr(es) => KeyedElements(es, strict)
    case _ => true
  }

  ghost predicate KeyedMembers(ms: Members, strict: bool) {
    ms.Member? ==> KeyOk(ms.key, strict) && WellKeyed(ms.value, strict) && KeyedMembers(ms.more, strict)
  }

  ghost predicate KeyedElements(es: Elements, strict: bool) {
    es.Element? ==> WellKeyed(es.value, strict) && KeyedElements(es.more, strict)
  }

  lemma {:induction false} StrictIsRfc(j: Json)
    ensures WellKeyed(j, true) <==> Rfc(j)
    decreases j
  {
    match j
    case JObj(ms) => StrictMembersRfc(ms);
    case JArr(es) => StrictElementsRfc(es);
    case _ =>
  }

  lemma {:induction false} StrictMembersRfc(ms: Members)
    ensures KeyedMembers(ms, true) <==> RfcMembers(ms)
    decreases ms
  {
    if ms.Member? {
      StrictIsRfc(ms.value);
      StrictMembersRfc(ms.more);
    }
  }

  lemma {:induction false} StrictElementsRfc(es: Elements)
    ensures KeyedElements(es, true) <==> RfcElements(es)
    decreases es
  {
    if es.Element? {
      StrictIsRfc(es.value);
      StrictElementsRfc(es.more);
    }
  }

  // ---- token streams ----

  /** The tokens of `j`, in front of the stream `k`. */
  function Toks(j: Json, k: Stream): (st: Stream)
    ensures st.Cons?
    decreases j
  {
    match j
    case JStr(v) => Cons(Str(v), k)
    case JNum(x) => Cons(Number(x), k)
    case JBool(b) => Cons(Boolean(b), k)
    case JNull => Cons(Null, k)
    case JObj(ms) => Cons(ObjectStart, MemberToks(ms, k))
    case JArr(es) => Cons(ArrayStart, ElementToks(es, k))
  }

  /** What follows an opening brace, or a comma between two members. */
  function MemberToks(ms: Members, k: Stream): (st: Stream)
    decreases ms, 0
  {
    match ms
    case NoMembers => Cons(ObjectEnd, k)
    case Member(key, v, more) => Cons(Str(key), Cons(Colon, Toks(v, MoreMembers(more, k))))
  }

  /** What follows a member. */
  function MoreMembers(ms: Members, k: Stream): (st: Stream)
    ensures st.Cons? && !st.head.Number?
    decreases ms, 1
  {
    if ms.NoMembers? then Cons(ObjectEnd, k) else Cons(Comma, MemberToks(ms, k))
  }

  function ElementToks(es: Elements, k: Stream): (st: Stream)
    decreases es, 0
  {
    match es
    case NoElements => Cons(ArrayEnd, k)
    case Element(v, more) => Toks(v, MoreElements(more, k))
  }

  function MoreElements(es: Elements, k: Stream): (st: Stream)
    ensures st.Cons? && !st.head.Number?
    decreases es, 1
  {
    if es.NoElements? then Cons(ArrayEnd, k) else Cons(Comma, ElementToks(es, k))
  }

  /** A tree never puts two numbers side by side. */
  lemma {:induction false} TreeNumbersApart(j: Json, k: Stream)
    requires NumbersApart(k) && (k.Cons? ==> !k.head.Number?)
    ensures NumbersApart(Toks(j, k))
    decreases j
  {
    match j
    case JObj(ms) => MembersNumbersApart(ms, k);
    case JArr(es) => ElementsNumbersApart(es, k);
    case _ =>
  }

  lemma {:induction false} MembersNumbersApart(ms: Members, k: Stream)
    requires NumbersApart(k) && (k.Cons? ==> !k.head.Number?)
    ensures NumbersApart(MemberToks(ms, k)) && NumbersApart(MoreMembers(ms, k))
    decreases ms
  {
    if ms.Member? {
      MembersNumbersApart(ms.more, k);
      TreeNumbersApart(ms.value, MoreMembers(ms.more, k));
    }
  }

  lemma {:induction false} ElementsNumbersApart(es: Elements, k: Stream)
    requires NumbersApart(k) && (k.Cons? ==> !k.head.Number?)
    ensures NumbersApart(ElementToks(es, k)) && NumbersApart(MoreElements(es, k))
    decreases es
  {
    if es.Element? {
      ElementsNumbersApart(es.more, k);
      TreeNumbersApart(es.value, MoreElements(es.more, k));
    }
  }

  predicate StreamOk(st: Stream) {
    st.Cons? ==> TokenOk(st.head) && StreamOk(st.tail)
  }

  // ---- leaves of the grammar are lexemes of the lexer ----

  lemma {:induction false} BodyScans(s: string)
    requires RfcBody(s)
    ensures ScanBody(s + "\"", false) == |s| && NulFree(s)
    decreases |s|, 1
  {
    if s == "" {
    } else if s[0] == '\\' {
      if s[1] in "\"\\/bfnrt" {
        BodyScansShort(s);
      } else {
        BodyScansHex(s);
      }
    } else {
      assert (s + "\"")[1..] == s[1..] + "\"";
      BodyScans(s[1..]);
      assert s == s[..1] + s[1..];
    }
  }

  lemma {:induction false} BodyScansShort(s: string)
    requires RfcBody(s) && |s| >= 2 && s[0] == '\\' && s[1] in "\"\\/bfnrt"
    ensures ScanBody(s + "\"", false) == |s| && NulFree(s)
    decreases |s|, 0
  {
    var q := s + "\"";
    assert q[1..][1..] == q[2..] == s[2..] + "\"";
    BodyScans(s[2..]);
    assert s == s[..2] + s[2..];
  }

  lemma {:induction false} BodyScansHex(s: string)
    requires RfcBody(s) && |s| >= 6 && s[0] == '\\' && s[1] == 'u'
    ensures ScanBody(s + "\"", false) == |s| && NulFree(s)
    decreases |s|, 0
  {
    var q := s + "\"";
    BodyScans(s[6..]);
    assert s == s[..2] + s[2..6] + s[6..];
    assert forall i | 2 <= i < 6 :: s[i] in s[2..6];
    assert q[6..] == s[6..] + "\"";
    ScanPlain(q[2..], 4);
    assert q[2..][4..] == q[6..];
    assert q[1..][1..] == q[2..];
  }

  /** Characters that are neither quotes nor backslashes are passed over one by one. */
  lemma {:induction false} ScanPlain(q: string, n: nat)
    requires n <= |q| && forall i | 0 <= i < n :: q[i] != '"' && q[i] != '\\'
    ensures ScanBody(q, false) == n + ScanBody(q[n..], false)
  {
    if n > 0 {
      ScanPlain(q[1..], n - 1);
      assert q[1..][n - 1..] == q[n..];
    }
  }

  lemma {:induction false} DigitsOfAll(s: string)
    requires AllDigits(s)
    ensures Digits(s) == |s|
  {
    if s != "" {
      DigitsOfAll(s[1..]);
    }
  }

  lemma {:induction false} ExponentOfRfc(e: string)
    requires RfcExp(e)
    ensures ExponentEnd(e) == |e|
  {
    if e != "" {
      var sign := if e[1] in {'+', '-'} then 1 else 0;
      if sign == 0 {
        assert e[1..][0] in e[1..];
      } else if AllDigits(e[1..]) {
        assert e[1..][0] in e[1..];
      }
      DigitsOfAll(e[1 + sign..]);
    }
  }

  lemma {:induction false} FractionOfRfc(f: string, e: string)
    requires RfcFrac(f) && RfcExp(e)
    ensures FractionEnd(f + e) == |f|
  {
    if f == "" {
      assert f + e == e;
    } else {
      assert (f + e)[1..] == f[1..] + e;
      DigitsStop(f[1..], e);
      DigitsOfAll(f[1..]);
    }
  }

  lemma {:induction false} IntegerOfRfc(sign: string, i: string, r: string)
    requires RfcInt(i) && (sign == "" || sign == "-") && (r == "" || r[0] in {'.', 'e', 'E'})
    ensures IntegerEnd(sign + i + r) == |sign + i|
  {
    var s := sign + i + r;
    assert s[|sign|..] == i + r;
    assert AllDigits(i);
    assert sign == "" ==> s[0] == i[0];
    DigitsStop(i, r);
    DigitsOfAll(i);
  }

  lemma {:induction false} PartsSplit(s: string, sign: string, i: string, f: string, e: string)
    requires NumberParts(s, sign, i, f, e)
    ensures var m, n := |sign + i|, |sign + i + f|;
            && m <= n <= |s| && n == m + |f| && |s| == n + |e|
            && s == sign + i + (f + e) && s[m..] == f + e && s[n..] == e
  {
    hide RfcInt, RfcFrac, RfcExp;
  }

  /** A number begins with its sign or a digit, and what stands behind its integer part begins no digit. */
  lemma {:induction false} PartsBegin(s: string, sign: string, i: string, f: string, e: string)
    requires NumberParts(s, sign, i, f, e)
    ensures s != "" && (s[0] == '-' || IsDigit(s[0]))
    ensures f + e == "" || (f + e)[0] in {'.', 'e', 'E'}
  {
    assert i != "" && (sign + i)[0] == s[0];
  }

  lemma {:induction false} NumberIsLexeme(s: string)
    requires RfcNumber(s)
    ensures NumberLexeme(s)
  {
    hide NumberEnd, IntegerEnd, FractionEnd, ExponentEnd, RfcInt, RfcFrac, RfcExp;
    var sign, i, f, e :| NumberParts(s, sign, i, f, e);
    var m, n := |sign + i|, |sign + i + f|;
    PartsSplit(s, sign, i, f, e);
    PartsBegin(s, sign, i, f, e);
    IntegerOfRfc(sign, i, f + e);
    FractionOfRfc(f, e);
    ExponentOfRfc(e);
    NumberEndParts(s, m, n);
  }

  lemma {:induction false} WrittenTokensOk(j: Json, strict: bool, k: Stream)
    requires WellKeyed(j, strict) && StreamOk(k)
    ensures StreamOk(Toks(j, k))
    decreases j
  {
    match j
    case JStr(v) => BodyScans(v);
    case JNum(x) => NumberIsLexeme(x);
    case JObj(ms) => KeyedMembersOk(ms, strict, k);
    case JArr(es) => KeyedElementsOk(es, strict, k);
    case _ =>
  }

  lemma {:induction false} KeyedMembersOk(ms: Members, strict: bool, k: Stream)
    requires KeyedMembers(ms, strict) && StreamOk(k)
    ensures StreamOk(MemberToks(ms, k)) && StreamOk(MoreMembers(ms, k))
    decreases ms
  {
    if ms.Member? {
      if strict {
        BodyScans(ms.key);
      }
      KeyedMembersOk(ms.more, strict, k);
      WrittenTokensOk(ms.value, strict, MoreMembers(ms.more, k));
    }
  }

  lemma {:induction false} KeyedElementsOk(es: Elements, strict: bool, k: Stream)
    requires KeyedElements(es, strict) && StreamOk(k)
    ensures StreamOk(ElementToks(es, k)) && StreamOk(MoreElements(es, k))
    decreases es
  {
    if es.Element? {
      KeyedElementsOk(es.more, strict, k);
      WrittenTokensOk(es.value, strict, MoreElements(es.more, k));
    }
  }

  // ---- layouts of a tree ----

  /** `ps` writes the tokens of `j`, with white space anywhere between, before and after them. */
  predicate IsLayout(ps: seq<Piece>, j: Json) {
    Emit(ps, End) == Toks(j, End)
  }

  lemma {:induction false} SpacedOk(ps: seq<Piece>)
    requires StreamOk(Emit(ps, End))
    ensures PiecesOk(ps)
  {
    if ps != [] {
      SpacedOk(ps[1..]);
      assert ps == [ps[0]] + ps[1..];
    }
  }

  lemma {:induction false} WrittenPiecesOk(ps: seq<Piece>, j: Json, strict: bool)
    requires IsLayout(ps, j) && WellKeyed(j, strict)
    ensures PiecesOk(ps) && NumbersApart(Emit(ps, End))
  {
    WrittenTokensOk(j, strict, End);
    SpacedOk(ps);
    TreeNumbersApart(j, End);
  }

  /** Every layout of an RFC 8259 tree consists of well-formed pieces. */
  lemma {:induction false} LayoutPiecesOk(ps: seq<Piece>, j: Json)
    requires IsLayout(ps, j) && Rfc(j)
    ensures PiecesOk(ps) && NumbersApart(Emit(ps, End))
  {
    StrictIsRfc(j);
    WrittenPiecesOk(ps, j, true);
  }

  /** `st` with `k` in place of its ending. */
  function Graft(st: Stream, k: Stream): (r: Stream) {
    if st.Cons? then Cons(st.head, Graft(st.tail, k)) else k
  }

  lemma {:induction false} EmitGraft(ps: seq<Piece>, k: Stream)
    ensures Emit(ps, k) == Graft(Emit(ps, End), k)
  {
    if ps != [] {
      EmitGraft(ps[1..], k);
    }
  }

  lemma {:induction false} ToksGraft(j: Json, m: Stream, k: Stream)
    ensures Graft(Toks(j, m), k) == Toks(j, Graft(m, k))
    decreases j
  {
    match j
    case JObj(ms) => MembersGraft(ms, m, k);
    case JArr(es) => ElementsGraft(es, m, k);
    case _ =>
  }

  lemma {:induction false} MembersGraft(ms: Members, m: Stream, k: Stream)
    ensures Graft(MemberToks(ms, m), k) == MemberToks(ms, Graft(m, k))
    ensures Graft(MoreMembers(ms, m), k) == MoreMembers(ms, Graft(m, k))
    decreases ms
  {
    if ms.Member? {
      MembersGraft(ms.more, m, k);
      ToksGraft(ms.value, MoreMembers(ms.more, m), k);
    }
  }

  lemma {:induction false} ElementsGraft(es: Elements, m: Stream, k: Stream)
    ensures Graft(ElementToks(es, m), k) == ElementToks(es, Graft(m, k))
    ensures Graft(MoreElements(es, m), k) == MoreElements(es, Graft(m, k))
    decreases es
  {
    if es.Element? {
      ElementsGraft(es.more, m, k);
      ToksGraft(es.value, MoreElements(es.more, m), k);
    }
  }

  /** Every layout of a tree, in front of any text that cannot prolong a number, lexes to the tree's tokens. */
  lemma {:induction false} LexLayout(ps: seq<Piece>, j: Json, k: string)
    requires IsLayout(ps, j) && PiecesOk(ps) && NumberStops(k)
    ensures StreamOf(Text(ps) + k) == Toks(j, StreamOf(k))
  {
    TreeNumbersApart(j, End);
    LexText(ps, k);
    EmitGraft(ps, StreamOf(k));
    ToksGraft(j, End, StreamOf(k));
  }
}
