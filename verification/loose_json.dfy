/** What the value skipper accepts: a grammar looser than JSON, and exactly when its sentences are JSON. */
module LooseJson {
  import opened Lexer
  import opened TokenStream
  import opened Layout
  import opened Json
  import opened Skipper

  /** Any token may stand for a scalar. */
  datatype Loose = LTok(tok: Token) | LObj(members: LooseMembers) | LArr(elements: LooseElements)

  /** Members end behind a member, or, with a comma in front or not, without one more. */
  datatype LooseMembers =
    | NoMore
    | LastMember(key: string, value: Loose)
    | MemberThen(key: string, value: Loose, more: LooseMembers)

  datatype LooseElements =
    | Empty
    | LastElement(value: Loose)
    | ElementThen(value: Loose, more: LooseElements)

  function LooseToks(l: Loose, k: Stream): (st: Stream)
    ensures st.Cons?
    decreases l
  {
    match l
    case LTok(t) => Cons(t, k)
    case LObj(ms) => Cons(ObjectStart, LooseMemberToks(ms, k))
    case LArr(es) => Cons(ArrayStart, LooseElementToks(es, k))
  }

  function LooseMemberToks(ms: LooseMembers, k: Stream): (st: Stream)
    ensures st.Cons?
    decreases ms
  {
    match ms
    case NoMore => Cons(ObjectEnd, k)
    case LastMember(key, v) => Cons(Str(key), Cons(Colon, LooseToks(v, Cons(ObjectEnd, k))))
    case MemberThen(key, v, more) => Cons(Str(key), Cons(Colon, LooseToks(v, Cons(Comma, LooseMemberToks(more, k)))))
  }

  function LooseElementToks(es: LooseElements, k: Stream): (st: Stream)
    ensures st.Cons?
    decreases es
  {
    match es
    case Empty => Cons(ArrayEnd, k)
    case LastElement(v) => LooseToks(v, Cons(ArrayEnd, k))
    case ElementThen(v, more) => LooseToks(v, Cons(Comma, LooseElementToks(more, k)))
  }

  /** A scalar is no opening bracket; an array's item is no closing one either, nor the end of what can be lexed. */
  predicate IsLoose(l: Loose)
    decreases l
  {
    match l
    case LTok(t) => t != ObjectStart && t != ArrayStart
    case LObj(ms) => LooseMembersOk(ms)
    case LArr(es) => LooseElementsOk(es)
  }

  predicate LooseMembersOk(ms: LooseMembers)
    decreases ms
  {
    match ms
    case NoMore => true
    case LastMember(_, v) => IsLoose(v)
    case MemberThen(_, v, more) => IsLoose(v) && LooseMembersOk(more)
  }

  predicate IsItem(l: Loose) {
    l.LTok? ==> l.tok !in {ArrayEnd, NoToken, EndOfText}
  }

  predicate LooseElementsOk(es: LooseElements)
    decreases es
  {
    match es
    case Empty => true
    case LastElement(v) => IsLoose(v) && IsItem(v)
    case ElementThen(v, more) => IsLoose(v) && IsItem(v) && LooseElementsOk(more)
  }

  // ---- every sentence is skipped ----

  lemma {:induction false} LooseSkipped(l: Loose, k: Stream)
    requires IsLoose(l)
    ensures var st := LooseToks(l, k); Skip(st.head, st.tail) == Skipped(true, k)
    decreases l
  {
    match l
    case LTok(_) =>
    case LObj(ms) => LooseMembersSkipped(ms, k);
    case LArr(es) => LooseElementsSkipped(es, k);
  }

  lemma {:induction false} LooseMembersSkipped(ms: LooseMembers, k: Stream)
    requires LooseMembersOk(ms)
    ensures SkipObject(LooseMemberToks(ms, k)) == Skipped(true, k)
    decreases ms
  {
    match ms
    case NoMore =>
    case LastMember(_, v) => LooseSkipped(v, Cons(ObjectEnd, k));
    case MemberThen(_, v, more) =>
      LooseSkipped(v, Cons(Comma, LooseMemberToks(more, k)));
      LooseMembersSkipped(more, k);
  }

  lemma {:induction false} LooseElementsSkipped(es: LooseElements, k: Stream)
    requires LooseElementsOk(es)
    ensures SkipArray(LooseElementToks(es, k)) == Skipped(true, k)
    decreases es
  {
    match es
    case Empty =>
    case LastElement(v) => LooseSkipped(v, Cons(ArrayEnd, k)); ItemHead(v, Cons(ArrayEnd, k));
    case ElementThen(v, more) =>
      LooseSkipped(v, Cons(Comma, LooseElementToks(more, k)));
      ItemHead(v, Cons(Comma, LooseElementToks(more, k)));
      LooseElementsSkipped(more, k);
  }

  lemma {:induction false} ItemHead(l: Loose, k: Stream)
    ensures IsItem(l) <==> LooseToks(l, k).head !in {ArrayEnd, NoToken, EndOfText}
  {
  }

  // ---- whatever is skipped is a sentence ----

  lemma {:induction false} SkippedValue(t: Token, st: Stream) returns (l: Loose)
    requires Skip(t, st).ok
    ensures IsLoose(l) && Cons(t, st) == LooseToks(l, Skip(t, st).rest)
    decreases Len(st), 1
  {
    match t
    case ObjectStart => var ms := SkippedMembers(st); l := LObj(ms);
    case ArrayStart => var es := SkippedElements(st); l := LArr(es);
    case _ => l := LTok(t);
  }

  lemma {:induction false} SkippedMembers(st: Stream) returns (ms: LooseMembers)
    requires SkipObject(st).ok
    ensures LooseMembersOk(ms) && st == LooseMemberToks(ms, SkipObject(st).rest)
    decreases Len(st), 0
  {
    var key := Next(st);
    if key.tok == ObjectEnd {
      ms := NoMore;
    } else {
      var colon := Next(key.rest);
      var val := Next(colon.rest);
      var v := SkippedValue(val.tok, val.rest);
      var r := Skip(val.tok, val.rest);
      var sep := Next(r.rest);
      hide Skip, Len;
      if sep.tok == Comma {
        var more := SkippedMembers(sep.rest);
        ms := MemberThen(key.tok.value, v, more);
      } else {
        ms := LastMember(key.tok.value, v);
      }
      ReadBack(st, key);
      ReadBack(key.rest, colon);
      ReadBack(r.rest, sep);
      ValueReadBack(colon.rest, val, r.rest);
    }
  }

  /** A token other than the two endings was really there. */
  lemma {:induction false} ReadBack(st: Stream, r: Read)
    requires r == Next(st) && r.tok != NoToken && r.tok != EndOfText
    ensures st == Cons(r.tok, r.rest)
  {
  }

  /** Behind the endings nothing follows, so a value with something behind it was really there. */
  lemma {:induction false} ValueReadBack(st: Stream, r: Read, behind: Stream)
    requires r == Next(st) && Skip(r.tok, r.rest).rest == behind && behind.Cons?
    ensures st == Cons(r.tok, r.rest)
  {
  }

  lemma {:induction false} SkippedElements(st: Stream) returns (es: LooseElements)
    requires SkipArray(st).ok
    ensures LooseElementsOk(es) && st == LooseElementToks(es, SkipArray(st).rest)
    decreases Len(st), 0
  {
    var item := Next(st);
    if item.tok == ArrayEnd {
      es := Empty;
    } else {
      var v := SkippedValue(item.tok, item.rest);
      var r := Skip(item.tok, item.rest);
      var sep := Next(r.rest);
      ItemHead(v, r.rest);
      hide Skip, Len;
      ReadBack(st, item);
      ReadBack(r.rest, sep);
      if sep.tok == Comma {
        var more := SkippedElements(sep.rest);
        es := ElementThen(v, more);
      } else {
        es := LastElement(v);
      }
    }
  }

  /** The token `t` and the stream behind it begin with the sentence `l`, and `k` stands behind that. */
  predicate Sentence(t: Token, st: Stream, l: Loose, k: Stream) {
    IsLoose(l) && Cons(t, st) == LooseToks(l, k)
  }

  /** The skipper succeeds exactly on the sentences of the loose grammar, and leaves exactly what stands behind them. */
  lemma {:induction false} SkipAcceptsLoose(t: Token, st: Stream, k: Stream)
    ensures Skip(t, st) == Skipped(true, k) <==> exists l :: Sentence(t, st, l, k)
  {
    if Skip(t, st) == Skipped(true, k) {
      var l := SkippedValue(t, st);
      assert Sentence(t, st, l, k);
    }
    forall l | Sentence(t, st, l, k) ensures Skip(t, st) == Skipped(true, k) {
      LooseSkipped(l, k);
    }
  }

  // ---- a sentence can be read in one way only ----

  lemma {:induction false} UniqueReading(l: Loose, k: Stream, q: Loose, m: Stream)
    requires IsLoose(l) && IsLoose(q) && LooseToks(l, k) == LooseToks(q, m)
    ensures l == q && k == m
    decreases l
  {
    match l
    case LTok(_) =>
    case LObj(ms) => UniqueMembers(ms, k, q.members, m);
    case LArr(es) => UniqueElements(es, k, q.elements, m);
  }

  lemma {:induction false} UniqueMembers(ms: LooseMembers, k: Stream, ns: LooseMembers, m: Stream)
    requires LooseMembersOk(ms) && LooseMembersOk(ns) && LooseMemberToks(ms, k) == LooseMemberToks(ns, m)
    ensures ms == ns && k == m
    decreases ms
  {
    if !ms.NoMore? {
      UniqueReading(ms.value, BehindMember(ms, k), ns.value, BehindMember(ns, m));
      if ms.MemberThen? {
        UniqueMembers(ms.more, k, ns.more, m);
      }
    }
  }

  function BehindMember(ms: LooseMembers, k: Stream): (st: Stream)
    requires !ms.NoMore?
  {
    if ms.LastMember? then Cons(ObjectEnd, k) else Cons(Comma, LooseMemberToks(ms.more, k))
  }

  function BehindElement(es: LooseElements, k: Stream): (st: Stream)
    requires !es.Empty?
  {
    if es.LastElement? then Cons(ArrayEnd, k) else Cons(Comma, LooseElementToks(es.more, k))
  }

  lemma {:induction false} UniqueElements(es: LooseElements, k: Stream, fs: LooseElements, m: Stream)
    requires LooseElementsOk(es) && LooseElementsOk(fs) && LooseElementToks(es, k) == LooseElementToks(fs, m)
    ensures es == fs && k == m
    decreases es
  {
    if !es.Empty? {
      ItemHead(es.value, BehindElement(es, k));
    }
    if !fs.Empty? {
      ItemHead(fs.value, BehindElement(fs, m));
    }
    if !es.Empty? {
      UniqueReading(es.value, BehindElement(es, k), fs.value, BehindElement(fs, m));
      if es.ElementThen? {
        UniqueElements(es.more, k, fs.more, m);
      }
    }
  }

  // ---- which sentences are JSON ----

  /** A string, number, boolean or null, by sections 3, 6 and 7 of RFC 8259. */
  ghost predicate IsScalar(t: Token) {
    match t
    case Str(v) => RfcBody(v)
    case Number(x) => RfcNumber(x)
    case Boolean(_) => true
    case Null => true
    case _ => false
  }

  /** No comma stands in front of a closing bracket, and every scalar and key is one of the standard. */
  ghost predicate IsStrict(l: Loose)
    decreases l
  {
    match l
    case LTok(t) => IsScalar(t)
    case LObj(ms) => StrictMembers(ms)
    case LArr(es) => StrictElements(es)
  }

  ghost predicate StrictMembers(ms: LooseMembers)
    decreases ms
  {
    match ms
    case NoMore => true
    case LastMember(key, v) => RfcBody(key) && IsStrict(v)
    case MemberThen(key, v, more) => RfcBody(key) && IsStrict(v) && more != NoMore && StrictMembers(more)
  }

  ghost predicate StrictElements(es: LooseElements)
    decreases es
  {
    match es
    case Empty => true
    case LastElement(v) => IsStrict(v)
    case ElementThen(v, more) => IsStrict(v) && more != Empty && StrictElements(more)
  }

  /** A tree, as a sentence of the loose grammar. */
  function Loosened(j: Json): (l: Loose)
    decreases j
  {
    match j
    case JStr(v) => LTok(Str(v))
    case JNum(x) => LTok(Number(x))
    case JBool(b) => LTok(Boolean(b))
    case JNull => LTok(Null)
    case JObj(ms) => LObj(LoosenedMembers(ms))
    case JArr(es) => LArr(LoosenedElements(es))
  }

  function LoosenedMembers(ms: Members): (ls: LooseMembers)
    ensures ls == NoMore <==> ms == NoMembers
    decreases ms
  {
    if ms.NoMembers? then NoMore
    else if ms.more.NoMembers? then LastMember(ms.key, Loosened(ms.value))
    else MemberThen(ms.key, Loosened(ms.value), LoosenedMembers(ms.more))
  }

  function LoosenedElements(es: Elements): (ls: LooseElements)
    ensures ls == Empty <==> es == NoElements
    decreases es
  {
    if es.NoElements? then Empty
    else if es.more.NoElements? then LastElement(Loosened(es.value))
    else ElementThen(Loosened(es.value), LoosenedElements(es.more))
  }

  lemma {:induction false} LoosenedReads(j: Json, k: Stream)
    ensures LooseToks(Loosened(j), k) == Toks(j, k)
    ensures IsLoose(Loosened(j)) && IsItem(Loosened(j))
    ensures Rfc(j) ==> IsStrict(Loosened(j))
    decreases j
  {
    match j
    case JObj(ms) => LoosenedMembersRead(ms, k);
    case JArr(es) => LoosenedElementsRead(es, k);
    case _ =>
  }

  lemma {:induction false} LoosenedMembersRead(ms: Members, k: Stream)
    ensures LooseMemberToks(LoosenedMembers(ms), k) == MemberToks(ms, k)
    ensures LooseMembersOk(LoosenedMembers(ms))
    ensures RfcMembers(ms) ==> StrictMembers(LoosenedMembers(ms))
    decreases ms
  {
    if ms.Member? {
      LoosenedReads(ms.value, MoreMembers(ms.more, k));
      LoosenedMembersRead(ms.more, k);
      hide RfcBody;
    }
  }

  lemma {:induction false} LoosenedElementsRead(es: Elements, k: Stream)
    ensures LooseElementToks(LoosenedElements(es), k) == ElementToks(es, k)
    ensures LooseElementsOk(LoosenedElements(es))
    ensures RfcElements(es) ==> StrictElements(LoosenedElements(es))
    decreases es
  {
    if es.Element? {
      LoosenedReads(es.value, MoreElements(es.more, k));
      LoosenedElementsRead(es.more, k);
    }
  }

  /** The tree of a strict sentence. */
  lemma {:induction false} StrictTree(l: Loose) returns (j: Json)
    requires IsLoose(l) && IsStrict(l)
    ensures Rfc(j) && Loosened(j) == l
    decreases l
  {
    match l
    case LTok(t) =>
      j := match t case Str(v) => JStr(v) case Number(x) => JNum(x) case Boolean(b) => JBool(b) case _ => JNull;
    case LObj(ms) => var ns := StrictMemberTree(ms); j := JObj(ns);
    case LArr(es) => var fs := StrictElementTree(es); j := JArr(fs);
  }

  lemma {:induction false} StrictMemberTree(ms: LooseMembers) returns (ns: Members)
    requires LooseMembersOk(ms) && StrictMembers(ms)
    ensures RfcMembers(ns) && LoosenedMembers(ns) == ms
    decreases ms
  {
    ns := NoMembers;
    if !ms.NoMore? {
      var v := StrictTree(ms.value);
      hide RfcBody;
      if ms.MemberThen? {
        ns := StrictMemberTree(ms.more);
      }
      ns := Member(ms.key, v, ns);
    }
  }

  lemma {:induction false} StrictElementTree(es: LooseElements) returns (fs: Elements)
    requires LooseElementsOk(es) && StrictElements(es)
    ensures RfcElements(fs) && LoosenedElements(fs) == es
    decreases es
  {
    fs := NoElements;
    if !es.Empty? {
      var v := StrictTree(es.value);
      if es.ElementThen? {
        fs := StrictElementTree(es.more);
      }
      fs := Element(v, fs);
    }
  }

  /** What was skipped is JSON exactly when it is strict. */
  lemma {:induction false} LooseIsJson(l: Loose, k: Stream)
    requires IsLoose(l)
    ensures (exists j :: Rfc(j) && Toks(j, k) == LooseToks(l, k)) <==> IsStrict(l)
  {
    hide Rfc, IsStrict;
    if IsStrict(l) {
      var j := StrictTree(l);
      LoosenedReads(j, k);
    }
    forall j | Rfc(j) && Toks(j, k) == LooseToks(l, k) ensures IsStrict(l) {
      LoosenedReads(j, k);
      UniqueReading(Loosened(j), k, l, k);
    }
  }

  // ---- on text ----

  ghost predicate Holds(s: string, l: Loose, k: Stream) {
    IsLoose(l) && StreamOf(s) == LooseToks(l, k)
  }

  /** The text begins with a tree of RFC 8259, with `k` behind it. */
  ghost predicate IsJson(s: string, k: Stream) {
    exists j :: Rfc(j) && StreamOf(s) == Toks(j, k)
  }

  lemma {:induction false} HeldIsJson(s: string, l: Loose, k: Stream)
    requires Holds(s, l, k)
    ensures IsJson(s, k) <==> IsStrict(l)
  {
    hide RfcBody, StreamOf;
    if IsStrict(l) {
      var j := StrictTree(l);
      LoosenedReads(j, k);
      assert Rfc(j) && StreamOf(s) == Toks(j, k);
    }
    if IsJson(s, k) {
      var j :| Rfc(j) && StreamOf(s) == Toks(j, k);
      LoosenedReads(j, k);
      UniqueReading(Loosened(j), k, l, k);
    }
  }

  /**
   * On any text that begins with a token: skipping succeeds if and only if the text begins with a sentence of the loose
   * grammar; that sentence is then the only one, what is left unread is what stands behind it, and it is JSON if and
   * only if it is strict.
   */
  lemma {:induction false} SkipTextAccepts(s: string)
    requires Lex(s).tok != NoToken && Lex(s).tok != EndOfText
    ensures var r := SkipText(Lex(s).tok, Lex(s).rest);
            && (r.ok <==> exists l, k :: Holds(s, l, k))
            && (r.ok ==> Reached(s, r.rest))
            && (forall l, k | Holds(s, l, k) :: k == StreamOf(r.rest))
            && (forall l, k, q, m | Holds(s, l, k) && Holds(s, q, m) :: l == q)
            && (forall l, k | Holds(s, l, k) :: IsJson(s, k) <==> IsStrict(l))
  {
    hide Lex, SkipText, Skip, Rfc, IsJson, Reached;
    var first := Lex(s);
    var r := SkipText(first.tok, first.rest);
    var st := StreamOf(first.rest);
    assert StreamOf(s) == Cons(first.tok, st) by { NextIsLex(s); }
    SkipAgrees(first.tok, first.rest);
    ReachedByLex(s);
    var q := Skip(first.tok, st);
    if r.ok {
      ReachedPlus(s, first.rest, r.rest);
      SkipAcceptsLoose(first.tok, st, q.rest);
      var l :| Sentence(first.tok, st, l, q.rest);
      assert Holds(s, l, q.rest);
    }
    forall l, k | Holds(s, l, k)
      ensures r.ok && k == StreamOf(r.rest)
      ensures IsJson(s, k) <==> IsStrict(l)
    {
      assert Sentence(first.tok, st, l, k);
      SkipAcceptsLoose(first.tok, st, k);
      HeldIsJson(s, l, k);
    }
    forall l, k, p, m | Holds(s, l, k) && Holds(s, p, m) ensures l == p {
      UniqueReading(l, k, p, m);
    }
  }

  /** The whole text is skipped without complaint. */
  predicate Skips(s: string) {
    var l := Lex(s);
    l.tok != NoToken && l.tok != EndOfText && var r := SkipText(l.tok, l.rest); r.ok && StreamOf(r.rest) == End
  }

  lemma {:induction false} SkipsLoose(ps: seq<Piece>, l: Loose)
    requires PiecesOk(ps) && Emit(ps, End) == LooseToks(l, End) && NumbersApart(LooseToks(l, End)) && IsLoose(l)
    ensures Skips(Text(ps)) && (IsJson(Text(ps), End) <==> IsStrict(l))
  {
    assert StreamOf("") == End;
    hide Lex, SkipText, Emit, Text, IsJson, IsStrict, LooseToks, IsLoose;
    var s := Text(ps);
    LexText(ps, "");
    assert s + "" == s;
    NextIsLex(s);
    assert Holds(s, l, End);
    SkipTextAccepts(s);
  }

  /** The skipper accepts more than JSON: a trailing comma, and any lone token taken for a scalar. */
  lemma {:induction false} SkipNotSound()
    ensures Skips("[null,]") && !IsJson("[null,]", End)
    ensures Skips("[:]") && !IsJson("[:]", End)
  {
    hide Skips, IsJson;
    TrailingComma();
    LoneColon();
    SkipsLoose([Tok(ArrayStart), Tok(Null), Tok(Comma), Tok(ArrayEnd)], LArr(ElementThen(LTok(Null), Empty)));
    SkipsLoose([Tok(ArrayStart), Tok(Colon), Tok(ArrayEnd)], LArr(LastElement(LTok(Colon))));
  }

  lemma {:induction false} TrailingComma()
    ensures var ps := [Tok(ArrayStart), Tok(Null), Tok(Comma), Tok(ArrayEnd)];
            && PiecesOk(ps) && Text(ps) == "[null,]"
            && Emit(ps, End) == Cons(ArrayStart, Cons(Null, Cons(Comma, Cons(ArrayEnd, End))))
  {
    var ps := [Tok(ArrayStart), Tok(Null), Tok(Comma), Tok(ArrayEnd)];
    assert ps[1..] == [Tok(Null), Tok(Comma), Tok(ArrayEnd)];
    assert ps[1..][1..] == [Tok(Comma), Tok(ArrayEnd)];
    assert ps[1..][1..][1..] == [Tok(ArrayEnd)];
    assert Text([Tok(ArrayEnd)]) == "]" && Text(ps[1..][1..]) == ",]";
  }

  lemma {:induction false} LoneColon()
    ensures var ps := [Tok(ArrayStart), Tok(Colon), Tok(ArrayEnd)];
            && PiecesOk(ps) && Text(ps) == "[:]"
            && Emit(ps, End) == Cons(ArrayStart, Cons(Colon, Cons(ArrayEnd, End)))
  {
    var ps := [Tok(ArrayStart), Tok(Colon), Tok(ArrayEnd)];
    assert ps[1..] == [Tok(Colon), Tok(ArrayEnd)] && ps[1..][1..] == [Tok(ArrayEnd)];
    assert Text([Tok(ArrayEnd)]) == "]" && Text(ps[1..]) == ":]";
  }
}
