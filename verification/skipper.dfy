/** The recursive value skipper: it is exact on JSON, and depends on nothing but the tokens. */
module Skipper {
  import opened Lexer
  import opened TokenStream
  import opened Layout
  import opened Json

  /** Outcome of a skip, and what is left unread: text or tokens. */
  datatype Skipped<+S> = Skipped(ok: bool, rest: S)

  // ---- on text ----

  function SkipText(t: Token, s: string): (r: Skipped<string>)
    ensures |r.rest| <= |s|
    decreases |s|, 1
  {
    match t
    case ObjectStart => SkipObjectText(s)
    case ArrayStart => SkipArrayText(s)
    case _ => Skipped(true, s)
  }

  function SkipObjectText(s: string): (r: Skipped<string>)
    ensures |r.rest| <= |s|
    decreases |s|, 0
  {
    var key := Lex(s);
    if key.tok == ObjectEnd then Skipped(true, key.rest)
    else if !key.tok.Str? then Skipped(false, key.rest)
    else
      var colon := Lex(key.rest);
      if colon.tok != Colon then Skipped(false, colon.rest)
      else
        var val := Lex(colon.rest);
        var r := SkipText(val.tok, val.rest);
        if !r.ok then r
        else
          var sep := Lex(r.rest);
          if sep.tok == Comma then SkipObjectText(sep.rest)
          else Skipped(sep.tok == ObjectEnd, sep.rest)
  }

  function SkipArrayText(s: string): (r: Skipped<string>)
    ensures |r.rest| <= |s|
    decreases |s|, 0
  {
    var item := Lex(s);
    if item.tok == ArrayEnd then Skipped(true, item.rest)
    else if item.tok == EndOfText || item.tok == NoToken then Skipped(false, item.rest)
    else
      var r := SkipText(item.tok, item.rest);
      if !r.ok then r
      else
        var sep := Lex(r.rest);
        if sep.tok == Comma then SkipArrayText(sep.rest)
        else Skipped(sep.tok == ArrayEnd, sep.rest)
  }

  // ---- on tokens ----

  function Skip(t: Token, st: Stream): (r: Skipped<Stream>)
    ensures Len(r.rest) <= Len(st)
    decreases Len(st), 1
  {
    match t
    case ObjectStart => SkipObject(st)
    case ArrayStart => SkipArray(st)
    case _ => Skipped(true, st)
  }

  function SkipObject(st: Stream): (r: Skipped<Stream>)
    ensures Len(r.rest) <= Len(st)
    decreases Len(st), 0
  {
    var key := Next(st);
    if key.tok == ObjectEnd then Skipped(true, key.rest)
    else if !key.tok.Str? then Skipped(false, key.rest)
    else
      var colon := Next(key.rest);
      if colon.tok != Colon then Skipped(false, colon.rest)
      else
        var val := Next(colon.rest);
        var r := Skip(val.tok, val.rest);
        if !r.ok then r
        else
          var sep := Next(r.rest);
          if sep.tok == Comma then SkipObject(sep.rest)
          else Skipped(sep.tok == ObjectEnd, sep.rest)
  }

  function SkipArray(st: Stream): (r: Skipped<Stream>)
    ensures Len(r.rest) <= Len(st)
    decreases Len(st), 0
  {
    var item := Next(st);
    if item.tok == ArrayEnd then Skipped(true, item.rest)
    else if item.tok == EndOfText || item.tok == NoToken then Skipped(false, item.rest)
    else
      var r := Skip(item.tok, item.rest);
      if !r.ok then r
      else
        var sep := Next(r.rest);
        if sep.tok == Comma then SkipArray(sep.rest)
        else Skipped(sep.tok == ArrayEnd, sep.rest)
  }

  // ---- completeness on trees ----

  /** After the first token of a tree, the skipper succeeds and leaves exactly what follows the tree. */
  lemma {:induction false} SkipTree(j: Json, k: Stream)
    ensures var st := Toks(j, k); Skip(st.head, st.tail) == Skipped(true, k)
    decreases j
  {
    match j
    case JObj(ms) => SkipMembers(ms, k);
    case JArr(es) => SkipElements(es, k);
    case _ =>
  }

  lemma {:induction false} SkipMembers(ms: Members, k: Stream)
    ensures SkipObject(MemberToks(ms, k)) == Skipped(true, k)
    decreases ms
  {
    if ms.Member? {
      SkipTree(ms.value, MoreMembers(ms.more, k));
      SkipMembers(ms.more, k);
    }
  }

  lemma {:induction false} SkipElements(es: Elements, k: Stream)
    ensures SkipArray(ElementToks(es, k)) == Skipped(true, k)
    decreases es
  {
    if es.Element? {
      SkipTree(es.value, MoreElements(es.more, k));
      ValueStarts(es.value, MoreElements(es.more, k));
      SkipElements(es.more, k);
    }
  }

  lemma {:induction false} ValueStarts(j: Json, k: Stream)
    ensures Toks(j, k).head !in {ArrayEnd, ObjectEnd, Comma, Colon, NoToken, EndOfText}
  {
  }

  // ---- text and tokens agree ----

  /** `r` is what the lexer leaves of `s` after as many calls as `r` has tokens fewer. */
  predicate Reached(s: string, r: string) {
    && Len(StreamOf(r)) <= Len(StreamOf(s))
    && r == After(s, Len(StreamOf(s)) - Len(StreamOf(r)))
  }

  lemma {:induction false} AfterBoth(s: string, a: nat, m: string, b: nat, r: string)
    requires m == After(s, a) && r == After(m, b)
    ensures r == After(s, a + b)
  {
    AfterPlus(s, a, b);
  }

  lemma {:induction false} ReachedPlus(s: string, m: string, r: string)
    requires Reached(s, m) && Reached(m, r)
    ensures Reached(s, r)
  {
    hide Lex, StreamOf, After;
    var ls, lm, lr := Len(StreamOf(s)), Len(StreamOf(m)), Len(StreamOf(r));
    AfterBoth(s, ls - lm, m, lm - lr, r);
  }

  lemma {:induction false} ReachedByLex(s: string)
    requires Lex(s).tok != NoToken && Lex(s).tok != EndOfText
    ensures Reached(s, Lex(s).rest)
  {
    assert After(s, 1) == After(Lex(s).rest, 0);
  }

  predicate Agree(s: string, r: Skipped<string>, q: Skipped<Stream>) {
    r.ok == q.ok && StreamOf(r.rest) == q.rest && (r.ok ==> Reached(s, r.rest))
  }

  lemma {:induction false} SkipAgrees(t: Token, s: string)
    ensures Agree(s, SkipText(t, s), Skip(t, StreamOf(s)))
    decreases |s|, 2
  {
    match t
    case ObjectStart => SkipObjectAgrees(s);
    case ArrayStart => SkipArrayAgrees(s);
    case _ =>
  }

  lemma {:induction false} SkipObjectAgrees(s: string)
    ensures Agree(s, SkipObjectText(s), SkipObject(StreamOf(s)))
    decreases |s|, 1
  {
    var key := Lex(s);
    NextIsLex(s);
    if key.tok == ObjectEnd {
      ReachedByLex(s);
    } else if key.tok.Str? {
      ReachedByLex(s);
      var colon := Lex(key.rest);
      NextIsLex(key.rest);
      if colon.tok == Colon {
        ReachedByLex(key.rest);
        ReachedPlus(s, key.rest, colon.rest);
        SkipObjectValueAgrees(s, colon.rest);
      }
    }
  }

  lemma {:induction false} SkipObjectValueAgrees(s: string, v: string)
    requires |v| < |s| && Reached(s, v)
    ensures var val := Lex(v);
            var r := SkipText(val.tok, val.rest);
            var nv := Next(StreamOf(v));
            var q := Skip(nv.tok, nv.rest);
            var sep := Lex(r.rest);
            var nsep := Next(q.rest);
            && r.ok == q.ok && StreamOf(r.rest) == q.rest
            && sep.tok == nsep.tok && StreamOf(sep.rest) == nsep.rest
            && (r.ok && sep.tok == Comma ==>
                  Agree(s, SkipObjectText(sep.rest), SkipObject(StreamOf(sep.rest))))
            && (r.ok && sep.tok == ObjectEnd ==> Reached(s, sep.rest))
    decreases |s|, 0
  {
    var val := Lex(v);
    NextIsLex(v);
    SkipAgrees(val.tok, val.rest);
    var r := SkipText(val.tok, val.rest);
    var sep := Lex(r.rest);
    NextIsLex(r.rest);
    if val.tok == NoToken || val.tok == EndOfText {
      NothingAfterNoToken(v);
    } else if r.ok && (sep.tok == Comma || sep.tok == ObjectEnd) {
      ReachedByLex(v);
      ReachedPlus(s, v, val.rest);
      ReachedPlus(s, val.rest, r.rest);
      ReachedByLex(r.rest);
      ReachedPlus(s, r.rest, sep.rest);
      if sep.tok == Comma {
        SkipObjectAgrees(sep.rest);
        var o := SkipObjectText(sep.rest);
        if o.ok {
          ReachedPlus(s, sep.rest, o.rest);
        }
      }
    }
  }

  lemma {:induction false} SkipArrayAgrees(s: string)
    ensures Agree(s, SkipArrayText(s), SkipArray(StreamOf(s)))
    decreases |s|, 0
  {
    var item := Lex(s);
    NextIsLex(s);
    if item.tok != EndOfText && item.tok != NoToken {
      ReachedByLex(s);
      if item.tok != ArrayEnd {
        SkipAgrees(item.tok, item.rest);
        var r := SkipText(item.tok, item.rest);
        if r.ok {
          ReachedPlus(s, item.rest, r.rest);
          var sep := Lex(r.rest);
          NextIsLex(r.rest);
          if sep.tok == Comma || sep.tok == ArrayEnd {
            ReachedByLex(r.rest);
            ReachedPlus(s, r.rest, sep.rest);
            if sep.tok == Comma {
              SkipArrayAgrees(sep.rest);
              var o := SkipArrayText(sep.rest);
              if o.ok {
                ReachedPlus(s, sep.rest, o.rest);
              }
            }
          }
        }
      }
    }
  }

  lemma {:induction false} SkipOnLayout(j: Json, ps: seq<Piece>, k: string)
    requires PiecesOk(ps) && IsLayout(ps, j) && NumberStops(k)
    ensures var s := Text(ps) + k;
            var first := Lex(s);
            var r := SkipText(first.tok, first.rest);
            r.ok && StreamOf(r.rest) == StreamOf(k) && Reached(s, r.rest)
  {
    var s := Text(ps) + k;
    var first := Lex(s);
    LexLayout(ps, j, k);
    NextIsLex(s);
    SkipTree(j, StreamOf(k));
    SkipAgrees(first.tok, first.rest);
    ReachedByLex(s);
    ReachedPlus(s, first.rest, SkipText(first.tok, first.rest).rest);
  }

  lemma {:induction false} TokensOfLayout(j: Json, ps: seq<Piece>, k: string)
    requires PiecesOk(ps) && IsLayout(ps, j) && NumberStops(k)
    ensures Len(StreamOf(Text(ps) + k)) == TokenCount(ps) + Len(StreamOf(k))
  {
    LexLayout(ps, j, k);
    EmitLength(ps, StreamOf(k));
    EmitGraft(ps, StreamOf(k));
    ToksGraft(j, End, StreamOf(k));
  }

  /**
   * Skip exactness. Whatever RFC 8259 tree is written, with whatever white space and at whatever
   * nesting depth, and whatever text `k` follows that cannot prolong a number: lexing one token and
   * skipping it succeeds and leaves exactly `k` unread.
   */
  lemma {:induction false} SkipExact(j: Json, ps: seq<Piece>, k: string)
    requires Rfc(j) && IsLayout(ps, j) && NumberStops(k)
    requires ps != [] && ps[|ps| - 1].Tok?
    ensures var first := Lex(Text(ps) + k);
            SkipText(first.tok, first.rest) == Skipped(true, k)
  {
    hide Lex, SkipText, After, StreamOf, Text, TokenCount;
    LayoutPiecesOk(ps, j);
    SkipOnLayout(j, ps, k);
    TokensOfLayout(j, ps, k);
    AfterText(ps, k);
  }

  // ---- the loops of the source ----

  method SkipTokenValue(ctx: ParseContext, t: Token) returns (ok: bool)
    requires ctx.Valid()
    modifies ctx`position
    ensures ctx.Valid() && ctx.position >= old(ctx.position)
    ensures Skipped(ok, ctx.Rest()) == SkipText(t, old(ctx.Rest()))
    ensures Skipped(ok, Tokens(ctx)) == Skip(t, old(Tokens(ctx)))
    decreases |ctx.json| - ctx.position, 1
  {
    SkipAgrees(t, ctx.Rest());
    ok := true;
    if t == ObjectStart {
      ok := SkipObjectLoop(ctx);
    } else if t == ArrayStart {
      ok := SkipArrayLoop(ctx);
    }
  }

  method SkipObjectLoop(ctx: ParseContext) returns (ok: bool)
    requires ctx.Valid()
    modifies ctx`position
    ensures ctx.Valid() && ctx.position >= old(ctx.position)
    ensures Skipped(ok, ctx.Rest()) == SkipObjectText(old(ctx.Rest()))
    decreases |ctx.json| - ctx.position, 0
  {
    while true
      invariant ctx.Valid() && ctx.position >= old(ctx.position)
      invariant SkipObjectText(ctx.Rest()) == SkipObjectText(old(ctx.Rest()))
      decreases |ctx.json| - ctx.position
    {
      var key := ctx.ParseToken();
      if key == ObjectEnd {
        return true;
      }
      if !key.Str? {
        return false;
      }
      var colon := ctx.ParseToken();
      if colon != Colon {
        return false;
      }
      var val := ctx.ParseToken();
      ok := SkipTokenValue(ctx, val);
      if !ok {
        return false;
      }
      var sep := ctx.ParseToken();
      if sep != Comma {
        return sep == ObjectEnd;
      }
    }
  }

  method SkipArrayLoop(ctx: ParseContext) returns (ok: bool)
    requires ctx.Valid()
    modifies ctx`position
    ensures ctx.Valid() && ctx.position >= old(ctx.position)
    ensures Skipped(ok, ctx.Rest()) == SkipArrayText(old(ctx.Rest()))
    decreases |ctx.json| - ctx.position, 0
  {
    while true
      invariant ctx.Valid() && ctx.position >= old(ctx.position)
      invariant SkipArrayText(ctx.Rest()) == SkipArrayText(old(ctx.Rest()))
      decreases |ctx.json| - ctx.position
    {
      var item := ctx.ParseToken();
      if item == ArrayEnd {
        return true;
      }
      if item == EndOfText || item == NoToken {
        return false;
      }
      ok := SkipTokenValue(ctx, item);
      if !ok {
        return false;
      }
      var sep := ctx.ParseToken();
      if sep != Comma {
        return sep == ArrayEnd;
      }
    }
  }
}
