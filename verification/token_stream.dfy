/** The tokens a text holds, as every parser in the repository sees them. */
module TokenStream {
  import opened Lexer

  /**
   * Calling the lexer again and again on one text gives finitely many tokens and then repeats itself.
   * `End`: end of text for ever. `Stuck`: NoToken for ever, because an unexpected character is never
   * consumed. `Broken`: NoToken once for a string that is never closed, then end of text.
   */
  datatype Stream = End | Stuck | Broken | Cons(head: Token, tail: Stream)

  datatype Read = Read(tok: Token, rest: Stream)

  function Len(st: Stream): (n: nat) {
    if st.Cons? then 1 + Len(st.tail) else 0
  }

  function Next(st: Stream): (r: Read)
    ensures Len(r.rest) <= Len(st)
    ensures r.tok != NoToken && r.tok != EndOfText ==> Len(r.rest) < Len(st)
  {
    match st
    case End => Read(EndOfText, End)
    case Stuck => Read(NoToken, Stuck)
    case Broken => Read(NoToken, End)
    case Cons(t, rest) => Read(t, rest)
  }

  function Ending(st: Stream): (e: Stream)
    ensures !e.Cons?
  {
    if st.Cons? then Ending(st.tail) else st
  }

  function StreamOf(s: string): (st: Stream)
    ensures st.Cons? ==> st.head != NoToken && st.head != EndOfText
    decreases |s|
  {
    var l := Lex(s);
    if l.tok == EndOfText then End
    else if l.tok == NoToken then (if l.rest == "" then Broken else Stuck)
    else Cons(l.tok, StreamOf(l.rest))
  }

  /** The text that is left after `n` calls of the lexer. */
  function After(s: string, n: nat): (r: string)
    ensures |r| <= |s|
    decreases n
  {
    if n == 0 then s else After(Lex(s).rest, n - 1)
  }

  lemma {:induction false} AfterStep(s: string, n: nat)
    requires n > 0
    ensures After(s, n) == After(Lex(s).rest, n - 1)
  {
    hide Lex;
  }

  /** One lexer call on the text is one step of the stream, whatever the token. */
  lemma {:induction false} NextIsLex(s: string)
    ensures Next(StreamOf(s)) == Read(Lex(s).tok, StreamOf(Lex(s).rest))
  {
    SkipSpaceTwice(s);
  }

  lemma {:induction false} AfterPlus(s: string, m: nat, n: nat)
    ensures After(After(s, m), n) == After(s, m + n)
    decreases m
  {
    hide Lex;
    if m > 0 {
      AfterPlus(Lex(s).rest, m - 1, n);
    }
  }

  /** After NoToken no later call finds a token. */
  lemma {:induction false} NothingAfterNoToken(s: string)
    requires Lex(s).tok == NoToken || Lex(s).tok == EndOfText
    ensures Lex(Lex(s).rest).tok == NoToken || Lex(Lex(s).rest).tok == EndOfText
  {
    SkipSpaceTwice(s);
  }

  lemma {:induction false} StuckForever(s: string, n: nat)
    requires StreamOf(s) == Stuck
    ensures StreamOf(After(s, n)) == Stuck
    decreases n
  {
    if n > 0 {
      NextIsLex(s);
      StuckForever(Lex(s).rest, n - 1);
    }
  }

  lemma {:induction false} StuckReached(s: string, n: nat)
    requires Ending(StreamOf(s)) == Stuck
    ensures Lex(After(s, n)).tok != EndOfText
    decreases n
  {
    NextIsLex(s);
    if StreamOf(s) == Stuck {
      StuckForever(s, n);
      NextIsLex(After(s, n));
    } else if n > 0 {
      StuckReached(Lex(s).rest, n - 1);
    }
  }

  /** Calls needed before the lexer reports the end of the text. */
  function CallsToEnd(st: Stream): (n: nat)
    requires Ending(st) != Stuck
  {
    if st.Cons? then 1 + CallsToEnd(st.tail) else if st.Broken? then 1 else 0
  }

  lemma {:induction false} EndReached(s: string)
    requires Ending(StreamOf(s)) != Stuck
    ensures Lex(After(s, CallsToEnd(StreamOf(s)))).tok == EndOfText
    decreases |s|
  {
    hide LexAt;
    NextIsLex(s);
    if StreamOf(s).Cons? {
      EndReached(Lex(s).rest);
    } else if StreamOf(s).Broken? {
      assert After(s, 1) == After(Lex(s).rest, 0) == "";
    }
  }

  /** A loop that lexes until the end of the text ends exactly when the stream of tokens does not end stuck. */
  lemma {:induction false} EndsUnlessStuck(s: string)
    ensures (exists n: nat :: Lex(After(s, n)).tok == EndOfText) <==> Ending(StreamOf(s)) != Stuck
  {
    if Ending(StreamOf(s)) != Stuck {
      EndReached(s);
    } else {
      forall n: nat ensures Lex(After(s, n)).tok != EndOfText {
        StuckReached(s, n);
      }
    }
  }

  ghost function Tokens(ctx: ParseContext): Stream
    reads ctx
    requires ctx.Valid()
  {
    StreamOf(ctx.Rest())
  }

  /** One lexer call, seen on the stream of tokens. */
  method ReadToken(ctx: ParseContext) returns (t: Token)
    requires ctx.Valid()
    modifies ctx`position
    ensures ctx.Valid() && ctx.position >= old(ctx.position)
    ensures Lexed(t, ctx.Rest()) == Lex(old(ctx.Rest()))
    ensures Read(t, Tokens(ctx)) == Next(old(Tokens(ctx)))
    ensures Len(Tokens(ctx)) <= Len(old(Tokens(ctx)))
    ensures t != NoToken && t != EndOfText ==> Len(Tokens(ctx)) < Len(old(Tokens(ctx)))
  {
    NextIsLex(ctx.Rest());
    t := ctx.ParseToken();
  }
}
