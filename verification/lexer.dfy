/** The hand-written JSON lexer: what one call reads, and the loops that read it. */
module Lexer {
  import opened Chars

  datatype Token =
    | NoToken
    | ObjectStart
    | ObjectEnd
    | ArrayStart
    | ArrayEnd
    | Str(value: string)
    | Number(text: string)
    | Boolean(flag: bool)
    | Null
    | Colon
    | Comma
    | EndOfText

  /** A token together with the text that follows it. */
  datatype Lexed = Lexed(tok: Token, rest: string)

  function SkipSpace(s: string): (r: string)
    ensures |r| <= |s|
    ensures r == "" || !IsSpace(r[0])
  {
    if s != "" && IsSpace(s[0]) then SkipSpace(s[1..]) else s
  }

  /** Distance to the quote that closes a string body; the whole length when none does. */
  function ScanBody(s: string, escaped: bool): (n: nat)
    ensures n <= |s|
    ensures n < |s| ==> s[n] == '"'
  {
    if s == "" || (!escaped && s[0] == '"') then 0
    else 1 + ScanBody(s[1..], !escaped && s[0] == '\\')
  }

  /** Number of leading digits. */
  function Digits(s: string): (n: nat)
    ensures n <= |s| && AllDigits(s[..n])
    ensures n < |s| ==> !IsDigit(s[n])
  {
    if s == "" || !IsDigit(s[0]) then 0
    else
      var n := 1 + Digits(s[1..]);
      assert s[..n] == [s[0]] + s[1..][..n - 1];
      n
  }

  function IntegerEnd(s: string): (n: nat)
    ensures n <= |s|
  {
    var sign := if s != "" && s[0] == '-' then 1 else 0;
    sign + Digits(s[sign..])
  }

  function FractionEnd(s: string): (n: nat)
    ensures n <= |s|
  {
    if s != "" && s[0] == '.' then 1 + Digits(s[1..]) else 0
  }

  function ExponentEnd(s: string): (n: nat)
    ensures n <= |s|
  {
    if s != "" && (s[0] == 'e' || s[0] == 'E') then
      var sign := if |s| > 1 && (s[1] == '+' || s[1] == '-') then 1 else 0;
      1 + sign + Digits(s[1 + sign..])
    else 0
  }

  /** How much of `s` the number branch consumes. */
  function NumberEnd(s: string): (n: nat)
    ensures n <= |s|
    ensures s != "" && (s[0] == '-' || IsDigit(s[0])) ==> n > 0
  {
    var i := IntegerEnd(s);
    var f := i + FractionEnd(s[i..]);
    f + ExponentEnd(s[f..])
  }

  function LexAt(s: string): (l: Lexed)
    ensures |l.rest| <= |s|
    ensures l.tok != NoToken && l.tok != EndOfText ==> |l.rest| < |s|
    ensures l.tok == EndOfText <==> s == ""
    ensures l.tok == NoToken ==> l.rest == "" || l.rest == s
  {
    if s == "" then Lexed(EndOfText, "")
    else if s[0] == '-' || IsDigit(s[0]) then
      Lexed(Number(s[..NumberEnd(s)]), s[NumberEnd(s)..])
    else match s[0]
         case '{' => Lexed(ObjectStart, s[1..])
         case '}' => Lexed(ObjectEnd, s[1..])
         case '[' => Lexed(ArrayStart, s[1..])
         case ']' => Lexed(ArrayEnd, s[1..])
         case ':' => Lexed(Colon, s[1..])
         case ',' => Lexed(Comma, s[1..])
         case '"' =>
           var n := ScanBody(s[1..], false);
           if n == |s| - 1 then Lexed(NoToken, "")
           else Lexed(Str(CStr(s[1..1 + n])), s[n + 2..])
         case 't' => if "true" <= s then Lexed(Boolean(true), s[4..]) else Lexed(NoToken, s)
         case 'f' => if "false" <= s then Lexed(Boolean(false), s[5..]) else Lexed(NoToken, s)
         case 'n' => if "null" <= s then Lexed(Null, s[4..]) else Lexed(NoToken, s)
         case _ => Lexed(NoToken, s)
  }

  /** One call of the lexer on the unread text `s`. */
  function Lex(s: string): (l: Lexed)
    ensures |l.rest| <= |s|
    ensures l.tok != NoToken && l.tok != EndOfText ==> |l.rest| < |s|
  {
    LexAt(SkipSpace(s))
  }

  lemma {:induction false} SkipSpaceTwice(s: string)
    ensures SkipSpace(SkipSpace(s)) == SkipSpace(s)
  {
  }

  /** The parse context: the text and the moving read position. */
  class ParseContext {
    const json: string
    var position: nat

    constructor (json: string)
      ensures this.json == json && position == 0
      ensures Valid() && Rest() == json
    {
      this.json := json;
      position := 0;
    }

    ghost predicate Valid()
      reads this
    {
      position <= |json|
    }

    /** The unread text. */
    ghost function Rest(): (r: string)
      reads this
      requires Valid()
    {
      json[position..]
    }

    method SkipWhitespace()
      requires Valid()
      modifies this`position
      ensures Valid() && position >= old(position)
      ensures Rest() == SkipSpace(old(Rest()))
    {
      while position < |json| && IsSpace(json[position])
        invariant Valid() && position >= old(position)
        invariant SkipSpace(Rest()) == SkipSpace(old(Rest()))
      {
        assert Rest()[1..] == json[position + 1..];
        position := position + 1;
      }
    }

    method MatchString(word: string) returns (found: bool)
      requires Valid()
      modifies this`position
      ensures Valid() && position == old(position) + (if found then |word| else 0)
      ensures found == (word <= old(Rest()))
      ensures Rest() == if found then old(Rest())[|word|..] else old(Rest())
    {
      if position + |word| > |json| {
        return false;
      }
      found := json[position..position + |word|] == word;
      assert json[position..position + |word|] == Rest()[..|word|];
      if found {
        position := position + |word|;
      }
    }

    method SkipDigits()
      requires Valid()
      modifies this`position
      ensures Valid() && position == old(position) + Digits(old(Rest()))
    {
      while position < |json| && IsDigit(json[position])
        invariant Valid() && position >= old(position)
        invariant position + Digits(Rest()) == old(position) + Digits(old(Rest()))
      {
        assert Rest()[1..] == json[position + 1..];
        position := position + 1;
      }
    }

    method ScanString() returns (closed: bool)
      requires Valid()
      modifies this`position
      ensures Valid() && position == old(position) + ScanBody(old(Rest()), false)
      ensures closed <==> position < |json|
    {
      var escaped := false;
      while position < |json|
        invariant Valid() && position >= old(position)
        invariant position + ScanBody(Rest(), escaped) == old(position) + ScanBody(old(Rest()), false)
      {
        var c := json[position];
        if !escaped {
          if c == '"' {
            break;
          } else if c == '\\' {
            escaped := true;
          }
        } else {
          escaped := false;
        }
        assert Rest()[1..] == json[position + 1..];
        position := position + 1;
      }
      closed := position < |json|;
    }

    method ScanInteger()
      requires Valid()
      modifies this`position
      ensures Valid() && position == old(position) + IntegerEnd(old(Rest()))
    {
      if position < |json| && json[position] == '-' {
        position := position + 1;
        assert Rest() == old(Rest())[1..];
      }
      SkipDigits();
    }

    method ScanFraction()
      requires Valid()
      modifies this`position
      ensures Valid() && position == old(position) + FractionEnd(old(Rest()))
    {
      if position < |json| && json[position] == '.' {
        position := position + 1;
        assert Rest() == old(Rest())[1..];
        SkipDigits();
      }
    }

    method ScanExponent()
      requires Valid()
      modifies this`position
      ensures Valid() && position == old(position) + ExponentEnd(old(Rest()))
    {
      if position < |json| && (json[position] == 'e' || json[position] == 'E') {
        position := position + 1;
        if position < |json| && (json[position] == '+' || json[position] == '-') {
          position := position + 1;
        }
        assert Rest() == old(Rest())[position - old(position)..];
        SkipDigits();
      }
    }

    method ParseNumber() returns (t: Token)
      requires Valid()
      modifies this`position
      ensures Valid() && position == old(position) + NumberEnd(old(Rest()))
      ensures t == Number(old(Rest())[..NumberEnd(old(Rest()))])
      ensures Rest() == old(Rest())[NumberEnd(old(Rest()))..]
    {
      hide IntegerEnd, FractionEnd, ExponentEnd;
      var start := position;
      ghost var s := Rest();
      ScanInteger();
      ghost var i := IntegerEnd(s);
      assert Rest() == s[i..];
      ScanFraction();
      ghost var f := i + FractionEnd(s[i..]);
      assert Rest() == s[f..] by {
        assert position == start + f;
      }
      ScanExponent();
      ghost var n := f + ExponentEnd(s[f..]);
      assert n == NumberEnd(s);
      assert position == start + n;
      t := Number(json[start..position]);
      assert json[start..position] == s[..n];
      assert Rest() == s[n..];
    }

    method ParseQuoted() returns (t: Token)
      requires Valid() && position < |json| && json[position] == '"'
      modifies this`position
      ensures Valid() && position > old(position)
      ensures Lexed(t, Rest()) == LexAt(old(Rest()))
    {
      ghost var s := Rest();
      position := position + 1;
      var start := position;
      assert Rest() == s[1..];
      var closed := ScanString();
      if !closed {
        return NoToken;
      }
      t := Str(CStr(json[start..position]));
      assert json[start..position] == s[1..1 + (position - start)];
      position := position + 1;
      assert Rest() == s[position - old(position)..];
    }

    /** One token; white space in front of it is dropped. */
    method ParseToken() returns (t: Token)
      requires Valid()
      modifies this`position
      ensures Valid() && position >= old(position)
      ensures Lexed(t, Rest()) == Lex(old(Rest()))
      ensures t != NoToken && t != EndOfText ==> position > old(position)
    {
      hide NumberEnd, ScanBody, CStr, SkipSpace;
      t := NoToken;
      SkipWhitespace();
      if position >= |json| {
        return EndOfText;
      }
      var c := json[position];
      assert Rest()[0] == c;
      match c
      case '{' => t := ObjectStart; position := position + 1;
      case '}' => t := ObjectEnd; position := position + 1;
      case '[' => t := ArrayStart; position := position + 1;
      case ']' => t := ArrayEnd; position := position + 1;
      case ':' => t := Colon; position := position + 1;
      case ',' => t := Comma; position := position + 1;
      case '"' => t := ParseQuoted();
      case 't' =>
        var found := MatchString("true");
        if found { t := Boolean(true); }
      case 'f' =>
        var found := MatchString("false");
        if found { t := Boolean(false); }
      case 'n' =>
        var found := MatchString("null");
        if found { t := Null; }
      case _ =>
        if c == '-' || IsDigit(c) {
          t := ParseNumber();
        }
    }
  }
}
