/** String escaping: into a bounded buffer, into an allocated one, and what reading the result back gives. */
module Escaping {
  import opened Chars
  import opened Lexer
  import opened Layout
  import opened Json

  datatype Option<+T> = None | Some(value: T)

  const BACKSPACE := 8 as char
  const FORM_FEED := 12 as char

  function HexDigit(n: nat): (c: char)
    requires n < 16
    ensures IsHex(c)
  {
    if n < 10 then '0' + n as char else 'a' + (n - 10) as char
  }

  /** `%04x` of a control character. */
  function Hex4(n: nat): (s: string)
    requires n < 0x20
    ensures |s| == 4
  {
    ['0', '0', HexDigit(n / 16), HexDigit(n % 16)]
  }

  /** The letter behind the backslash of a two-character escape. */
  function ShortEscape(c: char): (e: Option<char>) {
    if c == '"' || c == '\\' then Some(c)
    else if c == BACKSPACE then Some('b')
    else if c == FORM_FEED then Some('f')
    else if c == '\n' then Some('n')
    else if c == '\r' then Some('r')
    else if c == '\t' then Some('t')
    else None
  }

  function EscapeChar(c: char): (e: string)
    ensures 1 <= |e| <= 6
  {
    if ShortEscape(c).Some? then ['\\', ShortEscape(c).value]
    else if c as int < 0x20 then ['\\', 'u'] + Hex4(c as int)
    else [c]
  }

  function Escape(s: string): (e: string)
    ensures |s| <= |e| <= 6 * |s|
  {
    if s == "" then "" else EscapeChar(s[0]) + Escape(s[1..])
  }

  /** A character that needs no escape. */
  predicate PlainChar(c: char) {
    c != '"' && c != '\\' && c as int >= 0x20
  }

  predicate Plain(s: string) {
    forall i | 0 <= i < |s| :: PlainChar(s[i])
  }

  lemma {:induction false} PlainCharKept(c: char)
    ensures PlainChar(c) ==> EscapeChar(c) == [c]
    ensures !PlainChar(c) ==> |EscapeChar(c)| >= 2 && EscapeChar(c)[0] == '\\'
  {
  }

  lemma {:induction false} EscapePlus(a: string, b: string)
    ensures Escape(a + b) == Escape(a) + Escape(b)
  {
    if a == "" {
      assert a + b == b;
    } else {
      Peel(a, b);
      EscapePlus(a[1..], b);
    }
  }

  /** Escaping is the identity exactly on text without quotes, backslashes and control characters. */
  lemma {:induction false} EscapeIdentity(s: string)
    ensures Escape(s) == s <==> Plain(s)
    ensures Plain(s) <==> |Escape(s)| == |s|
  {
    hide EscapeChar, PlainChar;
    if s != "" {
      var t := s[1..];
      PlainCharKept(s[0]);
      EscapeIdentity(t);
      assert Plain(s) <==> PlainChar(s[0]) && Plain(t) by {
        assert Plain(s) ==> forall i | 0 <= i < |t| :: t[i] == s[i + 1];
        assert PlainChar(s[0]) && Plain(t) ==> forall i | 0 < i < |s| :: s[i] == t[i - 1];
      }
      assert [s[0]] + t == s;
    }
  }

  // ---- the bounded buffer ----

  /** What the loop writes when `used` characters of a buffer of `size` are taken: escapes that do not fit are dropped. */
  function EscapeInto(s: string, used: nat, size: nat): (e: string)
    decreases s
  {
    if s == "" || used + 1 >= size then ""
    else
      var e := EscapeChar(s[0]);
      if used + |e| < size then e + EscapeInto(s[1..], used + |e|, size)
      else EscapeInto(s[1..], used, size)
  }

  /** Whatever the buffer, the terminator still fits. */
  lemma {:induction false} EscapeIntoFits(s: string, used: nat, size: nat)
    requires used < size
    ensures used + |EscapeInto(s, used, size)| < size
    decreases s
  {
    hide EscapeChar;
    if s != "" && used + 1 < size {
      var e := EscapeChar(s[0]);
      EscapeIntoFits(s[1..], if used + |e| < size then used + |e| else used, size);
    }
  }

  lemma {:induction false} EscapeIntoWhole(s: string, used: nat, size: nat)
    requires used + |Escape(s)| < size
    ensures EscapeInto(s, used, size) == Escape(s)
    decreases s
  {
    hide EscapeChar;
    if s != "" {
      EscapeIntoWhole(s[1..], used + |EscapeChar(s[0])|, size);
    }
  }

  /** A buffer gets the whole escaped text exactly when that text and a terminator fit into it. */
  lemma {:induction false} BufferSuffices(s: string, size: nat)
    requires size > 0
    ensures EscapeInto(s, 0, size) == Escape(s) <==> |Escape(s)| < size
  {
    EscapeIntoFits(s, 0, size);
    if |Escape(s)| < size {
      EscapeIntoWhole(s, 0, size);
    }
  }

  /** Six characters for each character, and one for the terminator, always suffice. */
  lemma {:induction false} SixfoldSuffices(s: string)
    ensures EscapeInto(s, 0, 6 * |s| + 1) == Escape(s)
  {
    EscapeIntoWhole(s, 0, 6 * |s| + 1);
  }

  /** One character of the source, at `n` in a buffer of which `size` characters may be used. */
  method EscapeOne(c: char, dst: array<char>, n: nat, size: nat) returns (m: nat)
    requires n + 1 < size <= dst.Length
    modifies dst
    ensures m == (if n + |EscapeChar(c)| < size then n + |EscapeChar(c)| else n)
    ensures n <= m < size
    ensures dst[..n] == old(dst[..n])
    ensures m > n ==> dst[n..m] == EscapeChar(c)
    ensures forall j | m < j < dst.Length :: dst[j] == old(dst[j])
  {
    m := n;
    if ShortEscape(c).Some? {
      if n + 2 < size {
        dst[n] := '\\';
        dst[n + 1] := ShortEscape(c).value;
        m := n + 2;
      }
    } else if c as int < 0x20 {
      if n + 6 < size {
        var hex := Hex4(c as int);
        dst[n], dst[n + 1] := '\\', 'u';
        dst[n + 2], dst[n + 3], dst[n + 4], dst[n + 5] := hex[0], hex[1], hex[2], hex[3];
        dst[n + 6] := '\0';
        m := n + 6;
      }
    } else {
      dst[n] := c;
      m := n + 1;
    }
  }

  lemma {:induction false} EscapeIntoNext(s: string, i: nat, n: nat, size: nat, out: string, all: string)
    requires i < |s| && n + 1 < size && out + EscapeInto(s[i..], n, size) == all
    ensures var e := EscapeChar(s[i]);
            if n + |e| < size then (out + e) + EscapeInto(s[i + 1..], n + |e|, size) == all
            else out + EscapeInto(s[i + 1..], n, size) == all
  {
    hide EscapeChar;
    assert s[i..][1..] == s[i + 1..];
  }

  /** `json_escape_string`: the loop, into any non-empty buffer. */
  method EscapeString(src: string, dst: array<char>, size: nat) returns (n: nat)
    requires 0 < size <= dst.Length
    modifies dst
    ensures n < size && dst[n] == '\0'
    ensures dst[..n] == EscapeInto(src, 0, size)
    ensures forall j | n < j < dst.Length :: dst[j] == old(dst[j])
  {
    hide EscapeChar;
    n := 0;
    var i := 0;
    while i < |src| && n < size - 1
      invariant i <= |src| && n < size
      invariant dst[..n] + EscapeInto(src[i..], n, size) == EscapeInto(src, 0, size)
      invariant forall j | n < j < dst.Length :: dst[j] == old(dst[j])
    {
      EscapeIntoNext(src, i, n, size, dst[..n], EscapeInto(src, 0, size));
      ghost var before := dst[..n];
      var m := EscapeOne(src[i], dst, n, size);
      assert m > n ==> dst[..m] == before + EscapeChar(src[i]) by {
        assert dst[..m] == dst[..n] + dst[n..m];
      }
      n := m;
      i := i + 1;
    }
    dst[n] := '\0';
  }

  /** `json_escape_string_alloc`: nothing is ever dropped. */
  method EscapeStringAlloc(str: string) returns (escaped: array<char>, n: nat)
    ensures fresh(escaped) && n < escaped.Length && escaped[n] == '\0'
    ensures escaped[..n] == Escape(str)
  {
    escaped := new char[|str| * 6 + 1];
    n := EscapeString(str, escaped, escaped.Length);
    SixfoldSuffices(str);
  }

  // ---- reading it back ----

  function HexValue(c: char): (n: nat)
    requires IsHex(c)
    ensures n < 16
  {
    if IsDigit(c) then c as int - '0' as int
    else if 'a' <= c <= 'f' then c as int - 'a' as int + 10
    else c as int - 'A' as int + 10
  }

  predicate IsUnit(s: string) {
    |s| >= 6 && s[0] == '\\' && s[1] == 'u' && IsHex(s[2]) && IsHex(s[3]) && IsHex(s[4]) && IsHex(s[5])
  }

  /** The code unit of \uXXXX. */
  function Unit(s: string): (n: nat)
    requires IsUnit(s)
    ensures n <= 0xFFFF
  {
    ((HexValue(s[2]) * 16 + HexValue(s[3])) * 16 + HexValue(s[4])) * 16 + HexValue(s[5])
  }

  function Unshort(c: char): (r: Option<char>) {
    match c
    case '"' => Some('"')
    case '\\' => Some('\\')
    case '/' => Some('/')
    case 'b' => Some(BACKSPACE)
    case 'f' => Some(FORM_FEED)
    case 'n' => Some('\n')
    case 'r' => Some('\r')
    case 't' => Some('\t')
    case _ => None
  }

  function Prefix(c: char, r: Option<string>): (q: Option<string>) {
    if r.None? then None else Some([c] + r.value)
  }

  /** The text a string body stands for, by section 7 of RFC 8259; surrogate pairs give one character. */
  function Decode(s: string): (r: Option<string>)
    decreases |s|
  {
    if s == "" then Some("")
    else if s[0] != '\\' then
      if PlainChar(s[0]) then Prefix(s[0], Decode(s[1..])) else None
    else if |s| >= 2 && Unshort(s[1]).Some? then Prefix(Unshort(s[1]).value, Decode(s[2..]))
    else if !IsUnit(s) then None
    else if Unit(s) < 0xD800 || Unit(s) >= 0xE000 then Prefix(Unit(s) as char, Decode(s[6..]))
    else if Unit(s) < 0xDC00 && IsUnit(s[6..]) && 0xDC00 <= Unit(s[6..]) < 0xE000 then
      Prefix((0x10000 + (Unit(s) - 0xD800) * 0x400 + (Unit(s[6..]) - 0xDC00)) as char, Decode(s[12..]))
    else None
  }

  lemma {:induction false} DecodeShort(c: char, t: string)
    requires ShortEscape(c).Some?
    ensures Decode(EscapeChar(c) + t) == Prefix(c, Decode(t))
  {
    var e := EscapeChar(c) + t;
    assert e[0] == '\\' && e[1] == ShortEscape(c).value && e[2..] == t;
    assert Unshort(e[1]) == Some(c);
  }

  lemma {:induction false} HexBack(n: nat)
    requires n < 16
    ensures HexValue(HexDigit(n)) == n
  {
  }

  lemma {:induction false} DecodeControl(c: char, t: string)
    requires c as int < 0x20 && ShortEscape(c).None?
    ensures Decode(EscapeChar(c) + t) == Prefix(c, Decode(t))
  {
    var n := c as int;
    var e := EscapeChar(c) + t;
    HexBack(n / 16);
    HexBack(n % 16);
    assert e[0] == '\\' && e[1] == 'u' && e[2] == '0' && e[3] == '0';
    assert e[4] == HexDigit(n / 16) && e[5] == HexDigit(n % 16);
    assert e[6..] == t;
    assert HexValue('0') == 0;
    assert IsUnit(e) && Unit(e) == n;
    assert Unshort('u') == None;
  }

  lemma {:induction false} DecodeOne(c: char, t: string)
    ensures Decode(EscapeChar(c) + t) == Prefix(c, Decode(t))
  {
    if ShortEscape(c).Some? {
      DecodeShort(c, t);
    } else if c as int < 0x20 {
      DecodeControl(c, t);
    } else {
      assert ([c] + t)[1..] == t;
    }
  }

  /** A decoder that follows the standard recovers every text from its escaped form. */
  lemma {:induction false} DecodeEscape(s: string)
    ensures Decode(Escape(s)) == Some(s)
  {
    if s != "" {
      hide Decode, EscapeChar;
      DecodeEscape(s[1..]);
      DecodeOne(s[0], Escape(s[1..]));
      assert [s[0]] + s[1..] == s;
    } else {
      assert Decode("") == Some("");
    }
  }

  lemma {:induction false} EscapedCharBody(c: char, t: string)
    requires RfcBody(t)
    ensures RfcBody(EscapeChar(c) + t)
  {
    var e := EscapeChar(c) + t;
    if ShortEscape(c).Some? {
      assert e[2..] == t && e[1] in "\"\\/bfnrt";
    } else if c as int < 0x20 {
      assert e[2..6] == Hex4(c as int) && e[6..] == t;
      assert e[1] == 'u' && e[1] !in "\"\\/bfnrt";
    } else {
      assert e[1..] == t;
    }
  }

  lemma {:induction false} EscapedIsBody(s: string)
    ensures RfcBody(Escape(s)) && StringBody(Escape(s))
  {
    if s != "" {
      EscapedIsBody(s[1..]);
      EscapedCharBody(s[0], Escape(s[1..]));
    }
    hide EscapeChar;
    BodyScans(Escape(s));
  }

  /**
   * A written string, in front of any text, lexes to one string token and the lexer stops just behind
   * the closing quote. The token's value is the escaped text: the lexer does not undo escapes.
   */
  lemma {:induction false} LexEscaped(s: string, k: string)
    ensures Lex("\"" + Escape(s) + "\"" + k) == Lexed(Str(Escape(s)), k)
  {
    EscapedIsBody(s);
    LexString(Escape(s), k);
  }

  // ---- which stored strings survive being saved and loaded ----

  /** What a string comes back as: the escaped text, cut to the `room` characters of its buffer. */
  function Reload(s: string, room: nat): (r: string) {
    Clip(Escape(s), room)
  }

  predicate AllBackslash(s: string) {
    forall i | 0 <= i < |s| :: s[i] == '\\'
  }

  /** Plain text, then nothing but backslashes to the end of a full buffer. */
  ghost predicate FullOfBackslashes(s: string, room: nat) {
    |s| == room && exists i | 0 <= i < |s| :: Plain(s[..i]) && AllBackslash(s[i..])
  }

  lemma {:induction false} EscapeOfRun(u: string, m: nat)
    requires m <= |u| && AllBackslash(u[..m])
    ensures |Escape(u)| >= 2 * m && AllBackslash(Escape(u)[..2 * m])
    decreases m
  {
    if m > 0 {
      assert u[..m][0] == '\\' && u[1..][..m - 1] == u[..m][1..];
      EscapeOfRun(u[1..], m - 1);
      assert Escape(u) == ['\\', '\\'] + Escape(u[1..]);
    }
  }

  /** A text that begins with a backslash and is a prefix of its own escaped form is all backslashes. */
  lemma {:induction false} BackslashRun(u: string, m: nat)
    requires u <= Escape(u) && u != "" && u[0] == '\\' && 1 <= m <= |u|
    ensures AllBackslash(u[..m])
    decreases m
  {
    if m > 1 {
      BackslashRun(u, m - 1);
      EscapeOfRun(u, m - 1);
      assert Escape(u)[..2 * (m - 1)][m - 1] == '\\';
      assert u[m - 1] == Escape(u)[m - 1];
      assert u[..m] == u[..m - 1] + [u[m - 1]];
    }
  }

  function PlainPrefix(s: string): (n: nat)
    ensures n <= |s| && Plain(s[..n])
    ensures n < |s| ==> !PlainChar(s[n])
  {
    if s == "" || !PlainChar(s[0]) then 0
    else
      var n := 1 + PlainPrefix(s[1..]);
      assert s[..n] == [s[0]] + s[1..][..n - 1];
      n
  }

  lemma {:induction false} EscapeSplit(s: string, i: nat)
    requires i <= |s| && Plain(s[..i])
    ensures Escape(s) == s[..i] + Escape(s[i..])
  {
    TakeDrop(s, i);
    EscapePlus(s[..i], s[i..]);
    EscapeIdentity(s[..i]);
  }

  lemma {:induction false} PrefixBehind(a: string, u: string, e: string)
    requires a + u <= a + e
    ensures u <= e
  {
    assert (a + u)[|a|..] == u && (a + e)[|a|..] == e;
    assert (a + e)[..|a + u|] == a + u;
    assert forall i | 0 <= i < |u| :: u[i] == (a + u)[|a| + i] == (a + e)[|a| + i] == e[i];
  }

  lemma {:induction false} SurvivorShape(s: string, room: nat)
    requires |s| <= room && Reload(s, room) == s && !Plain(s)
    ensures FullOfBackslashes(s, room)
  {
    hide EscapeChar;
    EscapeIdentity(s);
    assert |s| == room;
    var i := PlainPrefix(s);
    var a, u := s[..i], s[i..];
    assert s[..|s|] == s && i < |s|;
    EscapeSplit(s, i);
    TakeDrop(s, i);
    PrefixBehind(a, u, Escape(u));
    PlainCharKept(u[0]);
    assert u[0] == Escape(u)[0] == '\\';
    BackslashRun(u, |u|);
    assert u[..|u|] == u;
  }

  lemma {:induction false} BackslashesSurvive(s: string, room: nat, i: nat)
    requires |s| == room && i <= |s| && Plain(s[..i]) && AllBackslash(s[i..])
    ensures Reload(s, room) == s
  {
    var a, u := s[..i], s[i..];
    EscapeSplit(s, i);
    assert u[..|u|] == u;
    EscapeOfRun(u, |u|);
    var e := Escape(u);
    assert e[..|u|] == u by {
      assert forall j | 0 <= j < |u| :: e[j] == e[..2 * |u|][j] == '\\' == u[j];
    }
    assert (a + e)[..room] == a + e[..|u|] == s;
  }

  /**
   * A string that fits its buffer survives saving and loading exactly when it needs no escape, or fills
   * the buffer with plain text followed by backslashes only: then the doubled backslashes are cut off again.
   */
  lemma {:induction false} SurvivesExactly(s: string, room: nat)
    requires |s| <= room
    ensures Reload(s, room) == s <==> Plain(s) || FullOfBackslashes(s, room)
  {
    if Plain(s) {
      EscapeIdentity(s);
    } else if Reload(s, room) == s {
      SurvivorShape(s, room);
    } else if FullOfBackslashes(s, room) {
      var i :| 0 <= i < |s| && Plain(s[..i]) && AllBackslash(s[i..]);
      BackslashesSurvive(s, room, i);
    }
  }

  /** A quote comes back with a backslash in front of it. */
  lemma {:induction false} QuoteGrows(room: nat)
    requires room >= 2
    ensures Reload("\"", room) == "\\\"" != "\""
  {
    assert "\""[1..] == "";
    assert Escape("\"") == EscapeChar('"') + Escape("");
  }
}
