/** The pretty-printing loop with its size guess, and exactly when the guess cuts nothing off. */
module PrettyPrint {
  import opened Chars
  import opened Transform
  import opened Pretty

  /** State of the loop: the output so far, the flags, the left margin, and how many characters were read. */
  datatype Page = Page(out: string, mode: Mode, margin: int, read: nat)

  const BLANK := Page("", START, 0, 0)

  function Least(a: nat, b: int): (n: nat) {
    if b <= 0 then 0 else if a <= b then a else b
  }

  /** Blanks written in front of or behind `c`: the inner loop also stops at `limit`. */
  function CutPad(p: Page, c: char, indent: int, limit: int): (n: nat) {
    Least(Blanks(Shift(p.mode, p.margin, indent, c)), limit - |p.out| - if Closes(c) then 1 else 2)
  }

  /** One pass of the loop. */
  function Turn(p: Page, c: char, indent: int, limit: int): (q: Page)
    ensures |q.out| > |p.out|
  {
    Page(p.out + Put(p.mode, c, CutPad(p, c, indent, limit)), Step(p.mode, c), Shift(p.mode, p.margin, indent, c), p.read + 1)
  }

  /** The state after the loop has looked at the first `i` characters; it stops reading at `limit`. */
  function Pages(s: string, indent: int, limit: int, i: nat): (p: Page)
    requires i <= |s|
    ensures p.read <= i
  {
    if i == 0 then BLANK
    else
      var p := Pages(s, indent, limit, i - 1);
      if |p.out| < limit then Turn(p, s[i - 1], indent, limit) else p
  }

  /** The size guess: twice the input, less one for the terminator. */
  function Limit(s: string): (n: int) {
    2 * |s| - 1
  }

  /** What the pretty printer returns; without a positive indent it copies its input. */
  function Printed(s: string, indent: int): (r: string) {
    if indent <= 0 then s else Pages(s, indent, Limit(s), |s|).out
  }

  function MarginAfter(m: Mode, margin: int, indent: int, s: string): (n: int)
    decreases s
  {
    if s == "" then margin
    else MarginAfter(Step(m, s[0]), Shift(m, margin, indent, s[0]), indent, s[1..])
  }

  lemma {:induction false} PrettySnoc(m: Mode, margin: int, indent: int, a: string, c: char)
    ensures var k := MarginAfter(m, margin, indent, a);
            && PrettyFrom(m, margin, indent, a + [c])
               == PrettyFrom(m, margin, indent, a) + Put(Run(m, a), c, Blanks(Shift(Run(m, a), k, indent, c)))
            && MarginAfter(m, margin, indent, a + [c]) == Shift(Run(m, a), k, indent, c)
            && Run(m, a + [c]) == Step(Run(m, a), c)
    decreases a
  {
    hide Put, Step, Shift, Blanks;
    if a == "" {
      assert a + [c] == [c] && [c][1..] == "";
      assert MarginAfter(Step(m, c), Shift(m, margin, indent, c), indent, "") == Shift(m, margin, indent, c);
      assert Run(Step(m, c), "") == Step(m, c);
      var x := Put(m, c, Blanks(Shift(m, margin, indent, c)));
      assert PrettyFrom(m, margin, indent, [c]) == x + "" == x;
    } else {
      Peel(a, [c]);
      PrettySnoc(Step(m, a[0]), Shift(m, margin, indent, a[0]), indent, a[1..], c);
    }
  }

  // ---- while it fits, the loop writes the unbounded printing ----

  /** The state of the loop if there were no limit. */
  function FullPage(s: string, indent: int, i: nat): (p: Page)
    requires i <= |s|
  {
    Page(Full(indent, s[..i]), Run(START, s[..i]), MarginAfter(START, 0, indent, s[..i]), i)
  }

  lemma {:induction false} FullTurn(s: string, indent: int, i: nat)
    requires 0 < i <= |s|
    ensures var p := FullPage(s, indent, i - 1);
            var c := s[i - 1];
            var q := FullPage(s, indent, i);
            && q.out == p.out + Put(p.mode, c, Blanks(Shift(p.mode, p.margin, indent, c)))
            && q.mode == Step(p.mode, c) && q.margin == Shift(p.mode, p.margin, indent, c)
  {
    assert s[..i] == s[..i - 1] + [s[i - 1]];
    PrettySnoc(START, 0, indent, s[..i - 1], s[i - 1]);
  }

  lemma {:induction false} PutSize(m: Mode, c: char, pad: nat)
    ensures |Put(m, c, pad)| ==
            if m.inString || !Structural(c) then 1 else if c == ':' then 2 else 2 + pad
  {
  }

  /** One pass with cut indentation: the same text if it fits, else a text that reaches the limit. */
  lemma {:induction false} TurnFits(p: Page, c: char, indent: int, limit: int)
    requires |p.out| < limit
    ensures var full := p.out + Put(p.mode, c, Blanks(Shift(p.mode, p.margin, indent, c)));
            var q := Turn(p, c, indent, limit);
            && (|full| <= limit ==> q.out == full)
            && (|full| > limit ==> |q.out| >= limit)
  {
    var want, cut := Blanks(Shift(p.mode, p.margin, indent, c)), CutPad(p, c, indent, limit);
    PutSize(p.mode, c, want);
    PutSize(p.mode, c, cut);
    assert cut == want || cut == Least(want, limit - |p.out| - if Closes(c) then 1 else 2);
    hide Put, Shift, Step;
  }

  lemma {:induction false} Fits(s: string, indent: int, limit: int, i: nat)
    requires i <= |s|
    ensures |Full(indent, s[..i])| <= limit ==> Pages(s, indent, limit, i) == FullPage(s, indent, i)
    ensures |Full(indent, s[..i])| > limit ==> |Pages(s, indent, limit, i).out| >= limit
  {
    if i == 0 {
      assert s[..0] == "";
    } else {
      hide Full, Run, MarginAfter, Put, Shift, Step, CutPad;
      Fits(s, indent, limit, i - 1);
      FullTurn(s, indent, i);
      var f := FullPage(s, indent, i - 1);
      if |f.out| < limit {
        TurnFits(f, s[i - 1], indent, limit);
      }
    }
  }

  // ---- what is written minifies to what was read ----

  /** `out` minifies to what `read` minifies to, and leaves the machine in the same state. */
  predicate SameMinified(out: string, read: string, m: Mode) {
    Minify(START, out) == Minify(START, read) && Run(START, out) == m == Run(START, read)
  }

  lemma {:induction false} MinifyTurn(out: string, read: string, m: Mode, c: char, pad: nat)
    requires SameMinified(out, read, m)
    ensures SameMinified(out + Put(m, c, pad), read + [c], Step(m, c))
  {
    PutStep(m, c, pad);
    MinifyPlus(START, out, Put(m, c, pad));
    MinifyPlus(START, read, [c]);
    MinifyOne(m, c);
  }

  lemma {:induction false} MinifyPages(s: string, indent: int, limit: int, i: nat)
    requires i <= |s|
    ensures var p := Pages(s, indent, limit, i);
            && SameMinified(p.out, s[..p.read], p.mode)
            && (p.read < i ==> |p.out| >= limit)
  {
    if i == 0 {
      assert s[..0] == "";
    } else {
      hide SameMinified, CutPad, Put, Step, Shift, Minify, Run;
      var p, c := Pages(s, indent, limit, i - 1), s[i - 1];
      MinifyPages(s, indent, limit, i - 1);
      if |p.out| < limit {
        MinifyTurn(p.out, s[..p.read], p.mode, c, CutPad(p, c, indent, limit));
        TakeSnoc(s, i - 1);
      }
    }
  }

  lemma {:induction false} MinifyOne(m: Mode, c: char)
    ensures Minify(m, [c]) == (if Kept(m, c) then [c] else "") && Run(m, [c]) == Step(m, c)
  {
    assert [c][1..] == "";
  }

  lemma {:induction false} ReadGrows(s: string, indent: int, limit: int, i: nat, j: nat)
    requires i <= j <= |s|
    ensures Pages(s, indent, limit, i).read <= Pages(s, indent, limit, j).read
    ensures |Pages(s, indent, limit, i).out| >= limit ==> Pages(s, indent, limit, j) == Pages(s, indent, limit, i)
  {
    hide Turn;
    if i < j {
      ReadGrows(s, indent, limit, i, j - 1);
      assert forall p, c :: Turn(p, c, indent, limit).read == p.read + 1 by {
        TurnReads(indent, limit);
      }
    }
  }

  lemma {:induction false} TurnReads(indent: int, limit: int)
    ensures forall p, c :: Turn(p, c, indent, limit).read == p.read + 1
  {
  }

  /** Character `i` is read exactly when the unbounded printing of everything in front of it stays below the limit. */
  lemma {:induction false} ReadExactly(s: string, indent: int, limit: int, i: nat)
    requires i < |s|
    ensures i < Pages(s, indent, limit, |s|).read <==> |Full(indent, s[..i])| < limit
  {
    Fits(s, indent, limit, i);
    if |Full(indent, s[..i])| < limit {
      assert Pages(s, indent, limit, i + 1).read == i + 1;
      ReadGrows(s, indent, limit, i + 1, |s|);
    } else {
      ReadGrows(s, indent, limit, i, |s|);
    }
  }

  /** Position behind the last character that minifying keeps; 0 when it keeps none. */
  function KeptEnd(m: Mode, s: string): (n: nat)
    ensures n <= |s|
    decreases s
  {
    if s == "" then 0
    else
      var n := KeptEnd(Step(m, s[0]), s[1..]);
      if n > 0 then n + 1 else if Kept(m, s[0]) then 1 else 0
  }

  lemma {:induction false} NothingKept(m: Mode, s: string)
    ensures Minify(m, s) == "" <==> KeptEnd(m, s) == 0
    decreases s
  {
    if s != "" {
      NothingKept(Step(m, s[0]), s[1..]);
    }
  }

  lemma {:induction false} KeptBehind(m: Mode, s: string, r: nat)
    requires r <= |s|
    ensures Minify(Run(m, s[..r]), s[r..]) == "" <==> KeptEnd(m, s) <= r
    decreases s
  {
    if r == 0 {
      assert s[..0] == "" && s[0..] == s;
      NothingKept(m, s);
    } else {
      KeptBehind(Step(m, s[0]), s[1..], r - 1);
      assert s[..r][1..] == s[1..][..r - 1] && s[r..] == s[1..][r - 1..];
    }
  }

  /**
   * What the loop has written minifies to the minified input if and only if there is nothing to keep, or the unbounded
   * printing of the text in front of the last kept character is shorter than the size guess.
   */
  lemma {:induction false} WrittenKeepsAll(s: string, indent: int)
    requires indent > 0
    ensures var q := KeptEnd(START, s);
            Minify(START, Printed(s, indent)) == Minify(START, s)
            <==> q == 0 || |Full(indent, s[..q - 1])| < Limit(s)
  {
    var p := Pages(s, indent, Limit(s), |s|);
    var q := KeptEnd(START, s);
    MinifyPages(s, indent, Limit(s), |s|);
    TakeDrop(s, p.read);
    MinifyPlus(START, s[..p.read], s[p.read..]);
    KeptBehind(START, s, p.read);
    Cancel(Minify(START, s[..p.read]), Minify(Run(START, s[..p.read]), s[p.read..]));
    hide Minify, Run, Pages, Step, KeptEnd, Full;
    assert Minify(START, p.out) == Minify(START, s) <==> q <= p.read;
    if q > 0 {
      ReadExactly(s, indent, Limit(s), q - 1);
    }
  }

  // ---- the buffer of twice the input ----

  /** The buffer the guess allocates. */
  function Room(s: string): (n: nat) {
    2 * |s|
  }

  /** How much one pass writes, in front of the limit. */
  lemma {:induction false} TurnSize(p: Page, c: char, indent: int, limit: int)
    requires |p.out| < limit
    ensures var full := p.out + Put(p.mode, c, Blanks(Shift(p.mode, p.margin, indent, c)));
            var q := Turn(p, c, indent, limit);
            && |q.out| <= limit + 1
            && (|q.out| == limit + 1 <==>
                  && !p.mode.inString
                  && (if Closes(c) then |full| >= limit + 1 else Structural(c) && |p.out| == limit - 1))
  {
    PutSize(p.mode, c, Blanks(Shift(p.mode, p.margin, indent, c)));
    PutSize(p.mode, c, CutPad(p, c, indent, limit));
    hide Put, Shift, Step;
  }

  /**
   * Character `i` fills the buffer to its last byte: a closing bracket whose indentation reaches the limit, or another
   * structural character that finds two bytes left.
   */
  predicate FillsRoom(s: string, indent: int, i: nat)
    requires i < |s|
  {
    && !Run(START, s[..i]).inString
    && |Full(indent, s[..i])| < Limit(s)
    && (if Closes(s[i]) then |Full(indent, s[..i + 1])| >= Room(s)
        else Structural(s[i]) && |Full(indent, s[..i])| == Room(s) - 2)
  }

  /** There is no byte left for the terminator. */
  predicate NoTerminator(s: string, indent: int) {
    s == "" || exists i :: 0 <= i < |s| && FillsRoom(s, indent, i)
  }

  /** The pass over character `i`, when there is one. */
  lemma {:induction false} PassSize(s: string, indent: int, i: nat)
    requires i < |s| && |Pages(s, indent, Limit(s), i).out| < Limit(s)
    ensures var q := Pages(s, indent, Limit(s), i + 1);
            |q.out| <= Room(s) && (|q.out| == Room(s) <==> FillsRoom(s, indent, i))
  {
    Fits(s, indent, Limit(s), i);
    var p := FullPage(s, indent, i);
    assert Pages(s, indent, Limit(s), i) == p;
    FullTurn(s, indent, i + 1);
    TurnSize(p, s[i], indent, Limit(s));
  }

  lemma {:induction false} PagesSize(s: string, indent: int, i: nat)
    requires s != "" && i <= |s|
    ensures var p := Pages(s, indent, Limit(s), i);
            |p.out| <= Room(s) && (|p.out| == Room(s) <==> exists j :: 0 <= j < i && FillsRoom(s, indent, j))
  {
    hide FillsRoom, Turn;
    if i > 0 {
      PagesSize(s, indent, i - 1);
      var p := Pages(s, indent, Limit(s), i - 1);
      if |p.out| < Limit(s) {
        PassSize(s, indent, i - 1);
      } else {
        assert !FillsRoom(s, indent, i - 1) by { NotReached(s, indent, i - 1); }
      }
    }
  }

  lemma {:induction false} NotReached(s: string, indent: int, i: nat)
    requires i < |s| && |Pages(s, indent, Limit(s), i).out| >= Limit(s)
    ensures !FillsRoom(s, indent, i)
  {
    Fits(s, indent, Limit(s), i);
  }

  /**
   * With a positive indent, what is written always fits the buffer; the terminator behind it fits if and only if no
   * character fills the buffer, and the input is not empty.
   */
  lemma {:induction false} TerminatorFits(s: string, indent: int)
    requires indent > 0
    ensures |Printed(s, indent)| <= Room(s)
    ensures |Printed(s, indent)| < Room(s) <==> !NoTerminator(s, indent)
  {
    hide FillsRoom, Turn;
    if s != "" {
      PagesSize(s, indent, |s|);
    }
  }

  /**
   * Exactly when pretty-printing returns the document. With a positive indent, the result is a terminated text that
   * minifies to the minified input if and only if the terminator fits, and there is nothing to keep or the unbounded
   * printing of the text in front of the last kept character is shorter than the size guess.
   */
  lemma {:induction false} PrintedKeepsAll(s: string, indent: int)
    requires indent > 0
    ensures var q := KeptEnd(START, s);
            |Printed(s, indent)| < Room(s) && Minify(START, Printed(s, indent)) == Minify(START, s)
            <==> !NoTerminator(s, indent) && (q == 0 || |Full(indent, s[..q - 1])| < Limit(s))
  {
    hide Minify, KeptEnd, Full, FillsRoom, Printed, NoTerminator;
    TerminatorFits(s, indent);
    WrittenKeepsAll(s, indent);
  }

  /** When the unbounded printing fits, it is what is returned; it then lexes to the input's tokens. */
  lemma {:induction false} PrintedInFull(s: string, indent: int)
    requires indent > 0 ==> |Full(indent, s)| <= Limit(s)
    ensures Printed(s, indent) == if indent <= 0 then s else Full(indent, s)
    ensures Minify(START, Printed(s, indent)) == Minify(START, s)
    ensures indent > 0 ==> |Printed(s, indent)| < Room(s)
  {
    assert s[..|s|] == s;
    if indent > 0 {
      Fits(s, indent, Limit(s), |s|);
      MinifyPretty(START, 0, indent, s);
    }
  }

  /** The guess is too small already for an array of one digit: the closing bracket is lost. */
  lemma {:induction false} PrintedCutsShort()
    ensures Minify(START, Printed("[1]", 2)) != Minify(START, "[1]")
  {
    hide Pages, Minify;
    var s := "[1]";
    assert KeptEnd(START, s) == 3 by {
      assert s[1..] == "1]" && "1]"[1..] == "]" && "]"[1..] == "";
    }
    assert |Full(2, s[..2])| == 5 by {
      assert s[..2] == "[1" && "[1"[1..] == "1" && "1"[1..] == "";
    }
    WrittenKeepsAll(s, 2);
  }

  /** An ordinary array whose printing leaves no byte for the terminator, though every character is written. */
  lemma {:induction false} NoByteLeft()
    ensures NoTerminator("[1,2]", 1) && |Printed("[1,2]", 1)| == Room("[1,2]")
  {
    var s := "[1,2]";
    hide Pages, Minify;
    assert |Full(1, s[..4])| == 8 && |Full(1, s[..5])| == 10 && !Run(START, s[..4]).inString by {
      assert s[..4] == "[1,2" && "[1,2"[1..] == "1,2" && "1,2"[1..] == ",2" && ",2"[1..] == "2" && "2"[1..] == "";
      assert s[..5] == s && s[1..] == "1,2]" && "1,2]"[1..] == ",2]" && ",2]"[1..] == "2]" && "2]"[1..] == "]" && "]"[1..] == "";
    }
    assert FillsRoom(s, 1, 4);
    TerminatorFits(s, 1);
  }

  // ---- the loop, in its buffer ----

  /** The branches of the loop for a character outside strings, at `j` in the buffer. */
  method WriteOutside(buffer: array<char>, j: nat, c: char, level: int, indent: int) returns (k: nat, newLevel: int)
    requires j + 1 < buffer.Length
    modifies buffer
    ensures newLevel == if Opens(c) then level + 1 else if Closes(c) then level - 1 else level
    ensures j < k <= buffer.Length
    ensures var limit := buffer.Length - 1;
            buffer[..k] == old(buffer[..j]) + Put(START, c, Least(Blanks(newLevel * indent), limit - j - if Closes(c) then 1 else 2))
  {
    hide Blanks, Least;
    newLevel := level;
    if c == '{' || c == '[' {
      buffer[j] := c;
      buffer[j + 1] := '\n';
      newLevel := level + 1;
      assert buffer[..j + 2] == old(buffer[..j]) + ([c] + "\n");
      k := Pad(buffer, j + 2, newLevel * indent);
    } else if c == '}' || c == ']' {
      buffer[j] := '\n';
      newLevel := level - 1;
      assert buffer[..j + 1] == old(buffer[..j]) + "\n";
      k := Pad(buffer, j + 1, newLevel * indent);
      buffer[k] := c;
      k := k + 1;
    } else if c == ',' {
      buffer[j] := c;
      buffer[j + 1] := '\n';
      assert buffer[..j + 2] == old(buffer[..j]) + ([c] + "\n");
      k := Pad(buffer, j + 2, newLevel * indent);
    } else if c == ':' {
      buffer[j] := c;
      buffer[j + 1] := ' ';
      k := j + 2;
    } else {
      buffer[j] := c;
      k := j + 1;
    }
  }

  /** The inner loop: blanks up to `want`, as long as there is room. */
  method Pad(buffer: array<char>, j: nat, want: int) returns (k: nat)
    requires j <= buffer.Length && buffer.Length > 0
    modifies buffer
    ensures k == j + Least(Blanks(want), buffer.Length - 1 - j)
    ensures j <= k <= buffer.Length && (j < buffer.Length ==> k < buffer.Length)
    ensures buffer[..k] == old(buffer[..j]) + Spaces(k - j)
  {
    k := j;
    while k - j < want && k < buffer.Length - 1
      invariant j <= k <= buffer.Length && (k - j <= want || k == j) && (k < buffer.Length || k == j)
      invariant buffer[..k] == old(buffer[..j]) + Spaces(k - j)
    {
      buffer[k] := ' ';
      k := k + 1;
    }
  }

  /** One pass of the loop, for the character `c`: the flags, the level and the buffer all move on. */
  method WriteOne(buffer: array<char>, j: nat, c: char, m: Mode, level: int, indent: int, ghost read: nat)
    returns (k: nat, n: Mode, newLevel: int)
    requires j + 1 < buffer.Length && (m.inString || !m.escaped)
    modifies buffer
    ensures k <= buffer.Length && (n.inString || !n.escaped)
    ensures Page(buffer[..k], n, newLevel * indent, read + 1)
         == Turn(Page(old(buffer[..j]), m, level * indent, read), c, indent, buffer.Length - 1)
  {
    hide Blanks, Least;
    n, newLevel := m, level;
    if !m.inString {
      Product(level, indent);
      PutOutside(m, c);
      k, newLevel := WriteOutside(buffer, j, c, level, indent);
      if c == '"' {
        n := n.(inString := true);
      }
    } else {
      buffer[j] := c;
      k := j + 1;
      if !m.escaped && c == '"' {
        n := n.(inString := false);
      }
      n := n.(escaped := c == '\\' && !m.escaped);
    }
  }

  lemma {:induction false} PutOutside(m: Mode, c: char)
    requires !m.inString
    ensures forall pad :: Put(m, c, pad) == Put(START, c, pad)
  {
  }

  /**
   * The loop of the source with a positive indent, in the buffer it allocates: every character goes inside it.
   * `terminated` says whether the terminator does; where it does not, the source writes it behind the buffer.
   */
  method PrettyPrintLoop(json: string, indent: int) returns (formatted: array<char>, j: nat, terminated: bool)
    requires indent > 0
    ensures formatted.Length == Room(json) && j <= formatted.Length
    ensures formatted[..j] == Printed(json, indent)
    ensures terminated <==> !NoTerminator(json, indent)
    ensures terminated ==> j < formatted.Length && formatted[j] == '\0'
  {
    hide NoTerminator, Turn;
    formatted := new char[|json| * 2];
    var level := 0;
    var mode := START;
    j := 0;
    var i := 0;
    while i < |json| && j < |json| * 2 - 1
      invariant i <= |json| && j <= formatted.Length
      invariant mode.inString || !mode.escaped
      invariant Page(formatted[..j], mode, level * indent, i) == Pages(json, indent, Limit(json), i)
    {
      j, mode, level := WriteOne(formatted, j, json[i], mode, level, indent, i);
      i := i + 1;
    }
    if i < |json| {
      ReadGrows(json, indent, Limit(json), i, |json|);
    }
    TerminatorFits(json, indent);
    terminated := j < formatted.Length;
    if terminated {
      formatted[j] := '\0';
    }
  }

  /** `json_pretty_print`: without a positive indent, a copy. */
  method PrettyPrintText(json: string, indent: int) returns (result: array<char>, n: nat, terminated: bool)
    ensures n <= result.Length && result[..n] == Printed(json, indent)
    ensures terminated <==> indent <= 0 || !NoTerminator(json, indent)
    ensures terminated ==> n < result.Length && result[n] == '\0'
  {
    if indent <= 0 {
      n := |json|;
      result := new char[n + 1](i => if 0 <= i < |json| then json[i] else '\0');
      assert result[..n] == json;
      return result, n, true;
    }
    result, n, terminated := PrettyPrintLoop(json, indent);
  }

  lemma {:induction false} Product(level: int, indent: int)
    ensures (level + 1) * indent == level * indent + indent
    ensures (level - 1) * indent == level * indent - indent
  {
  }
}
