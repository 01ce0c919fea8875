/** What a pretty-printed text looks like: where its lines end, how far they are indented, and what stands on them. */
module PrettyLayout {
  import opened Chars
  import opened Transform
  import opened Pretty
  import opened PrettyPrint

  // ---- lines of a text ----

  /** The text, cut at its line breaks. */
  function Lines(s: string): (lines: seq<string>)
    ensures |lines| > 0
  {
    if s == "" then [""]
    else if s[0] == '\n' then [""] + Lines(s[1..])
    else Glue([s[0]], Lines(s[1..]))
  }

  function Glue(x: string, lines: seq<string>): (r: seq<string>)
    requires |lines| > 0
    ensures |r| == |lines|
  {
    [x + lines[0]] + lines[1..]
  }

  lemma {:induction false} LinesPlus(x: string, r: string)
    requires '\n' !in x
    ensures Lines(x + r) == Glue(x, Lines(r))
  {
    if x == "" {
      assert x + r == r && "" + Lines(r)[0] == Lines(r)[0];
    } else {
      Peel(x, r);
      LinesPlus(x[1..], r);
      assert [x[0]] + (x[1..] + Lines(r)[0]) == x + Lines(r)[0];
    }
  }

  lemma {:induction false} LineBreak(r: string)
    ensures Lines("\n" + r) == [""] + Lines(r)
  {
    assert ("\n" + r)[1..] == r;
  }

  // ---- where the input is cut ----

  /** A line ends behind an opening bracket or a comma, outside strings. */
  predicate EndsLine(m: Mode, c: char) {
    !m.inString && c in {'{', '[', ','}
  }

  /** A closing bracket outside strings begins a line. */
  predicate BeginsLine(m: Mode, c: char) {
    !m.inString && c in {'}', ']'}
  }

  /** The parts of the text that stand on one line each. */
  function Parts(m: Mode, s: string): (parts: seq<string>)
    ensures |parts| > 0
    decreases s
  {
    if s == "" then [""]
    else
      var more := Parts(Step(m, s[0]), s[1..]);
      if EndsLine(m, s[0]) then [[s[0]]] + more
      else if BeginsLine(m, s[0]) then [""] + Glue([s[0]], more)
      else Glue([s[0]], more)
  }

  /** Brackets and commas outside strings. */
  function Breaks(m: Mode, s: string): (n: nat)
    decreases s
  {
    if s == "" then 0
    else (if EndsLine(m, s[0]) || BeginsLine(m, s[0]) then 1 else 0) + Breaks(Step(m, s[0]), s[1..])
  }

  function Concat(parts: seq<string>): (s: string) {
    if parts == [] then "" else parts[0] + Concat(parts[1..])
  }

  /** Nothing is lost or moved, and there is one line more than brackets and commas. */
  lemma {:induction false} PartsCut(m: Mode, s: string)
    ensures Concat(Parts(m, s)) == s && |Parts(m, s)| == 1 + Breaks(m, s)
    decreases s
  {
    if s != "" {
      var more := Parts(Step(m, s[0]), s[1..]);
      PartsCut(Step(m, s[0]), s[1..]);
      GlueConcat([s[0]], more);
      assert [s[0]] + s[1..] == s;
      if EndsLine(m, s[0]) {
        assert ([[s[0]]] + more)[1..] == more;
      } else if BeginsLine(m, s[0]) {
        assert ([""] + Glue([s[0]], more))[1..] == Glue([s[0]], more);
        assert "" + s == s;
      }
    } else {
      assert [""][1..] == [] && Concat([]) == "";
    }
  }

  lemma {:induction false} GlueConcat(x: string, parts: seq<string>)
    requires |parts| > 0
    ensures Concat(Glue(x, parts)) == x + Concat(parts)
  {
    assert Glue(x, parts)[1..] == parts[1..];
    assert x + parts[0] + Concat(parts[1..]) == x + (parts[0] + Concat(parts[1..]));
  }

  // ---- what stands on a line ----

  /** The nesting depth behind the text: opening minus closing brackets outside strings. */
  function Depth(m: Mode, s: string): (d: int)
    decreases s
  {
    if s == "" then 0
    else (if m.inString then 0 else if s[0] in {'{', '['} then 1 else if s[0] in {'}', ']'} then -1 else 0)
         + Depth(Step(m, s[0]), s[1..])
  }

  /** The text with one blank behind every colon outside strings. */
  function Spread(m: Mode, s: string): (r: string)
    decreases s
  {
    if s == "" then ""
    else (if !m.inString && s[0] == ':' then ": " else [s[0]]) + Spread(Step(m, s[0]), s[1..])
  }

  /** The text in front of line `k`. */
  function Before(parts: seq<string>, k: nat): (s: string)
    requires k <= |parts|
  {
    Concat(parts[..k])
  }

  /** The depth on line `k`: a closing bracket that begins the line counts already. */
  function DepthOn(m: Mode, parts: seq<string>, k: nat): (d: int)
    requires k < |parts|
  {
    var n := Run(m, Before(parts, k));
    Depth(m, Before(parts, k)) + if parts[k] != "" && BeginsLine(n, parts[k][0]) then -1 else 0
  }

  function AtLeastZero(n: int): (r: nat) {
    if n > 0 then n else 0
  }

  /** Line `k` is indented by its depth, `level` at the beginning, and holds its part of the text. */
  predicate LineOk(m: Mode, level: int, indent: int, parts: seq<string>, k: nat, line: string)
    requires k < |parts|
  {
    line == Spaces(AtLeastZero((level + DepthOn(m, parts, k)) * indent)) + Spread(Run(m, Before(parts, k)), parts[k])
  }

  // ---- one character more in front ----

  /** What a bracket outside strings adds to the depth. */
  function Change(m: Mode, c: char): (d: int) {
    if m.inString then 0 else if c in {'{', '['} then 1 else if c in {'}', ']'} then -1 else 0
  }

  lemma {:induction false} OneMore(m: Mode, c: char, y: string)
    ensures Run(m, [c] + y) == Run(Step(m, c), y) && Depth(m, [c] + y) == Change(m, c) + Depth(Step(m, c), y)
    ensures Spread(m, [c] + y) == (if !m.inString && c == ':' then ": " else [c]) + Spread(Step(m, c), y)
  {
    assert ([c] + y)[1..] == y;
  }

  lemma {:induction false} BeforeGlue(x: string, more: seq<string>, k: nat)
    requires 0 < k <= |more|
    ensures Before(Glue(x, more), k) == x + Before(more, k)
  {
    assert Glue(x, more)[..k] == Glue(x, more[..k]);
    GlueConcat(x, more[..k]);
  }

  lemma {:induction false} BeforeCons(x: string, more: seq<string>, k: nat)
    requires k <= |more|
    ensures Before([x] + more, k + 1) == x + Before(more, k)
  {
    assert ([x] + more)[..k + 1] == [x] + more[..k];
    assert ([x] + more[..k])[1..] == more[..k];
  }

  /** A line keeps its place and its indentation when one character comes in front of the text. */
  lemma {:induction false} LineShifts(m: Mode, c: char, level: int, indent: int, more: seq<string>, j: nat,
                                      parts: seq<string>, k: nat, line: string)
    requires j < |more| && k < |parts| && parts[k] == more[j] && Before(parts, k) == [c] + Before(more, j)
    requires LineOk(Step(m, c), level + Change(m, c), indent, more, j, line)
    ensures LineOk(m, level, indent, parts, k, line)
  {
    OneMore(m, c, Before(more, j));
    hide Before, Run, Depth, Spread, Spaces, AtLeastZero;
  }

  /** The first part of a text begins with no bracket that would begin a line. */
  lemma {:induction false} FirstPart(m: Mode, s: string)
    ensures var p := Parts(m, s)[0]; p != "" ==> !BeginsLine(m, p[0])
  {
  }

  lemma {:induction false} FirstLineOk(m: Mode, level: int, indent: int, s: string)
    ensures LineOk(m, level, indent, Parts(m, s), 0, Spaces(AtLeastZero(level * indent)) + Spread(m, Parts(m, s)[0]))
  {
    FirstPart(m, s);
    assert Parts(m, s)[..0] == [] && Concat([]) == "";
  }

  // ---- the lines of the pretty printing ----

  /** The lines of a text that goes on from a nesting level: the first is where the text goes on, the others are indented. */
  predicate Laid(m: Mode, level: int, indent: int, s: string, lines: seq<string>) {
    var parts := Parts(m, s);
    && |lines| == |parts| && lines[0] == Spread(m, parts[0])
    && forall k | 1 <= k < |parts| :: LineOk(m, level, indent, parts, k, lines[k])
  }

  lemma {:induction false} LaidPlain(m: Mode, level: int, indent: int, s: string, lines: seq<string>)
    requires s != "" && !EndsLine(m, s[0]) && !BeginsLine(m, s[0])
    requires Laid(Step(m, s[0]), level, indent, s[1..], lines)
    ensures Laid(m, level, indent, s, Glue(if !m.inString && s[0] == ':' then ": " else [s[0]], lines))
  {
    var c, more := s[0], Parts(Step(m, s[0]), s[1..]);
    var x := if !m.inString && c == ':' then ": " else [c];
    var parts, all := Parts(m, s), Glue(x, lines);
    assert parts == Glue([c], more);
    OneMore(m, c, more[0]);
    hide LineOk, Parts, Before, Spread;
    forall k | 1 <= k < |parts| ensures LineOk(m, level, indent, parts, k, all[k]) {
      BeforeGlue([c], more, k);
      LineShifts(m, c, level, indent, more, k, parts, k, lines[k]);
    }
  }

  lemma {:induction false} LaidEnds(m: Mode, level: int, indent: int, s: string, lines: seq<string>)
    requires s != "" && EndsLine(m, s[0])
    requires Laid(Step(m, s[0]), level + Change(m, s[0]), indent, s[1..], lines)
    ensures var pad := Spaces(AtLeastZero((level + Change(m, s[0])) * indent));
            Laid(m, level, indent, s, [[s[0]]] + Glue(pad, lines))
  {
    var c, l := s[0], level + Change(m, s[0]);
    var more := Parts(Step(m, c), s[1..]);
    var pad := Spaces(AtLeastZero(l * indent));
    var parts, all := Parts(m, s), [[c]] + Glue(pad, lines);
    assert parts == [[c]] + more;
    OneMore(m, c, "");
    assert [c] + "" == [c];
    FirstLineOk(Step(m, c), l, indent, s[1..]);
    hide LineOk, Parts, Before, Spaces, AtLeastZero;
    forall k | 1 <= k < |parts| ensures LineOk(m, level, indent, parts, k, all[k]) {
      BeforeCons([c], more, k - 1);
      LineShifts(m, c, level, indent, more, k - 1, parts, k, all[k]);
    }
  }

  lemma {:induction false} LaidBegins(m: Mode, level: int, indent: int, s: string, lines: seq<string>)
    requires s != "" && BeginsLine(m, s[0])
    requires Laid(Step(m, s[0]), level - 1, indent, s[1..], lines)
    ensures var pad := Spaces(AtLeastZero((level - 1) * indent));
            Laid(m, level, indent, s, [""] + Glue(pad + [s[0]], lines))
  {
    var c := s[0];
    var more := Parts(Step(m, c), s[1..]);
    var pad := Spaces(AtLeastZero((level - 1) * indent));
    var parts, all := Parts(m, s), [""] + Glue(pad + [c], lines);
    assert parts == [""] + Glue([c], more);
    assert LineOk(m, level, indent, parts, 1, all[1]) by {
      OneMore(m, c, more[0]);
      BeforeCons("", Glue([c], more), 0);
      assert Before(Glue([c], more), 0) == "";
      assert all[1] == pad + [c] + lines[0] == pad + ([c] + lines[0]);
    }
    hide LineOk, Parts, Before, Spaces, AtLeastZero, Spread;
    forall k | 2 <= k < |parts| ensures LineOk(m, level, indent, parts, k, all[k]) {
      BeforeCons("", Glue([c], more), k - 1);
      BeforeGlue([c], more, k - 1);
      assert "" + ([c] + Before(more, k - 1)) == [c] + Before(more, k - 1);
      LineShifts(m, c, level, indent, more, k - 1, parts, k, lines[k - 1]);
    }
    assert Spread(m, "") == "" by { NothingSpread(m); }
  }

  lemma {:induction false} NothingSpread(m: Mode)
    ensures Spread(m, "") == ""
  {
  }

  lemma {:induction false} NextLevel(m: Mode, level: int, indent: int, c: char)
    ensures Shift(m, level * indent, indent, c) == (level + Change(m, c)) * indent
    ensures Blanks((level + Change(m, c)) * indent) == AtLeastZero((level + Change(m, c)) * indent)
  {
    assert (level + 1) * indent == level * indent + indent && (level - 1) * indent == level * indent - indent;
    assert level + 0 == level;
  }

  lemma {:induction false} NoBreakIn(n: nat, c: char)
    requires c != '\n'
    ensures '\n' !in Spaces(n) && '\n' !in Spaces(n) + [c]
  {
  }

  /** What is written for one character, and the lines behind it. */
  lemma {:induction false} PutLines(m: Mode, c: char, pad: nat, r: string)
    requires c != '\n'
    ensures Lines(Put(m, c, pad) + r)
         == if EndsLine(m, c) then [[c]] + Glue(Spaces(pad), Lines(r))
            else if BeginsLine(m, c) then [""] + Glue(Spaces(pad) + [c], Lines(r))
            else Glue(if !m.inString && c == ':' then ": " else [c], Lines(r))
  {
    NoBreakIn(pad, c);
    var w := Spaces(pad);
    hide Spaces, Lines;
    if EndsLine(m, c) {
      assert [c] + ("\n" + w) + r == [c] + ("\n" + (w + r));
      LinesPlus([c], "\n" + (w + r));
      LineBreak(w + r);
      LinesPlus(w, r);
      assert [c] + "" == [c];
    } else if BeginsLine(m, c) {
      assert ("\n" + w) + [c] + r == "\n" + ((w + [c]) + r);
      LineBreak((w + [c]) + r);
      LinesPlus(w + [c], r);
    } else if !m.inString && c == ':' {
      assert [c] + " " == ": ";
      LinesPlus(": ", r);
    } else {
      LinesPlus([c], r);
    }
  }

  lemma {:induction false} PrintedHead(m: Mode, level: int, indent: int, s: string)
    requires s != "" && s[0] != '\n'
    ensures var c, l := s[0], level + Change(m, s[0]);
            var pad := Spaces(AtLeastZero(l * indent));
            var rest := Lines(PrettyFrom(Step(m, c), l * indent, indent, s[1..]));
            Lines(PrettyFrom(m, level * indent, indent, s))
            == if EndsLine(m, c) then [[c]] + Glue(pad, rest)
               else if BeginsLine(m, c) then [""] + Glue(pad + [c], rest)
               else Glue(if !m.inString && c == ':' then ": " else [c], rest)
  {
    var c, l := s[0], level + Change(m, s[0]);
    var r := PrettyFrom(Step(m, c), l * indent, indent, s[1..]);
    NextLevel(m, level, indent, c);
    assert PrettyFrom(m, level * indent, indent, s) == Put(m, c, AtLeastZero(l * indent)) + r;
    hide PrettyFrom, AtLeastZero, Spaces, Lines, Put, Glue, EndsLine, BeginsLine, Change;
    PutLines(m, c, AtLeastZero(l * indent), r);
  }

  lemma {:induction false} LinesLaid(m: Mode, level: int, indent: int, s: string)
    requires '\n' !in s
    ensures Laid(m, level, indent, s, Lines(PrettyFrom(m, level * indent, indent, s)))
    decreases s
  {
    if s != "" {
      hide Laid, PrettyFrom, Lines, Glue;
      var c := s[0];
      var l := level + Change(m, c);
      var rest := Lines(PrettyFrom(Step(m, c), l * indent, indent, s[1..]));
      LinesLaid(Step(m, c), l, indent, s[1..]);
      PrintedHead(m, level, indent, s);
      if EndsLine(m, c) {
        LaidEnds(m, level, indent, s, rest);
      } else if BeginsLine(m, c) {
        LaidBegins(m, level, indent, s, rest);
      } else {
        assert Change(m, c) == 0;
        LaidPlain(m, level, indent, s, rest);
      }
    }
  }

  /**
   * The layout of the unbounded pretty printing of a text without line breaks. It has one line more than the text has
   * brackets and commas outside strings; the lines hold the parts of the text, in order, that end behind an opening
   * bracket or a comma and begin with a closing bracket; every line is indented by its depth times the indent, or not
   * at all where that is negative; and nothing is added but one blank behind every colon outside strings.
   */
  lemma {:induction false} PrettyLines(s: string, indent: int)
    requires '\n' !in s
    ensures var lines, parts := Lines(Full(indent, s)), Parts(START, s);
            && |lines| == |parts| == 1 + Breaks(START, s) && Concat(parts) == s
            && forall k | 0 <= k < |lines| ::
                 lines[k] == Spaces(AtLeastZero(DepthOn(START, parts, k) * indent))
                             + Spread(Run(START, Before(parts, k)), parts[k])
  {
    LinesLaid(START, 0, indent, s);
    PartsCut(START, s);
    assert 0 * indent == 0;
    FirstLineOk(START, 0, indent, s);
    var lines, parts := Lines(Full(indent, s)), Parts(START, s);
    hide PrettyFrom, Lines, Parts, DepthOn, Before, Spread, Run;
    assert Spaces(AtLeastZero(0)) + lines[0] == lines[0];
    forall k | 0 <= k < |lines| ensures LineOk(START, 0, indent, parts, k, lines[k]) {
    }
  }

  /** So is what is returned, where it fits the buffer. */
  lemma {:induction false} PrintedLines(s: string, indent: int)
    requires '\n' !in s && indent > 0 && |Full(indent, s)| <= Limit(s)
    ensures var lines, parts := Lines(Printed(s, indent)), Parts(START, s);
            && |lines| == |parts|
            && forall k | 0 <= k < |lines| ::
                 lines[k] == Spaces(AtLeastZero(DepthOn(START, parts, k) * indent))
                             + Spread(Run(START, Before(parts, k)), parts[k])
  {
    PrintedInFull(s, indent);
    PrettyLines(s, indent);
    hide Full, Printed, Lines, Parts, DepthOn, Before, Spread, Run, Limit;
  }

  // ---- the parts end and begin where they should ----

  /** Character `i` of part `k` ends a line only as the last of a part that is not the last, and begins one only as the first. */
  predicate WellCut(m: Mode, parts: seq<string>, k: nat)
    requires k < |parts|
  {
    var n := Run(m, Before(parts, k));
    && (forall i | 0 <= i < |parts[k]| ::
          && (EndsLine(Run(n, parts[k][..i]), parts[k][i]) ==> i == |parts[k]| - 1 && k < |parts| - 1)
          && (BeginsLine(Run(n, parts[k][..i]), parts[k][i]) ==> i == 0 && k > 0))
    && (k < |parts| - 1 ==>
          || (parts[k] != "" && EndsLine(Run(n, parts[k][..|parts[k]| - 1]), parts[k][|parts[k]| - 1]))
          || (parts[k + 1] != "" && BeginsLine(Run(m, Before(parts, k + 1)), parts[k + 1][0])))
  }

  lemma {:induction false} CutShifts(m: Mode, c: char, more: seq<string>, j: nat, parts: seq<string>, k: nat)
    requires j < |more| && k < |parts| && |parts| - k == |more| - j && parts[k] == more[j]
    requires Before(parts, k) == [c] + Before(more, j) && (j > 0 ==> k > 0)
    requires j + 1 < |more| ==> parts[k + 1] == more[j + 1] && Before(parts, k + 1) == [c] + Before(more, j + 1)
    requires WellCut(Step(m, c), more, j)
    ensures WellCut(m, parts, k)
  {
    OneMore(m, c, Before(more, j));
    if j + 1 < |more| {
      OneMore(m, c, Before(more, j + 1));
    }
    hide Before, Run;
  }

  lemma {:induction false} CutGlued(m: Mode, c: char, more: seq<string>, parts: seq<string>, k: nat)
    requires |more| > 0 && k < |parts| && |parts| - k == |more| && parts[k] == [c] + more[0] && Before(parts, k) == ""
    requires 1 < |more| ==> parts[k + 1] == more[1] && Before(parts, k + 1) == [c] + Before(more, 1)
    requires !EndsLine(m, c) && (BeginsLine(m, c) ==> k > 0) && WellCut(Step(m, c), more, 0)
    ensures WellCut(m, parts, k)
  {
    var p, n := parts[k], Step(m, c);
    assert Before(more, 0) == "" by { assert more[..0] == []; }
    if 1 < |more| {
      OneMore(m, c, Before(more, 1));
    }
    assert Run(m, "") == m && Run(n, "") == n && p[..0] == "";
    hide Before, Run;
    forall i | 0 < i < |p| ensures Run(m, p[..i]) == Run(n, more[0][..i - 1]) && p[i] == more[0][i - 1] {
      assert p[..i] == [c] + more[0][..i - 1];
      OneMore(m, c, more[0][..i - 1]);
    }
    assert more[0] != "" ==> p[|p| - 1] == more[0][|more[0]| - 1];
  }

  lemma {:induction false} CutAlone(m: Mode, c: char, more: seq<string>)
    requires EndsLine(m, c) && |more| > 0
    ensures WellCut(m, [[c]] + more, 0)
  {
    assert Before([[c]] + more, 0) == "" by { assert ([[c]] + more)[..0] == []; }
    assert [c][..0] == "" && Run(m, "") == m;
  }

  lemma {:induction false} CutEmpty(m: Mode, c: char, parts: seq<string>)
    requires BeginsLine(m, c) && |parts| > 1 && parts[0] == "" && parts[1] != "" && parts[1][0] == c
    ensures WellCut(m, parts, 0) && Before(parts, 1) == ""
  {
    assert parts[..1] == [""] && [""][1..] == [] && Concat([]) == "";
    assert Before(parts, 0) == "" by { assert parts[..0] == []; }
    assert Run(m, "") == m;
  }

  /** Every line of the cut ends behind an opening bracket or a comma, or in front of a closing bracket, and none is passed over. */
  lemma {:induction false} PartsWellCut(m: Mode, s: string, k: nat)
    requires k < |Parts(m, s)|
    ensures WellCut(m, Parts(m, s), k)
    decreases s
  {
    if s == "" {
      assert [""][..0] == [];
    } else {
      var c, n := s[0], Step(m, s[0]);
      var more, parts := Parts(n, s[1..]), Parts(m, s);
      forall j | 0 <= j < |more| ensures WellCut(n, more, j) {
        PartsWellCut(n, s[1..], j);
      }
      hide WellCut, Parts, Before;
      if EndsLine(m, c) {
        assert parts == [[c]] + more by { PartsEnd(m, s); }
        if k == 0 {
          CutAlone(m, c, more);
        } else {
          BeforeCons([c], more, k - 1);
          if k < |more| {
            BeforeCons([c], more, k);
          }
          CutShifts(m, c, more, k - 1, parts, k);
        }
      } else if BeginsLine(m, c) {
        assert parts == [""] + Glue([c], more) by { PartsBegin(m, s); }
        CutEmpty(m, c, parts);
        forall i | 0 < i <= |more| ensures Before(parts, i + 1) == [c] + Before(more, i) {
          BeforeCons("", Glue([c], more), i);
          BeforeGlue([c], more, i);
          assert "" + ([c] + Before(more, i)) == [c] + Before(more, i);
        }
        if k == 1 {
          CutGlued(m, c, more, parts, 1);
        } else if k > 1 {
          CutShifts(m, c, more, k - 1, parts, k);
        }
      } else {
        assert parts == Glue([c], more) by { PartsGo(m, s); }
        forall i | 0 < i <= |more| ensures Before(parts, i) == [c] + Before(more, i) {
          BeforeGlue([c], more, i);
        }
        if k == 0 {
          assert Before(parts, 0) == "" by { NothingBefore(parts); }
          CutGlued(m, c, more, parts, 0);
        } else {
          CutShifts(m, c, more, k, parts, k);
        }
      }
    }
  }

  lemma {:induction false} PartsEnd(m: Mode, s: string)
    requires s != "" && EndsLine(m, s[0])
    ensures Parts(m, s) == [[s[0]]] + Parts(Step(m, s[0]), s[1..])
  {
  }

  lemma {:induction false} PartsBegin(m: Mode, s: string)
    requires s != "" && BeginsLine(m, s[0])
    ensures Parts(m, s) == [""] + Glue([s[0]], Parts(Step(m, s[0]), s[1..]))
  {
  }

  lemma {:induction false} PartsGo(m: Mode, s: string)
    requires s != "" && !EndsLine(m, s[0]) && !BeginsLine(m, s[0])
    ensures Parts(m, s) == Glue([s[0]], Parts(Step(m, s[0]), s[1..]))
  {
  }

  lemma {:induction false} NothingBefore(parts: seq<string>)
    ensures Before(parts, 0) == ""
  {
    assert parts[..0] == [];
  }
}
