/** `snprintf("%d")` and `atoi`, over unbounded integers. */
module Decimal {
  import opened Chars
  import opened Lexer
  import opened Layout
  import opened Json

  function Digit(n: nat): (c: char)
    requires n < 10
    ensures IsDigit(c)
  {
    '0' + n as char
  }

  function DigitValue(c: char): (n: nat)
    requires IsDigit(c)
    ensures n < 10
  {
    c as int - '0' as int
  }

  function NatText(n: nat): (s: string)
    ensures s != "" && IsDigit(s[0]) && (n > 0 ==> s[0] != '0')
  {
    if n < 10 then [Digit(n)] else NatText(n / 10) + [Digit(n % 10)]
  }

  function IntText(n: int): (s: string) {
    if n < 0 then "-" + NatText(-n) else NatText(n)
  }

  function ParseNat(s: string, acc: nat): (n: nat)
    decreases s
  {
    if s == "" || !IsDigit(s[0]) then acc else ParseNat(s[1..], acc * 10 + DigitValue(s[0]))
  }

  /** White space, an optional sign, and digits up to the first other character. */
  function Atoi(s: string): (n: int) {
    var t := SkipSpace(s);
    if t != "" && t[0] == '-' then 0 - (ParseNat(t[1..], 0) as int)
    else if t != "" && t[0] == '+' then ParseNat(t[1..], 0)
    else ParseNat(t, 0)
  }

  lemma {:induction false} NatTextDigits(n: nat)
    ensures AllDigits(NatText(n))
  {
    if n >= 10 {
      NatTextDigits(n / 10);
    }
  }

  lemma {:induction false} ParseNatSnoc(s: string, c: char, acc: nat)
    requires AllDigits(s) && IsDigit(c)
    ensures ParseNat(s + [c], acc) == ParseNat(s, acc) * 10 + DigitValue(c)
    decreases s
  {
    if s == "" {
      assert s + [c] == [c] && [c][1..] == "";
    } else {
      Peel(s, [c]);
      assert s[0] in s;
      ParseNatSnoc(s[1..], c, acc * 10 + DigitValue(s[0]));
    }
  }

  lemma {:induction false} ParseNatText(n: nat)
    ensures ParseNat(NatText(n), 0) == n
  {
    if n < 10 {
      assert [Digit(n)][1..] == "";
    } else {
      ParseNatText(n / 10);
      NatTextDigits(n / 10);
      ParseNatSnoc(NatText(n / 10), Digit(n % 10), 0);
    }
  }

  /** Reading back a printed integer gives the integer. */
  lemma {:induction false} AtoiOfIntText(n: int)
    ensures Atoi(IntText(n)) == n
  {
    var d := NatText(if n < 0 then -n else n);
    ParseNatText(if n < 0 then -n else n);
    assert ("-" + d)[1..] == d;
  }

  /** A printed integer is a number by the JSON grammar. */
  lemma {:induction false} IntTextIsNumber(n: int)
    ensures RfcNumber(IntText(n))
  {
    var m := if n < 0 then -n else n;
    var sign := if n < 0 then "-" else "";
    NatTextDigits(m);
    assert RfcInt(NatText(m)) by {
      if m == 0 {
        assert NatText(0) == "0";
      }
    }
    assert sign + NatText(m) + "" + "" == IntText(n);
    assert NumberParts(IntText(n), sign, NatText(m), "", "");
  }

  // ---- what `atoi` makes of any text ----

  predicate AllZeros(s: string) {
    forall i | 0 <= i < |s| :: s[i] == '0'
  }

  /** The digits of a natural number, without leading zeros: none for 0. */
  function Figures(m: nat): (d: string) {
    if m == 0 then "" else NatText(m)
  }

  /** White space, a sign, zeros, the digits of `m`, and a rest that does not prolong them. */
  predicate Spelled(x: string, w: string, sign: string, zeros: string, m: nat, r: string) {
    && x == w + (sign + (zeros + (Figures(m) + r)))
    && AllSpace(w) && sign in {"", "-", "+"} && AllZeros(zeros)
    && (r == "" || !IsDigit(r[0]))
    && (sign == "" && zeros == "" && m == 0 && r != "" ==> !IsSpace(r[0]) && r[0] !in {'-', '+'})
  }

  function Signed(sign: string, m: nat): (n: int) {
    if sign == "-" then 0 - m else m
  }

  /** The text begins with the integer `n`, as far as it begins with an integer at all. */
  ghost predicate Denotes(x: string, n: int) {
    exists w, sign, zeros, m: nat, r :: Spelled(x, w, sign, zeros, m, r) && n == Signed(sign, m)
  }

  lemma {:induction false} ParseNatStops(d: string, r: string, acc: nat)
    requires AllDigits(d) && (r == "" || !IsDigit(r[0]))
    ensures ParseNat(d + r, acc) == ParseNat(d, acc)
    decreases d
  {
    if d == "" {
      assert d + r == r;
    } else {
      Peel(d, r);
      assert d[0] in d;
      ParseNatStops(d[1..], r, acc * 10 + DigitValue(d[0]));
    }
  }

  lemma {:induction false} ParseNatZeros(zeros: string, u: string)
    requires AllZeros(zeros)
    ensures ParseNat(zeros + u, 0) == ParseNat(u, 0)
    decreases zeros
  {
    if zeros == "" {
      assert zeros + u == u;
    } else {
      Peel(zeros, u);
      ParseNatZeros(zeros[1..], u);
    }
  }

  lemma {:induction false} FiguresParse(zeros: string, m: nat, r: string)
    requires AllZeros(zeros) && (r == "" || !IsDigit(r[0]))
    ensures ParseNat(zeros + (Figures(m) + r), 0) == m
  {
    ParseNatZeros(zeros, Figures(m) + r);
    if m == 0 {
      assert Figures(m) + r == r;
    } else {
      NatTextDigits(m);
      ParseNatStops(NatText(m), r, 0);
      ParseNatText(m);
    }
  }

  /** Behind the white space stand the sign, a digit, or what is neither. */
  lemma {:induction false} SpelledStarts(x: string, w: string, sign: string, zeros: string, m: nat, r: string)
    requires Spelled(x, w, sign, zeros, m, r)
    ensures var u := zeros + (Figures(m) + r);
            && SkipSpace(x) == sign + u
            && (sign == "" ==> u == "" || u[0] !in {'-', '+'})
  {
    var u := zeros + (Figures(m) + r);
    SkipSpaceOver(w, sign + u);
    FirstOfFigures(zeros, m, r);
  }

  lemma {:induction false} FirstOfFigures(zeros: string, m: nat, r: string)
    requires AllZeros(zeros)
    ensures var u := zeros + (Figures(m) + r);
            if zeros == "" && m == 0 then u == r else u != "" && IsDigit(u[0])
  {
    if zeros == "" && m > 0 {
      assert (NatText(m) + r)[0] == NatText(m)[0];
    }
  }

  lemma {:induction false} SpelledValue(x: string, w: string, sign: string, zeros: string, m: nat, r: string)
    requires Spelled(x, w, sign, zeros, m, r)
    ensures Atoi(x) == Signed(sign, m)
  {
    var u := zeros + (Figures(m) + r);
    SpelledStarts(x, w, sign, zeros, m, r);
    FiguresParse(zeros, m, r);
    hide Figures, ParseNat, SkipSpace;
    if sign != "" {
      assert (sign + u)[0] == sign[0] && (sign + u)[1..] == u;
    } else {
      assert sign + u == u;
    }
  }

  lemma {:induction false} NatTextSnoc(n: nat, c: char)
    requires n > 0 && IsDigit(c)
    ensures NatText(n * 10 + DigitValue(c)) == NatText(n) + [c]
  {
    var m := n * 10 + DigitValue(c);
    assert m / 10 == n && m % 10 == DigitValue(c) && Digit(DigitValue(c)) == c;
  }

  lemma {:induction false} OneFigure(c: char)
    requires IsDigit(c)
    ensures ParseNat([c], 0) == DigitValue(c) && NatText(DigitValue(c)) == [c]
  {
    assert [c][1..] == "";
    assert Digit(DigitValue(c)) == c;
  }

  /** Printing what was read gives the digits again. */
  lemma {:induction false} FiguresOfParse(u: string)
    requires AllDigits(u) && u != "" && u[0] != '0'
    ensures ParseNat(u, 0) > 0 && NatText(ParseNat(u, 0)) == u
    decreases |u|
  {
    hide ParseNat, NatText;
    var v, c := u[..|u| - 1], u[|u| - 1];
    assert u == v + [c] && c in u;
    if v == "" {
      assert u == [c];
      OneFigure(c);
    } else {
      assert forall d | d in v :: d in u;
      assert v[0] == u[0];
      FiguresOfParse(v);
      ParseNatSnoc(v, c, 0);
      NatTextSnoc(ParseNat(v, 0), c);
    }
  }

  function ZerosOf(d: string): (z: nat)
    ensures z <= |d| && AllZeros(d[..z]) && (z < |d| ==> d[z] != '0')
  {
    if d == "" || d[0] != '0' then 0
    else
      var z := 1 + ZerosOf(d[1..]);
      assert d[..z] == [d[0]] + d[1..][..z - 1];
      z
  }

  lemma {:induction false} DigitsAreFigures(d: string) returns (zeros: string, m: nat)
    requires AllDigits(d)
    ensures AllZeros(zeros) && d == zeros + Figures(m)
  {
    var z := ZerosOf(d);
    zeros, m := d[..z], 0;
    var u := d[z..];
    assert d == zeros + u;
    if u != "" {
      assert forall c | c in u :: c in d;
      FiguresOfParse(u);
      m := ParseNat(u, 0);
    }
  }

  lemma {:induction false} SpaceInFront(s: string) returns (w: string)
    ensures AllSpace(w) && s == w + SkipSpace(s)
  {
    w := "";
    if s != "" && IsSpace(s[0]) {
      var v := SpaceInFront(s[1..]);
      w := [s[0]] + v;
      assert w + SkipSpace(s) == [s[0]] + (v + SkipSpace(s[1..]));
    } else {
      assert w + s == s;
    }
  }

  function SignOf(t: string): (sign: string)
    ensures sign in {"", "-", "+"} && sign <= t
    ensures sign == "" && t != "" ==> t[0] !in {'-', '+'}
  {
    if t != "" && t[0] == '-' then "-" else if t != "" && t[0] == '+' then "+" else ""
  }

  lemma {:induction false} DigitsInFront(u: string) returns (zeros: string, m: nat, r: string)
    ensures u == zeros + (Figures(m) + r) && AllZeros(zeros) && (r == "" || !IsDigit(r[0]))
  {
    var d := u[..Digits(u)];
    r := u[Digits(u)..];
    zeros, m := DigitsAreFigures(d);
    hide Figures;
    assert u == d + r;
  }

  /** Every text can be spelled so. */
  lemma {:induction false} EveryTextDenotes(x: string)
    ensures Denotes(x, Atoi(x))
  {
    var w := SpaceInFront(x);
    var t := SkipSpace(x);
    var sign := SignOf(t);
    var u := t[|sign|..];
    assert t == sign + u;
    var zeros, m, r := DigitsInFront(u);
    FirstOfFigures(zeros, m, r);
    hide Figures, SkipSpace, Atoi, SignOf;
    assert sign == "" ==> t == u;
    assert Spelled(x, w, sign, zeros, m, r);
    SpelledValue(x, w, sign, zeros, m, r);
  }

  /** `atoi` gives the integer a text begins with, and nothing else, for every text. */
  lemma {:induction false} AtoiExactly(x: string, n: int)
    ensures Atoi(x) == n <==> Denotes(x, n)
  {
    hide Atoi, Spelled;
    EveryTextDenotes(x);
    forall w, sign, zeros, m: nat, r | Spelled(x, w, sign, zeros, m, r)
      ensures Atoi(x) == Signed(sign, m)
    {
      SpelledValue(x, w, sign, zeros, m, r);
    }
  }

  /** A printed integer denotes that integer. */
  lemma {:induction false} IntTextDenotes(n: int)
    ensures Denotes(IntText(n), n)
  {
    AtoiOfIntText(n);
    hide Denotes, Atoi, IntText;
    AtoiExactly(IntText(n), n);
  }
}
