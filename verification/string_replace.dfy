/** Replacing every occurrence of a substring: two passes that must find the same matches. */
module StringReplace {
  /** One more than the largest `size_t`. */
  const SIZE_LIMIT := 0x1_0000_0000_0000_0000

  /** Whether `pat` occurs in `s` at `i`: `strstr(&s[i], pat) == &s[i]`. */
  predicate Here(s: string, pat: string, i: nat) {
    i + |pat| <= |s| && s[i..i + |pat|] == pat
  }

  function Replace(s: string, pat: string, by_: string): (r: string)
    requires pat != "" || s == ""
    decreases |s|
  {
    if s == "" then ""
    else if Here(s, pat, 0) then by_ + Replace(s[|pat|..], pat, by_)
    else [s[0]] + Replace(s[1..], pat, by_)
  }

  /** The number of matches the first pass counts. */
  function Count(s: string, pat: string): (n: nat)
    requires pat != "" || s == ""
    decreases |s|
  {
    if s == "" then 0
    else if Here(s, pat, 0) then 1 + Count(s[|pat|..], pat)
    else Count(s[1..], pat)
  }

  // ---- what replacing means ----

  function Join(pieces: seq<string>, sep: string): (s: string)
    requires pieces != []
  {
    if |pieces| == 1 then pieces[0] else pieces[0] + sep + Join(pieces[1..], sep)
  }

  /** No occurrence of `pat` starts in front of position `n`. */
  predicate NoneBefore(s: string, pat: string, n: nat) {
    forall i: nat | i < n :: !Here(s, pat, i)
  }

  /** `s` cut at leftmost occurrences: each piece but the last ends where the next occurrence starts. */
  predicate LeftmostCuts(pieces: seq<string>, pat: string) {
    && pieces != []
    && (forall i | 0 <= i < |pieces| - 1 :: NoneBefore(pieces[i] + pat, pat, |pieces[i]|))
    && NoneBefore(pieces[|pieces| - 1], pat, |pieces[|pieces| - 1]|)
  }

  lemma {:induction false} NothingBefore(s: string, pat: string)
    ensures NoneBefore(s, pat, 0)
  {
  }

  lemma {:induction false} NoneBeforeCons(c: char, s: string, pat: string, n: nat)
    requires NoneBefore(s, pat, n) && !Here([c] + s, pat, 0)
    ensures NoneBefore([c] + s, pat, n + 1)
  {
    var t := [c] + s;
    forall i: nat | i < n + 1 ensures !Here(t, pat, i) {
      if 0 < i && i + |pat| <= |t| {
        assert t[i..i + |pat|] == s[i - 1..i - 1 + |pat|];
        assert !Here(s, pat, i - 1);
      }
    }
  }

  lemma {:induction false} HereInPrefix(s: string, t: string, pat: string)
    requires !Here(s + t, pat, 0)
    ensures !Here(s, pat, 0)
  {
    if |pat| <= |s| {
      assert (s + t)[0..|pat|] == s[0..|pat|];
    }
  }

  /** The piece in front of the next occurrence, one character longer. */
  lemma {:induction false} JoinCons(c: char, pieces: seq<string>, sep: string)
    requires pieces != []
    ensures Join([[c] + pieces[0]] + pieces[1..], sep) == [c] + Join(pieces, sep)
  {
    var longer := [[c] + pieces[0]] + pieces[1..];
    assert longer[1..] == pieces[1..];
    if |pieces| > 1 {
      assert [c] + pieces[0] + sep + Join(pieces[1..], sep) == [c] + (pieces[0] + sep + Join(pieces[1..], sep));
    }
  }

  lemma {:induction false} CutsCons(c: char, pieces: seq<string>, pat: string)
    requires pat != "" && LeftmostCuts(pieces, pat) && !Here([c] + Join(pieces, pat), pat, 0)
    ensures LeftmostCuts([[c] + pieces[0]] + pieces[1..], pat)
  {
    var longer := [[c] + pieces[0]] + pieces[1..];
    var first := [c] + pieces[0];
    if |pieces| == 1 {
      NoneBeforeCons(c, pieces[0], pat, |pieces[0]|);
    } else {
      var rest := Join(pieces[1..], pat);
      assert [c] + Join(pieces, pat) == ([c] + (pieces[0] + pat)) + rest;
      HereInPrefix([c] + (pieces[0] + pat), rest, pat);
      NoneBeforeCons(c, pieces[0] + pat, pat, |pieces[0]|);
      assert first + pat == [c] + (pieces[0] + pat);
    }
    hide NoneBefore;
    forall i | 0 <= i < |longer| - 1 ensures NoneBefore(longer[i] + pat, pat, |longer[i]|) {
      assert i > 0 ==> longer[i] == pieces[i];
    }
  }

  lemma {:induction false} CutsInFront(more: seq<string>, pat: string)
    requires LeftmostCuts(more, pat)
    ensures LeftmostCuts([""] + more, pat)
    ensures forall sep :: Join([""] + more, sep) == sep + Join(more, sep)
  {
    var pieces := [""] + more;
    assert pieces[1..] == more;
    assert NoneBefore("" + pat, pat, 0) by { NothingBefore("" + pat, pat); }
    hide NoneBefore;
    forall i | 0 <= i < |pieces| - 1 ensures NoneBefore(pieces[i] + pat, pat, |pieces[i]|) {
      assert i > 0 ==> pieces[i] == more[i - 1];
    }
    forall sep ensures Join(pieces, sep) == sep + Join(more, sep) {
      assert "" + sep + Join(more, sep) == sep + Join(more, sep);
    }
  }

  /** Every text is cut at its leftmost occurrences, and replacing glues the same pieces with the new text. */
  lemma {:induction false} ReplaceGlues(s: string, pat: string, by_: string) returns (pieces: seq<string>)
    requires pat != ""
    ensures LeftmostCuts(pieces, pat) && |pieces| == Count(s, pat) + 1
    ensures Join(pieces, pat) == s && Join(pieces, by_) == Replace(s, pat, by_)
    decreases |s|
  {
    if s == "" {
      pieces := [""];
    } else if Here(s, pat, 0) {
      var more := ReplaceGlues(s[|pat|..], pat, by_);
      pieces := [""] + more;
      CutsInFront(more, pat);
      assert s == pat + s[|pat|..];
      hide LeftmostCuts, Join;
    } else {
      var more := ReplaceGlues(s[1..], pat, by_);
      pieces := [[s[0]] + more[0]] + more[1..];
      assert s == [s[0]] + s[1..];
      JoinCons(s[0], more, pat);
      JoinCons(s[0], more, by_);
      CutsCons(s[0], more, pat);
      hide LeftmostCuts, Join;
    }
  }

  /** The length the allocation relies on; the replacement may be shorter than what it replaces. */
  lemma {:induction false} ReplaceLength(s: string, pat: string, by_: string)
    requires pat != "" || s == ""
    ensures |Replace(s, pat, by_)| == |s| + Count(s, pat) * (|by_| - |pat|)
    decreases |s|
  {
    if s != "" {
      if Here(s, pat, 0) {
        ReplaceLength(s[|pat|..], pat, by_);
        OneMore(Count(s[|pat|..], pat), |by_| - |pat|);
      } else {
        ReplaceLength(s[1..], pat, by_);
      }
    }
  }

  lemma {:induction false} OneMore(n: int, d: int)
    ensures (1 + n) * d == d + n * d
  {
  }

  /** Replacing a text by itself changes nothing. */
  lemma {:induction false} ReplaceBySame(s: string, pat: string)
    requires pat != ""
    ensures Replace(s, pat, pat) == s
  {
    var _ := ReplaceGlues(s, pat, pat);
  }

  /** A piece, with the match behind it if there is one, begins the text. */
  lemma {:induction false} FirstPiece(pieces: seq<string>, pat: string)
    requires pieces != []
    ensures var s := Join(pieces, pat);
            && pieces[0] <= s
            && (|pieces| > 1 ==>
                  && pieces[0] + pat <= s && Here(s, pat, |pieces[0]|)
                  && s[|pieces[0]| + |pat|..] == Join(pieces[1..], pat))
            && (|pieces| == 1 ==> s == pieces[0])
  {
  }

  /** Where the first piece ends: nowhere earlier could a match have started. */
  lemma {:induction false} NoShorterCut(p: seq<string>, q: seq<string>, pat: string)
    requires pat != "" && LeftmostCuts(p, pat) && LeftmostCuts(q, pat) && Join(p, pat) == Join(q, pat)
    ensures |p[0]| >= |q[0]|
  {
    FirstPiece(p, pat);
    FirstPiece(q, pat);
    var s, n := Join(p, pat), |p[0]|;
    hide Join;
    if n < |q[0]| {
      var t := if |q| == 1 then q[0] else q[0] + pat;
      assert NoneBefore(t, pat, |q[0]|) && !Here(t, pat, n);
      HereInPart(s, t, pat, n);
    }
  }

  lemma {:induction false} HereInPart(s: string, t: string, pat: string, n: nat)
    requires t <= s && n + |pat| <= |t| && Here(s, pat, n)
    ensures Here(t, pat, n)
  {
    assert t[n..n + |pat|] == s[n..n + |pat|];
  }

  /** There is only one way to cut at leftmost occurrences, so the pieces define what replacing means. */
  lemma {:induction false} CutsAreUnique(p: seq<string>, q: seq<string>, pat: string)
    requires pat != "" && LeftmostCuts(p, pat) && LeftmostCuts(q, pat) && Join(p, pat) == Join(q, pat)
    ensures p == q
    decreases |p|
  {
    NoShorterCut(p, q, pat);
    NoShorterCut(q, p, pat);
    FirstPiece(p, pat);
    FirstPiece(q, pat);
    hide Join, NoneBefore;
    var s := Join(p, pat);
    assert p[0] == s[..|p[0]|] && q[0] == s[..|q[0]|];
    if |p| > 1 && |q| > 1 {
      assert LeftmostCuts(p[1..], pat) && LeftmostCuts(q[1..], pat);
      CutsAreUnique(p[1..], q[1..], pat);
      assert p == [p[0]] + p[1..] && q == [q[0]] + q[1..];
    }
  }

  // ---- the two passes ----

  /** `i + count * (new_len - old_len) + 1` in `size_t` arithmetic: the difference wraps when `by_` is shorter. */
  function Allocation(n: nat, count: nat, by_: nat, pat: nat): (size: nat) {
    (n + count * ((by_ - pat) % SIZE_LIMIT) + 1) % SIZE_LIMIT
  }

  lemma {:induction false} WrapsBack(x: int, c: int, d: int)
    requires 0 <= x + c * d < SIZE_LIMIT
    ensures (x + c * (d % SIZE_LIMIT)) % SIZE_LIMIT == x + c * d
  {
    var q := d / SIZE_LIMIT;
    assert c * (d % SIZE_LIMIT) == c * d - c * q * SIZE_LIMIT by {
      assert d % SIZE_LIMIT == d - q * SIZE_LIMIT;
      assert c * (d - q * SIZE_LIMIT) == c * d - c * (q * SIZE_LIMIT);
    }
    Shifted(x + c * d, -(c * q));
  }

  lemma {:induction false} Shifted(r: int, k: int)
    requires 0 <= r < SIZE_LIMIT
    ensures (r + k * SIZE_LIMIT) % SIZE_LIMIT == r
  {
  }

  /** The wrapped size is exactly the result and its terminator. */
  lemma {:induction false} AllocationExact(s: string, pat: string, by_: string)
    requires (pat != "" || s == "") && |Replace(s, pat, by_)| + 1 < SIZE_LIMIT
    ensures Allocation(|s|, Count(s, pat), |by_|, |pat|) == |Replace(s, pat, by_)| + 1
  {
    ReplaceLength(s, pat, by_);
    var c, d := Count(s, pat), |by_| - |pat|;
    WrapsBack(|s| + 1, c, d);
    assert |s| + c * (d % SIZE_LIMIT) + 1 == |s| + 1 + c * (d % SIZE_LIMIT);
  }

  /** Where the counting loop stands after looking at position `i`. */
  function CountStep(s: string, pat: string, i: nat): (j: nat) {
    if Here(s, pat, i) then i + (|pat| - 1) + 1 else i + 1
  }

  /** The position of the counting loop after `n` rounds; at the end of the text it stops. */
  function Position(s: string, pat: string, n: nat): (i: nat) {
    if n == 0 then 0
    else
      var i := Position(s, pat, n - 1);
      if i < |s| then CountStep(s, pat, i) else i
  }

  lemma {:induction false} MovesOn(s: string, pat: string, n: nat)
    requires pat != ""
    ensures Position(s, pat, n) >= if n < |s| then n else |s|
  {
    if n > 0 {
      MovesOn(s, pat, n - 1);
    }
  }

  /** With nothing to look for in a text that is not empty, the counting loop stays at the first position for ever. */
  lemma {:induction false} CountingStays(s: string, n: nat)
    requires s != ""
    ensures Position(s, "", n) == 0
  {
    if n > 0 {
      CountingStays(s, n - 1);
      assert s[0..0] == "";
    }
  }

  /** The counting loop comes to the end of the text exactly when there is something to look for, or nowhere to look. */
  lemma {:induction false} CountingEnds(s: string, pat: string)
    ensures (exists n :: Position(s, pat, n) >= |s|) <==> pat != "" || s == ""
  {
    if s == "" {
      assert Position(s, pat, 0) >= |s|;
    } else if pat != "" {
      MovesOn(s, pat, |s|);
    } else {
      forall n: nat ensures Position(s, pat, n) == 0 {
        CountingStays(s, n);
      }
    }
  }

  /** The counting pass. */
  method CountMatches(s: string, pat: string) returns (count: nat, i: nat)
    requires pat != "" || s == ""
    ensures count == Count(s, pat) && i == |s|
  {
    count, i := 0, 0;
    while i < |s|
      invariant i <= |s| && count + Count(s[i..], pat) == Count(s, pat)
    {
      assert s[i..][1..] == s[i + 1..];
      HereBehind(s, pat, i);
      if Here(s, pat, i) {
        assert s[i..][|pat|..] == s[i + |pat|..];
        count := count + 1;
        i := i + (|pat| - 1);
      }
      i := i + 1;
    }
  }

  lemma {:induction false} HereBehind(s: string, pat: string, i: nat)
    requires i <= |s|
    ensures Here(s[i..], pat, 0) <==> Here(s, pat, i)
  {
    if i + |pat| <= |s| {
      assert s[i..][0..|pat|] == s[i..i + |pat|];
    }
  }

  /** `strcpy`: the text and its terminator. */
  method CopyString(a: array<char>, at: nat, text: string)
    requires at + |text| < a.Length
    modifies a
    ensures a[..at] == old(a[..at]) && a[at..at + |text|] == text && a[at + |text|] == '\0'
  {
    for j := 0 to |text|
      invariant a[..at] == old(a[..at]) && a[at..at + j] == text[..j]
    {
      a[at + j] := text[j];
      assert text[..j + 1] == text[..j] + [text[j]];
    }
    a[at + |text|] := '\0';
  }

  /** What the copying pass adds at position `k`, behind what is done. */
  lemma {:induction false} ReplaceNext(s: string, pat: string, by_: string, k: nat, done: string)
    requires pat != "" && k < |s|
    ensures Here(s, pat, k) ==> k + |pat| <= |s|
    ensures done + Replace(s[k..], pat, by_)
         == if Here(s, pat, k) then done + by_ + Replace(s[k + |pat|..], pat, by_)
            else done + [s[k]] + Replace(s[k + 1..], pat, by_)
  {
    HereBehind(s, pat, k);
    assert s[k..][1..] == s[k + 1..] && s[k..][0] == s[k];
    if Here(s, pat, k) {
      assert s[k..][|pat|..] == s[k + |pat|..];
    }
  }

  /** The copying pass, into an array that holds the result and its terminator. */
  method CopyReplaced(s: string, pat: string, by_: string, result: array<char>)
    requires (pat != "" || s == "") && result.Length == |Replace(s, pat, by_)| + 1
    modifies result
    ensures result[..] == Replace(s, pat, by_) + ['\0']
  {
    hide Replace, Here;
    ghost var all := Replace(s, pat, by_);
    var i: nat, k: nat := 0, 0;
    assert s[0..] == s;
    while k < |s|
      invariant k <= |s| && i <= |all|
      invariant result[..i] + Replace(s[k..], pat, by_) == all
      decreases |s| - k
    {
      ghost var done := result[..i];
      ReplaceNext(s, pat, by_, k, done);
      if Here(s, pat, k) {
        CopyString(result, i, by_);
        assert result[..i + |by_|] == done + by_;
        i, k := i + |by_|, k + |pat|;
      } else {
        result[i] := s[k];
        assert result[..i + 1] == done + [s[k]];
        i, k := i + 1, k + 1;
      }
    }
    assert Replace(s[|s|..], pat, by_) == "" by { NothingToReplace(s[|s|..], pat, by_); }
    result[i] := '\0';
  }

  lemma {:induction false} NothingToReplace(s: string, pat: string, by_: string)
    requires s == ""
    ensures Replace(s, pat, by_) == ""
  {
  }

  /** `string_replace`: an array of exactly the size of the result, all of it written. */
  method ReplaceAll(s: string, pat: string, by_: string) returns (result: array<char>)
    requires (pat != "" || s == "") && |Replace(s, pat, by_)| + 1 < SIZE_LIMIT
    ensures fresh(result) && result[..] == Replace(s, pat, by_) + ['\0']
  {
    hide Replace, Allocation;
    var count, n := CountMatches(s, pat);
    AllocationExact(s, pat, by_);
    result := new char[Allocation(n, count, |by_|, |pat|)];
    CopyReplaced(s, pat, by_, result);
  }
}
