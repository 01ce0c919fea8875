/** Characters and C strings, as the text code of the repository sees them. */
module Chars {

  /** `isspace` in the C locale: space, \t, \n, \v, \f and \r. */
  predicate IsSpace(c: char) {
    c == ' ' || 9 <= c as int <= 13
  }

  predicate IsDigit(c: char) {
    '0' <= c <= '9'
  }

  predicate AllSpace(s: string) {
    forall c | c in s :: IsSpace(c)
  }

  predicate AllDigits(s: string) {
    forall c | c in s :: IsDigit(c)
  }

  predicate NulFree(s: string) {
    '\0' !in s
  }

  /** What `strnlen`, `strlen` and `strcpy` see of a character range: everything before the first NUL. */
  function CStr(s: string): (r: string)
    ensures r <= s && NulFree(r)
    ensures |r| < |s| ==> s[|r|] == '\0'
  {
    if s == "" || s[0] == '\0' then "" else [s[0]] + CStr(s[1..])
  }

  /** `strncpy(dst, src, limit)` followed by a terminator at `dst[limit]`. */
  function Clip(s: string, limit: nat): (r: string)
    ensures r <= s && |r| <= limit
    ensures |s| <= limit ==> r == s
  {
    if |s| <= limit then s else s[..limit]
  }

  function Spaces(n: nat): (r: string)
    ensures |r| == n && forall c | c in r :: c == ' '
  {
    seq(n, _ => ' ')
  }

  lemma {:induction false} CStrOfNulFree(s: string)
    requires NulFree(s)
    ensures CStr(s) == s
  {
    if s != "" {
      CStrOfNulFree(s[1..]);
    }
  }

  // ---- cutting and joining ----

  lemma {:induction false} Peel(x: string, r: string)
    requires x != ""
    ensures x + r == [x[0]] + (x[1..] + r)
    ensures (x + r)[0] == x[0] && (x + r)[1..] == x[1..] + r
  {
  }

  lemma {:induction false} DropOfAppend(x: string, k: string, i: nat)
    requires i <= |x|
    ensures (x + k)[i..] == x[i..] + k
  {
  }

  lemma {:induction false} TakeDrop(s: string, i: nat)
    requires i <= |s|
    ensures s[..i] + s[i..] == s
  {
  }

  lemma {:induction false} DropOfTake(s: string, m: nat, z: string, i: nat)
    requires i <= m <= |s|
    ensures (s[..m] + z)[i..] == s[i..][..m - i] + z
  {
  }

  lemma {:induction false} TakeSnoc(s: string, i: nat)
    requires i < |s|
    ensures s[..i + 1] == s[..i] + [s[i]]
  {
  }

  lemma {:induction false} Cancel(a: string, b: string)
    ensures a == a + b <==> b == ""
  {
    assert a == a + b ==> |b| == 0;
  }
}
