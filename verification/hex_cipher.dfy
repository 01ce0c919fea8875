/** The hex/XOR codec, on bytes. A C string is its bytes in front of the terminator. */
module HexCipher {
  type Byte = bv8

  const KEY: Byte := 0x5A

  predicate NulFree(s: seq<Byte>) {
    forall i | 0 <= i < |s| :: s[i] != 0
  }

  // ---- one byte ----

  /** The digit `%X` prints for a number below 16. */
  function Digit(n: Byte): (c: Byte) {
    if n < 10 then 48 + n else 55 + n
  }

  predicate IsHex(c: Byte) {
    48 <= c <= 57 || 65 <= c <= 70 || 97 <= c <= 102
  }

  function HexValue(c: Byte): (n: Byte)
    requires IsHex(c)
    ensures n < 16
  {
    if c <= 57 then c - 48 else if c <= 70 then c - 55 else c - 87
  }

  predicate IsBlank(c: Byte) {
    c == 32 || 9 <= c <= 13
  }

  datatype Scanned = Scan(v: Byte) | NoScan

  /**
   * `sscanf` with `%2X` on two bytes that are no terminators, as far as the lowest byte of the number goes: it skips
   * blanks, takes a sign, and is content with one digit.
   */
  function ScanPair(a: Byte, b: Byte): (r: Scanned) {
    if IsHex(a) then
      if IsHex(b) then Scan(16 * HexValue(a) + HexValue(b))
      else if a == 48 && (b == 88 || b == 120) then NoScan
      else Scan(HexValue(a))
    else if IsHex(b) && (a == 43 || IsBlank(a)) then Scan(HexValue(b))
    else if IsHex(b) && a == 45 then Scan(0 - HexValue(b))
    else NoScan
  }

  /** The two digits of a byte. */
  function Pair(b: Byte): (p: seq<Byte>)
    ensures |p| == 2
  {
    [Digit(b / 16), Digit(b % 16)]
  }

  lemma {:induction false} PairScans(b: Byte)
    ensures ScanPair(Pair(b)[0], Pair(b)[1]) == Scan(b)
  {
  }

  /** The two digits that `%02X` prints: no lower case. */
  predicate UpperPair(a: Byte, b: Byte) {
    IsHex(a) && IsHex(b) && a < 97 && b < 97
  }

  /** Printing what was scanned gives the same two characters exactly when they are upper-case digits. */
  lemma {:induction false} PairPrints(a: Byte, b: Byte)
    requires ScanPair(a, b).Scan?
    ensures Pair(ScanPair(a, b).v) == [a, b] <==> UpperPair(a, b)
  {
  }

  // ---- whole strings ----

  function Mask(b: Byte): (r: Byte) { b ^ KEY }

  datatype Coded = Coded(bytes: seq<Byte>) | Refused

  function Cipher(s: seq<Byte>): (c: seq<Byte>)
    ensures |c| == 2 * |s|
  {
    if s == [] then [] else Pair(Mask(s[0])) + Cipher(s[1..])
  }

  function Decipher(c: seq<Byte>): (r: Coded)
    requires |c| % 2 == 0
    ensures r.Coded? ==> |r.bytes| == |c| / 2
  {
    if c == [] then Coded([])
    else
      var v := ScanPair(c[0], c[1]);
      var rest := Decipher(c[2..]);
      if v.NoScan? || rest.Refused? then Refused else Coded([Mask(v.v)] + rest.bytes)
  }

  /** `security_encrypt`, into a buffer of `maxLen` bytes. */
  function Encrypt(s: seq<Byte>, maxLen: nat): (r: Coded) {
    if maxLen == 0 || 2 * |s| >= maxLen then Refused else Coded(Cipher(s))
  }

  /** `security_decrypt`, into a buffer of `maxLen` bytes. */
  function Decrypt(c: seq<Byte>, maxLen: nat): (r: Coded) {
    if maxLen == 0 || |c| % 2 != 0 || |c| / 2 >= maxLen then Refused else Decipher(c)
  }

  lemma {:induction false} Masked(b: Byte)
    ensures Mask(Mask(b)) == b
    ensures Mask(b) == 0 <==> b == KEY
  {
  }

  lemma {:induction false} DigitsAreText(b: Byte)
    ensures NulFree(Pair(b))
  {
  }

  lemma {:induction false} CipherDeciphers(s: seq<Byte>)
    ensures Decipher(Cipher(s)) == Coded(s) && NulFree(Cipher(s))
    decreases |s|
  {
    if s != [] {
      PairScans(Mask(s[0]));
      Masked(s[0]);
      DigitsAreText(Mask(s[0]));
      CipherDeciphers(s[1..]);
      var c := Cipher(s);
      assert c[2..] == Cipher(s[1..]);
      assert s == [s[0]] + s[1..];
      hide Cipher, Pair, ScanPair, Mask;
      forall i | 0 <= i < |c| ensures c[i] != 0 {
        assert c[i] == if i < 2 then Pair(Mask(s[0]))[i] else c[2..][i - 2];
      }
    }
  }

  /** With room for both, decrypting what was encrypted gives the string back; the cipher is text, of twice the length. */
  lemma {:induction false} RoundTrip(s: seq<Byte>, cipherLen: nat, plainLen: nat)
    requires cipherLen > 2 * |s| && plainLen > |s|
    ensures var c := Encrypt(s, cipherLen);
            && c.Coded? && |c.bytes| == 2 * |s| && NulFree(c.bytes)
            && Decrypt(c.bytes, plainLen) == Coded(s)
  {
    CipherDeciphers(s);
  }

  /** A buffer read as a C string. */
  function CString(b: seq<Byte>): (s: seq<Byte>) {
    if b == [] || b[0] == 0 then [] else [b[0]] + CString(b[1..])
  }

  /** Pairs that `%02X` prints, none of which stands for a terminator. */
  predicate Canonical(c: seq<Byte>)
    requires |c| % 2 == 0
  {
    c == [] || (UpperPair(c[0], c[1]) && ScanPair(c[0], c[1]) != Scan(KEY) && Canonical(c[2..]))
  }

  /**
   * The other way round, decrypting first: encrypting the decrypted string gives the same cipher exactly when that
   * was written in upper case, without blanks or signs, and holds no encoded terminator.
   */
  lemma {:induction false} ReverseRoundTrip(c: seq<Byte>)
    requires |c| % 2 == 0 && Decipher(c).Coded?
    ensures Cipher(CString(Decipher(c).bytes)) == c <==> Canonical(c)
    decreases |c|
  {
    if c != [] {
      PairPrints(c[0], c[1]);
      Masked(ScanPair(c[0], c[1]).v);
      ReverseRoundTrip(c[2..]);
      hide Cipher, ScanPair, Pair, UpperPair, CString, Mask;
      var v := ScanPair(c[0], c[1]).v;
      var d, e := Decipher(c).bytes, Decipher(c[2..]).bytes;
      assert d == [Mask(v)] + e;
      CStringCons(Mask(v), e);
      hide Decipher;
      if v == KEY {
        NothingEncrypted();
      } else {
        CipherCons(Mask(v), CString(e));
        SplitTwo(c, Pair(v), Cipher(CString(e)));
      }
    }
  }

  lemma {:induction false} CStringCons(b: Byte, s: seq<Byte>)
    ensures CString([b] + s) == if b == 0 then [] else [b] + CString(s)
  {
    assert ([b] + s)[1..] == s;
  }

  lemma {:induction false} NothingEncrypted()
    ensures Cipher([]) == []
  {
  }

  lemma {:induction false} CipherCons(b: Byte, s: seq<Byte>)
    ensures Cipher([b] + s) == Pair(Mask(b)) + Cipher(s)
  {
    hide Pair, Mask;
    assert ([b] + s)[1..] == s;
  }

  lemma {:induction false} SplitTwo(c: seq<Byte>, p: seq<Byte>, q: seq<Byte>)
    requires |c| >= 2 && |p| == 2
    ensures p + q == c <==> p == [c[0], c[1]] && q == c[2..]
  {
    assert c == [c[0], c[1]] + c[2..];
    if p + q == c {
      assert p == (p + q)[..2] && q == (p + q)[2..];
    }
  }

  // ---- the loops ----

  lemma {:induction false} CipherSnoc(s: seq<Byte>, i: nat)
    requires i < |s|
    ensures Cipher(s[..i + 1]) == Cipher(s[..i]) + Pair(Mask(s[i]))
    decreases i
  {
    hide Pair, Mask;
    if i == 0 {
      assert s[..1] == [s[0]] && s[..1][1..] == [] && s[..0] == [];
    } else {
      CipherSnoc(s[1..], i - 1);
      assert s[..i + 1][1..] == s[1..][..i] && s[..i][1..] == s[1..][..i - 1];
    }
  }

  /** `security_encrypt`: every write stays inside the buffer, and bytes behind the terminator stay as they were. */
  method EncryptInto(input: seq<Byte>, output: array<Byte>, maxLen: nat) returns (code: int)
    requires maxLen <= output.Length
    modifies output
    ensures var r := Encrypt(input, maxLen);
            if r.Refused? then code == -1 && output[..] == old(output[..])
            else
              var n := 2 * |input|;
              code == 0 && output[..n] == r.bytes && output[n] == 0 && output[n + 1..] == old(output[n + 1..])
  {
    if maxLen == 0 {
      return -1;
    }
    if |input| * 2 >= maxLen {
      return -1;
    }
    hide Pair, Mask;
    for i := 0 to |input|
      invariant output[..2 * i] == Cipher(input[..i])
      invariant output[2 * |input| + 1..] == old(output[2 * |input| + 1..])
    {
      CipherSnoc(input, i);
      var p := Pair(Mask(input[i]));
      output[i * 2] := p[0];
      output[i * 2 + 1] := p[1];
      output[i * 2 + 2] := 0;
      assert output[..2 * (i + 1)] == output[..2 * i] + p;
    }
    output[|input| * 2] := 0;
    assert input[..|input|] == input;
    return 0;
  }

  lemma {:induction false} DecipherAt(c: seq<Byte>, i: nat)
    requires |c| % 2 == 0 && i % 2 == 0 && i + 2 <= |c|
    ensures var v := ScanPair(c[i], c[i + 1]);
            var rest := Decipher(c[i + 2..]);
            Decipher(c[i..]) == if v.NoScan? || rest.Refused? then Refused else Coded([Mask(v.v)] + rest.bytes)
  {
    hide ScanPair, Mask;
    var d := c[i..];
    assert d[0] == c[i] && d[1] == c[i + 1] && d[2..] == c[i + 2..];
  }

  /** `done` is written, `rest` is still to be read: together they are the whole result. */
  predicate SoFar(whole: Coded, done: seq<Byte>, rest: Coded) {
    whole == if rest.Refused? then Refused else Coded(done + rest.bytes)
  }

  lemma {:induction false} OneMoreByte(whole: Coded, done: seq<Byte>, b: Byte, rest: Coded)
    requires SoFar(whole, done, if rest.Refused? then Refused else Coded([b] + rest.bytes))
    ensures SoFar(whole, done + [b], rest)
  {
    if rest.Coded? {
      assert done + ([b] + rest.bytes) == done + [b] + rest.bytes;
    }
  }

  lemma {:induction false} NothingWritten(whole: Coded, c: seq<Byte>, none: seq<Byte>)
    requires |c| % 2 == 0 && whole == Decipher(c) && none == []
    ensures SoFar(whole, none, Decipher(c[0..]))
  {
    hide Decipher;
    assert c[0..] == c;
    if whole.Coded? {
      assert none + whole.bytes == whole.bytes;
    }
  }

  lemma {:induction false} NoneBehind(whole: Coded, done: seq<Byte>, rest: Coded)
    requires SoFar(whole, done, rest) && rest.Refused?
    ensures whole.Refused?
  {
  }

  lemma {:induction false} AllRead(whole: Coded, done: seq<Byte>, c: seq<Byte>)
    requires SoFar(whole, done, Decipher(c[|c|..]))
    ensures whole == Coded(done)
  {
  }

  method PutByte(output: array<Byte>, at: nat, b: Byte, ghost n: nat)
    requires at < n <= output.Length
    modifies output
    ensures output[..at + 1] == old(output[..at]) + [b] && output[n..] == old(output[n..])
  {
    output[at] := b;
  }

  /** The loop of `security_decrypt`, over `n` pairs. */
  method DecryptPairs(input: seq<Byte>, output: array<Byte>, ghost n: nat) returns (ok: bool)
    requires |input| == 2 * n && n < output.Length
    modifies output
    ensures ok <==> Decipher(input).Coded?
    ensures ok ==> output[..n] == Decipher(input).bytes
    ensures output[n..] == old(output[n..])
  {
    hide ScanPair, Mask, Decipher, SoFar;
    var i: nat := 0;
    ghost var k := 0;
    ghost var whole := Decipher(input);
    NothingWritten(whole, input, output[..0]);
    while i < |input|
      invariant i == 2 * k && k <= n
      invariant output[n..] == old(output[n..])
      invariant SoFar(whole, output[..k], Decipher(input[i..]))
    {
      DecipherAt(input, i);
      var v := ScanPair(input[i], input[i + 1]);
      if v.NoScan? {
        NoneBehind(whole, output[..k], Decipher(input[i..]));
        return false;
      }
      OneMoreByte(whole, output[..k], Mask(v.v), Decipher(input[i + 2..]));
      PutByte(output, i / 2, Mask(v.v), n);
      i, k := i + 2, k + 1;
    }
    AllRead(whole, output[..n], input);
    return true;
  }

  /** `security_decrypt`: on success the bytes and a terminator; bytes behind those are never written. */
  method DecryptInto(input: seq<Byte>, output: array<Byte>, maxLen: nat) returns (code: int)
    requires maxLen <= output.Length
    modifies output
    ensures var r, n := Decrypt(input, maxLen), |input| / 2;
            if r.Refused? then code == -1 && (n <= maxLen ==> output[n..] == old(output[n..]))
            else code == 0 && output[..n] == r.bytes && output[n] == 0 && output[n + 1..] == old(output[n + 1..])
  {
    hide Decipher;
    if maxLen == 0 {
      return -1;
    }
    if |input| % 2 != 0 || |input| / 2 >= maxLen {
      return -1;
    }
    var ok := DecryptPairs(input, output, |input| / 2);
    if !ok {
      return -1;
    }
    output[|input| / 2] := 0;
    return 0;
  }
}
