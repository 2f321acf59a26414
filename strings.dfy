/** The JavaScript string primitives the tracker relies on: `String.prototype.trim`,
    the decimal text of a non-negative integer in a template string, `parseInt(d, 10)`
    on a run of digits, and the character classes `\s`, `\d` and the `i` flag of its
    two regular expressions. */
module Strings {

  /** White space as `trim` and the regular-expression class `\s` see it: the
      WhiteSpace and LineTerminator code points of ECMAScript. */
  predicate IsSpace(c: char) {
    c == '\t' || c == '\n' || c == '\U{000B}' || c == '\U{000C}' || c == '\r' || c == ' '
    || c == '\U{00A0}' || c == '\U{1680}' || ('\U{2000}' <= c <= '\U{200A}')
    || c == '\U{2028}' || c == '\U{2029}' || c == '\U{202F}' || c == '\U{205F}'
    || c == '\U{3000}' || c == '\U{FEFF}'
  }

  predicate AllSpace(s: string) {
    forall i :: 0 <= i < |s| ==> IsSpace(s[i])
  }

  /** `s` has no white space at either end. */
  predicate Trimmed(s: string) {
    s != [] ==> !IsSpace(s[0]) && !IsSpace(s[|s| - 1])
  }

  /** Drops the white space at the front of `s`. */
  function TrimStart(s: string): (r: string)
    ensures |r| <= |s| && r == s[|s| - |r|..]
    ensures AllSpace(s[..|s| - |r|])
    ensures r != [] ==> !IsSpace(r[0])
  {
    if s != [] && IsSpace(s[0]) then TrimStart(s[1..]) else s
  }

  /** Drops the white space at the end of `s`. */
  function TrimEnd(s: string): (r: string)
    ensures |r| <= |s| && r == s[..|r|]
    ensures AllSpace(s[|r|..])
    ensures r != [] ==> !IsSpace(r[|r| - 1])
  {
    if s != [] && IsSpace(s[|s| - 1]) then TrimEnd(s[..|s| - 1]) else s
  }

  /** `String.prototype.trim`: the part of `s` between its leading and its
      trailing white space; empty exactly when `s` is all white space. */
  function Trim(s: string): (r: string)
    ensures Trimmed(r)
    ensures r == [] <==> AllSpace(s)
  {
    var t := TrimStart(s);
    assert AllSpace(s) ==> t == [];
    assert t == [] ==> AllSpace(s) by {
      if t == [] { assert s[..|s|] == s; }
    }
    TrimEnd(t)
  }

  lemma {:induction false} TrimStartOver(a: string, rest: string)
    requires AllSpace(a)
    requires rest != [] ==> !IsSpace(rest[0])
    ensures TrimStart(a + rest) == rest
    decreases |a|
  {
    if a != [] {
      assert (a + rest)[1..] == a[1..] + rest;
      TrimStartOver(a[1..], rest);
    } else {
      assert a + rest == rest;
    }
  }

  lemma {:induction false} TrimEndOver(rest: string, c: string)
    requires AllSpace(c)
    requires rest != [] ==> !IsSpace(rest[|rest| - 1])
    ensures TrimEnd(rest + c) == rest
    decreases |c|
  {
    if c != [] {
      assert (rest + c)[..|rest + c| - 1] == rest + c[..|c| - 1];
      TrimEndOver(rest, c[..|c| - 1]);
    } else {
      assert rest + c == rest;
    }
  }

  /** Together with Trim's own contract, this pins `Trim` down: whatever text sits
      between white-space margins and has none at its own ends is what `trim` returns. */
  lemma TrimOfPadded(a: string, b: string, c: string)
    requires AllSpace(a) && AllSpace(c) && Trimmed(b)
    ensures Trim(a + b + c) == b
  {
    if b == [] {
      assert a + b + c == (a + c) + [];
      assert AllSpace(a + c) by {
        forall i | 0 <= i < |a + c| ensures IsSpace((a + c)[i]) {
          if i < |a| { assert (a + c)[i] == a[i]; } else { assert (a + c)[i] == c[i - |a|]; }
        }
      }
      TrimStartOver(a + c, []);
    } else {
      assert a + b + c == a + (b + c);
      TrimStartOver(a, b + c);
      TrimEndOver(b, c);
    }
  }

  /** Trimming twice is trimming once. */
  lemma TrimIdempotent(s: string)
    ensures Trim(Trim(s)) == Trim(s)
  {
    var t := Trim(s);
    assert [] + t + [] == t;
    TrimOfPadded([], t, []);
  }

  predicate IsDigit(c: char) {
    '0' <= c <= '9'
  }

  predicate AllDigits(s: string) {
    forall i :: 0 <= i < |s| ==> IsDigit(s[i])
  }

  function DigitChar(d: nat): (c: char)
    requires d < 10
    ensures IsDigit(c)
  {
    ('0' as int + d) as char
  }

  function DigitValue(c: char): nat
    requires IsDigit(c)
  {
    c as int - '0' as int
  }

  /** The decimal text of `n`, as a template string renders a non-negative
      integer: digits only, and a leading zero only for zero itself. */
  function Show(n: nat): (r: string)
    ensures r != [] && AllDigits(r)
    ensures r[0] == '0' <==> n == 0
  {
    if n < 10 then [DigitChar(n)] else Show(n / 10) + [DigitChar(n % 10)]
  }

  /** `parseInt(d, 10)` of a non-empty run of decimal digits. */
  function ParseDecimal(d: string): nat
    requires AllDigits(d)
  {
    if d == [] then 0 else ParseDecimal(d[..|d| - 1]) * 10 + DigitValue(d[|d| - 1])
  }

  /** Leading zeros do not change what `parseInt` reads: "05" is 5. */
  lemma {:induction false} ParseLeadingZeros(z: string, d: string)
    requires forall i :: 0 <= i < |z| ==> z[i] == '0'
    requires AllDigits(d)
    ensures AllDigits(z + d) && ParseDecimal(z + d) == ParseDecimal(d)
  {
    assert AllDigits(z + d) by {
      forall i | 0 <= i < |z + d|
        ensures IsDigit((z + d)[i])
      {
        if i >= |z| {
          assert (z + d)[i] == d[i - |z|];
        }
      }
    }
    if d == [] {
      assert z + d == z;
      AllZeros(z);
    } else {
      var init := d[..|d| - 1];
      assert (z + d)[..|z + d| - 1] == z + init;
      ParseLeadingZeros(z, init);
    }
  }

  /** A run of zeros reads as 0. */
  lemma {:induction false} AllZeros(z: string)
    requires forall i :: 0 <= i < |z| ==> z[i] == '0'
    ensures AllDigits(z) && ParseDecimal(z) == 0
  {
    if z != [] {
      AllZeros(z[..|z| - 1]);
    }
  }

  /** Reading back the text of a number gives the number. */
  lemma {:induction false} ParseShow(n: nat)
    ensures ParseDecimal(Show(n)) == n
  {
    var s := Show(n);
    if n >= 10 {
      assert s[..|s| - 1] == Show(n / 10);
      ParseShow(n / 10);
    }
  }

  /** The length of the run of digits at the front of `s` (how far `\d+` reaches). */
  function DigitRun(s: string): (n: nat)
    ensures n <= |s| && AllDigits(s[..n])
    ensures n < |s| ==> !IsDigit(s[n])
  {
    if s != [] && IsDigit(s[0]) then 1 + DigitRun(s[1..]) else 0
  }

  /** The length of the run of white space at the front of `s` (how far `\s*` reaches). */
  function SpaceRun(s: string): (n: nat)
    ensures n <= |s| && AllSpace(s[..n])
    ensures n < |s| ==> !IsSpace(s[n])
  {
    if s != [] && IsSpace(s[0]) then 1 + SpaceRun(s[1..]) else 0
  }

  lemma {:induction false} DigitRunOver(d: string, rest: string)
    requires AllDigits(d)
    requires rest != [] ==> !IsDigit(rest[0])
    ensures DigitRun(d + rest) == |d|
    decreases |d|
  {
    if d != [] {
      assert (d + rest)[1..] == d[1..] + rest;
      DigitRunOver(d[1..], rest);
    } else {
      assert d + rest == rest;
    }
  }

  lemma {:induction false} SpaceRunOver(w: string, rest: string)
    requires AllSpace(w)
    requires rest != [] ==> !IsSpace(rest[0])
    ensures SpaceRun(w + rest) == |w|
    decreases |w|
  {
    if w != [] {
      assert (w + rest)[1..] == w[1..] + rest;
      SpaceRunOver(w[1..], rest);
    } else {
      assert w + rest == rest;
    }
  }

  /** Case folding of the `i` flag on the letters the patterns use: only ASCII
      letters fold onto ASCII letters. */
  function LowerAscii(c: char): char {
    if 'A' <= c <= 'Z' then (c as int + 32) as char else c
  }

  /** `s` begins with the lower-case `word`, letters compared without case. */
  predicate StartsWithIgnoringCase(s: string, word: string) {
    |word| <= |s| && forall i :: 0 <= i < |word| ==> LowerAscii(s[i]) == word[i]
  }

  /** `s` is the lower-case `word`, letters compared without case. */
  predicate EqualsIgnoringCase(s: string, word: string) {
    |s| == |word| && StartsWithIgnoringCase(s, word)
  }
}
