/**
 * Character and C-string helpers shared by the model: bounded copies into
 * fixed-size char buffers (strlcpy / snprintf), ASCII case folding as done by
 * Arduino's String::equalsIgnoreCase, isxdigit, and "%d" formatting.
 * A Dafny string stands for the bytes of a C string before its NUL: one char per
 * byte, so a multi-byte UTF-8 character is several chars here.
 */
module Text {

  function Min(a: int, b: int): int { if a < b then a else b }

  /** The content left in a buffer of `size` bytes after strlcpy/snprintf of `s`:
      at most size-1 characters, since one byte holds the terminating NUL. */
  function Fit(s: string, size: nat): (r: string)
    requires size >= 1
    ensures |r| <= size - 1 && |r| <= |s|
    ensures r == s[..|r|]
    ensures |s| < size ==> r == s
    ensures |s| >= size ==> |r| == size - 1
  {
    s[..Min(|s|, size - 1)]
  }

  lemma FitPrefixAppend(s: string, t: string, size: nat)
    requires size >= 1 && |s| < size
    ensures Fit(s + t, size) == s + Fit(t, size - |s|)
  {
    var r := Fit(s + t, size);
    var q := Fit(t, size - |s|);
    assert |r| == |s| + |q|;
    forall k | 0 <= k < |r| ensures r[k] == (s + q)[k] {
      if k >= |s| { assert r[k] == (s + t)[k] == t[k - |s|]; }
    }
  }

  function ToLower(c: char): char {
    if 'A' <= c <= 'Z' then (c as int + 32) as char else c
  }

  /** Arduino String::equalsIgnoreCase: equal length and equal after ASCII lower-casing. */
  predicate EqualsIgnoreCase(a: string, b: string) {
    |a| == |b| && forall k :: 0 <= k < |a| ==> ToLower(a[k]) == ToLower(b[k])
  }

  predicate IsHexDigit(c: char) {
    ('0' <= c <= '9') || ('a' <= c <= 'f') || ('A' <= c <= 'F')
  }

  /** The lower-case hex digit for a nibble, as printed by "%x". */
  function HexChar(n: nat): (c: char)
    requires n < 16
    ensures IsHexDigit(c) && !('A' <= c <= 'Z')
  {
    if n < 10 then ('0' as int + n) as char else ('a' as int + n - 10) as char
  }

  /** Decimal digits of n, as printed by "%d". */
  function Decimal(n: nat): (r: string)
    ensures |r| >= 1
    ensures n < 10 ==> r == [('0' as int + n) as char]
    ensures forall k :: 0 <= k < |r| ==> '0' <= r[k] <= '9'
  {
    if n < 10 then [('0' as int + n) as char]
    else Decimal(n / 10) + [('0' as int + n % 10) as char]
  }

  /** Independent reference: the number a string of decimal digits denotes, most
      significant digit first. */
  function DigitsValue(s: string): nat
    requires forall k :: 0 <= k < |s| ==> '0' <= s[k] <= '9'
  {
    if s == [] then 0
    else DigitsValue(s[..|s| - 1]) * 10 + (s[|s| - 1] as int - '0' as int)
  }

  /** "%d" prints n with no leading zero, and reading the digits back gives n. */
  lemma {:induction false} DecimalDenotes(n: nat)
    ensures DigitsValue(Decimal(n)) == n
    ensures Decimal(n)[0] == '0' ==> n == 0
  {
    if n >= 10 {
      DecimalDenotes(n / 10);
      var r := Decimal(n);
      assert r[..|r| - 1] == Decimal(n / 10);
      assert r[0] == Decimal(n / 10)[0];
    }
  }
}
