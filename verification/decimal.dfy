/**
 * Decimal digit strings: reading them as Python's `int()` does for a plain
 * run of ASCII digits, and writing a natural number as `"%d"` and `str()` do.
 */
module Decimal {

  predicate IsDigit(c: char) {
    '0' <= c <= '9'
  }

  /** A non-empty run of ASCII digits. */
  predicate IsDigits(s: string) {
    |s| > 0 && forall i :: 0 <= i < |s| ==> IsDigit(s[i])
  }

  /** A digit run as written by `"%d"`: no leading zero unless it is "0". */
  predicate IsCanonical(s: string) {
    IsDigits(s) && (|s| == 1 || s[0] != '0')
  }

  function DigitValue(c: char): (d: nat)
    requires IsDigit(c)
    ensures d < 10
  {
    c as int - '0' as int
  }

  function DigitChar(d: nat): (c: char)
    requires d < 10
    ensures IsDigit(c) && DigitValue(c) == d
  {
    ('0' as int + d) as char
  }

  lemma DigitCharOfValue(c: char)
    requires IsDigit(c)
    ensures DigitChar(DigitValue(c)) == c
  {
  }

  function Pow10(k: nat): (p: nat)
    ensures p >= 1
  {
    if k == 0 then 1 else 10 * Pow10(k - 1)
  }

  /** The number a run of digits denotes (the empty run denotes 0). */
  function Value(s: string): nat
    requires forall i :: 0 <= i < |s| ==> IsDigit(s[i])
  {
    if |s| == 0 then 0 else Value(s[..|s| - 1]) * 10 + DigitValue(s[|s| - 1])
  }

  /**
   * A run of k digits denotes a number below 10^k, and one of at least
   * 10^(k-1) when it has no leading zero.
   */
  lemma {:induction false} ValueBounds(s: string)
    requires forall i :: 0 <= i < |s| ==> IsDigit(s[i])
    ensures Value(s) < Pow10(|s|)
    ensures |s| > 0 && s[0] != '0' ==> Pow10(|s| - 1) <= Value(s)
  {
    if |s| > 0 {
      var p := s[..|s| - 1];
      ValueBounds(p);
      assert |p| > 0 ==> p[0] == s[0];
    }
  }

  /** The decimal text of `n`, as `"%d" % n` renders it. */
  function Show(n: nat): (s: string)
    ensures IsCanonical(s)
  {
    if n < 10 then [DigitChar(n)] else Show(n / 10) + [DigitChar(n % 10)]
  }

  /** Reading back what `Show` wrote gives the number. */
  lemma {:induction false} ValueOfShow(n: nat)
    ensures Value(Show(n)) == n
  {
    if n >= 10 {
      var s := Show(n);
      assert s[..|s| - 1] == Show(n / 10);
      ValueOfShow(n / 10);
    }
  }

  lemma {:induction false} ValuePositive(s: string)
    requires IsDigits(s) && s[0] != '0'
    ensures Value(s) > 0
  {
    if |s| > 1 {
      ValuePositive(s[..|s| - 1]);
    }
  }

  /** Writing the value of a canonical digit run gives the same run back. */
  lemma {:induction false} ShowOfValue(s: string)
    requires IsCanonical(s)
    ensures Show(Value(s)) == s
  {
    var last := s[|s| - 1];
    if |s| == 1 {
      DigitCharOfValue(last);
    } else {
      var p := s[..|s| - 1];
      ValuePositive(p);
      ShowOfValue(p);
      DigitCharOfValue(last);
      assert p + [last] == s;
    }
  }
}
