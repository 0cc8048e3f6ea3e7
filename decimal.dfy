/**
 * Decimal text of non-negative integers: the digits Python writes for an
 * `int` in an f-string (`f"{n}"`), and the value a reader takes back from them.
 */
module Decimal {

  predicate IsDigit(c: char) {
    '0' <= c <= '9'
  }

  predicate IsDigits(s: string) {
    forall i :: 0 <= i < |s| ==> IsDigit(s[i])
  }

  /** A digit string in canonical form: non-empty and without leading zeros. */
  predicate IsCanonical(s: string) {
    |s| > 0 && IsDigits(s) && (s[0] == '0' ==> |s| == 1)
  }

  function DigitChar(d: nat): (c: char)
    requires d < 10
    ensures IsDigit(c) && c as int - '0' as int == d
  {
    (d + '0' as int) as char
  }

  function DigitValue(c: char): (d: nat)
    requires IsDigit(c)
    ensures d < 10 && DigitChar(d) == c
  {
    c as int - '0' as int
  }

  /** The decimal text of `n`, most significant digit first. */
  function Dec(n: nat): (s: string)
    ensures IsCanonical(s)
    decreases n
  {
    if n < 10 then [DigitChar(n)] else Dec(n / 10) + [DigitChar(n % 10)]
  }

  /** Appending a digit to a positive number appends its character to the text. */
  lemma DecAppendDigit(n: nat, d: nat)
    requires n >= 1 && d < 10
    ensures Dec(10 * n + d) == Dec(n) + [DigitChar(d)]
  {
    var m := 10 * n + d;
    assert m / 10 == n && m % 10 == d;
  }

  /** The number a digit string denotes, most significant digit first. */
  function Value(s: string): (n: nat)
    requires IsDigits(s)
  {
    if s == [] then 0 else 10 * Value(s[..|s| - 1]) + DigitValue(s[|s| - 1])
  }

  /** Reading back the decimal text of `n` gives `n`. */
  lemma {:induction false} ValueOfDec(n: nat)
    ensures Value(Dec(n)) == n
    decreases n
  {
    if n >= 10 {
      var s := Dec(n);
      assert s[..|s| - 1] == Dec(n / 10);
      ValueOfDec(n / 10);
    }
  }

  /** A canonical digit string denotes at least 1 unless it is "0". */
  lemma {:induction false} CanonicalValuePositive(s: string)
    requires IsCanonical(s) && s != "0"
    ensures Value(s) >= 1
    decreases |s|
  {
    if |s| > 1 {
      var init := s[..|s| - 1];
      assert init[0] == s[0];
      CanonicalValuePositive(init);
    }
  }

  /** Writing out the value of a canonical digit string gives the string back. */
  lemma {:induction false} DecOfValue(s: string)
    requires IsCanonical(s)
    ensures Dec(Value(s)) == s
    decreases |s|
  {
    if |s| > 1 {
      var init := s[..|s| - 1];
      assert init[0] == s[0];
      CanonicalValuePositive(init);
      DecOfValue(init);
      var n := Value(s);
      assert n / 10 == Value(init) && n % 10 == DigitValue(s[|s| - 1]);
      assert s == init + [s[|s| - 1]];
    }
  }
}
