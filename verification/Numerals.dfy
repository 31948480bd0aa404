/** Decimal numerals without superfluous zeros, as Python prints them. */
module Numerals {
  import opened Prelude
  import opened Text
  import opened PythonInt

  function DigitChar(d: nat): (c: char)
    requires d < 10
    ensures DigitOf(c) == Some(d) && IsDigit(c, 10) && c != '.'
  {
    '0' + d as char
  }

  /** `str(n)` */
  function Dec(n: nat): (s: string)
    ensures s != "" && forall c :: c in s ==> IsDigit(c, 10)
  {
    if n < 10 then [DigitChar(n)] else Dec(n / 10) + [DigitChar(n % 10)]
  }

  /** `0|[1-9][0-9]*` */
  predicate IsNumeral(s: string) {
    s != "" && (forall c :: c in s ==> IsDigit(c, 10)) && (s[0] == '0' ==> |s| == 1)
  }

  lemma {:induction false} DecIsNumeral(n: nat)
    ensures IsNumeral(Dec(n)) && DigitsValue(Dec(n), 10) == n
    ensures Dec(n)[0] == '0' ==> n == 0
  {
    if n >= 10 {
      DecIsNumeral(n / 10);
      assert Dec(n)[..|Dec(n)| - 1] == Dec(n / 10);
    } else {
      assert Dec(n)[..0] == "";
      assert DigitsValue("", 10) == 0;
    }
  }

  lemma LastDigit(high: nat, d: nat)
    requires high > 0 && d < 10
    ensures Dec(high * 10 + d) == Dec(high) + [DigitChar(d)]
  {
    assert (high * 10 + d) / 10 == high && (high * 10 + d) % 10 == d;
  }

  /** The numeral of a number is the only one with its value. */
  lemma {:induction false} NumeralIsDec(s: string)
    requires IsNumeral(s)
    ensures s == Dec(DigitsValue(s, 10))
    ensures s[0] != '0' ==> DigitsValue(s, 10) > 0
  {
    var n := |s| - 1;
    assert s[n] in s && s[0] in s;
    assert s == s[..n] + [s[n]];
    var d := DigitOf(s[n]).value;
    assert s[n] == DigitChar(d);
    if n == 0 {
      assert DigitsValue(s[..0], 10) == 0;
    } else {
      assert forall c :: c in s[..n] ==> c in s;
      NumeralIsDec(s[..n]);
      LastDigit(DigitsValue(s[..n], 10), d);
    }
  }

  function Power10(k: nat): nat {
    if k == 0 then 1 else 10 * Power10(k - 1)
  }

  lemma {:induction false} Power10Grows(k: nat)
    requires k > 0
    ensures Power10(k) >= 10
  {
    if k > 1 { Power10Grows(k - 1); }
  }

  lemma {:induction false} DecLength(n: nat, k: nat)
    requires k > 0
    ensures |Dec(n)| <= k <==> n < Power10(k)
  {
    if n >= 10 {
      if k > 1 { DecLength(n / 10, k - 1); }
    } else {
      Power10Grows(k);
    }
  }
}
