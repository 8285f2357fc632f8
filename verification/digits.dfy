/**
 * Decimal digits: the decimal form JavaScript gives an integer number, the
 * zero-padded fixed-width form, and the value a string of digits denotes.
 * Shared by the ISO date patterns and the timestamp formatting.
 */
module Digits {

  predicate IsDigit(c: char) {
    '0' <= c <= '9'
  }

  predicate AllDigits(s: string) {
    forall i :: 0 <= i < |s| ==> IsDigit(s[i])
  }

  function DigitValue(c: char): (d: nat)
    requires IsDigit(c)
    ensures d < 10
  {
    c as int - '0' as int
  }

  function DigitChar(d: nat): (c: char)
    requires d < 10
    ensures IsDigit(c) && DigitValue(c) == d
  {
    ('0' as int + d) as char
  }

  lemma DigitCharOfValue(c: char)
    requires IsDigit(c)
    ensures DigitChar(DigitValue(c)) == c
  {
  }

  function Pow10(n: nat): (p: nat)
    ensures p >= 1
  {
    if n == 0 then 1 else 10 * Pow10(n - 1)
  }

  /** The last `width` decimal digits of `n`, with leading zeros. */
  function ZeroPadded(n: nat, width: nat): (s: string)
    ensures |s| == width && AllDigits(s)
  {
    if width == 0 then "" else ZeroPadded(n / 10, width - 1) + [DigitChar(n % 10)]
  }

  /** The number a string of decimal digits denotes. */
  function DecimalValue(s: string): (n: nat)
    requires AllDigits(s)
    ensures n < Pow10(|s|)
  {
    if s == [] then 0 else 10 * DecimalValue(s[..|s| - 1]) + DigitValue(s[|s| - 1])
  }

  /** The decimal form of a non-negative integer number, without leading zeros. */
  function NatToString(n: nat): (s: string)
    ensures 1 <= |s| && AllDigits(s)
    ensures s[0] == '0' ==> n == 0
  {
    if n < 10 then [DigitChar(n)] else NatToString(n / 10) + [DigitChar(n % 10)]
  }

  /** `${n}` for an integer number `n`. */
  function IntToString(n: int): (s: string)
    ensures n >= 0 ==> s == NatToString(n)
    ensures n < 0 ==> s == "-" + NatToString(-n)
  {
    if n < 0 then "-" + NatToString(-n) else NatToString(n)
  }

  lemma {:induction false} DecimalValueOfZeroPadded(n: nat, width: nat)
    requires n < Pow10(width)
    ensures DecimalValue(ZeroPadded(n, width)) == n
  {
    if width > 0 {
      var s := ZeroPadded(n, width);
      assert s[..width - 1] == ZeroPadded(n / 10, width - 1);
      DecimalValueOfZeroPadded(n / 10, width - 1);
    }
  }

  lemma {:induction false} ZeroPaddedOfDecimalValue(s: string)
    requires AllDigits(s)
    ensures ZeroPadded(DecimalValue(s), |s|) == s
  {
    if s != [] {
      var init, last := s[..|s| - 1], s[|s| - 1];
      var q, d := DecimalValue(init), DigitValue(last);
      DivModDigit(q, d);
      ZeroPaddedOfDecimalValue(init);
      DigitCharOfValue(last);
      assert s == init + [last];
    }
  }

  lemma DivModDigit(q: nat, d: nat)
    requires d < 10
    ensures (10 * q + d) / 10 == q && (10 * q + d) % 10 == d
  {
  }

  /** A number with exactly `width` digits is written with no padding. */
  lemma {:induction false} NatToStringIsZeroPadded(n: nat, width: nat)
    requires 1 <= width && n < Pow10(width)
    requires width == 1 || Pow10(width - 1) <= n
    ensures NatToString(n) == ZeroPadded(n, width)
  {
    if width > 1 {
      NatToStringIsZeroPadded(n / 10, width - 1);
    }
  }

  /** `k` zero characters. */
  function Zeros(k: nat): (r: string)
    ensures |r| == k && forall i :: 0 <= i < k ==> r[i] == '0'
  {
    if k == 0 then "" else Zeros(k - 1) + "0"
  }

  /** One more digit of width adds a leading zero to a number that fits. */
  lemma {:induction false} ZeroPaddedWiden(n: nat, width: nat)
    requires n < Pow10(width)
    ensures ZeroPadded(n, width + 1) == "0" + ZeroPadded(n, width)
  {
    if width > 0 {
      ZeroPaddedWiden(n / 10, width - 1);
    }
  }

  /** A number below ten to the `width` is its decimal form with zeros in front. */
  lemma {:induction false} ZeroPaddedIsZerosAndDecimal(n: nat, width: nat)
    requires 1 <= width && n < Pow10(width)
    ensures |NatToString(n)| <= width
    ensures ZeroPadded(n, width) == Zeros(width - |NatToString(n)|) + NatToString(n)
  {
    if width > 1 && n < Pow10(width - 1) {
      ZeroPaddedIsZerosAndDecimal(n, width - 1);
      ZeroPaddedWiden(n, width - 1);
      var k := |NatToString(n)|;
      assert Zeros(width - k) == "0" + Zeros(width - 1 - k);
    } else {
      NatToStringIsZeroPadded(n, width);
    }
  }
}
