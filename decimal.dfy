/**
  Decimal digit strings: their value (what `int()` / `astype(int)` makes of a
  run of digits) and the digits Python's `str()` writes for an integer.
 */
module Decimal {
  import opened Text

  function Pow10(n: nat): (p: nat)
    ensures p >= 1
  {
    if n == 0 then 1 else 10 * Pow10(n - 1)
  }

  /** The value of a run of decimal digits; leading zeros are allowed. */
  function DigitsValue(d: string): (v: nat)
    requires AllDigits(d)
    ensures v < Pow10(|d|)
    decreases |d|
  {
    if d == [] then 0
    else
      var v := DigitsValue(d[..|d| - 1]);
      var p := Pow10(|d| - 1);
      assert 10 * v + DigitOf(d[|d| - 1]) <= 10 * (p - 1) + 9;
      10 * v + DigitOf(d[|d| - 1])
  }

  function DigitChar(d: nat): (c: char)
    requires d < 10
    ensures IsDigit(c) && DigitOf(c) == d
  {
    ('0' as int + d) as char
  }

  /** `str(n)` for a non-negative integer: shortest digits, no leading zero. */
  function ShowNat(n: nat): (s: string)
    ensures s != [] && AllDigits(s)
    ensures |s| > 1 ==> s[0] != '0'
    ensures DigitsValue(s) == n
    decreases n
  {
    if n < 10 then [DigitChar(n)]
    else
      var front := ShowNat(n / 10);
      var s := front + [DigitChar(n % 10)];
      assert s[..|s| - 1] == front;
      s
  }

  /** `str(n)` for any integer: a minus sign before the digits of `|n|`. */
  function ShowInt(n: int): (s: string)
    ensures n >= 0 ==> AllDigits(s) && DigitsValue(s) == n
    ensures n < 0 ==> s != [] && s[0] == '-' && AllDigits(s[1..]) && DigitsValue(s[1..]) == -n
  {
    if n < 0 then "-" + ShowNat(-n) else ShowNat(n)
  }
}
