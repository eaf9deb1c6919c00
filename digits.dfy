/** Decimal digit strings: their characters, their values and the shortest spelling of a number. */
module Digits {
  predicate IsDigit(c: char)
  {
    '0' <= c <= '9'
  }

  predicate AllDigits(s: string)
  {
    forall i :: 0 <= i < |s| ==> IsDigit(s[i])
  }

  /** The value of a string of decimal digits, most significant first. */
  function DigitsValue(s: string): nat
    requires AllDigits(s)
  {
    if s == [] then 0 else 10 * DigitsValue(s[..|s| - 1]) + (s[|s| - 1] - '0') as nat
  }

  function Pow10(n: nat): (p: nat)
    ensures p >= 1
  {
    if n == 0 then 1 else 10 * Pow10(n - 1)
  }

  function DigitChar(d: nat): (c: char)
    requires d < 10
    ensures IsDigit(c) && (c - '0') as nat == d
  {
    ('0' as int + d) as char
  }

  /** The shortest decimal spelling of `n`. */
  function NatText(n: nat): (t: string)
    ensures |t| > 0 && AllDigits(t) && DigitsValue(t) == n
  {
    if n < 10 then
      assert [DigitChar(n)][..0] == [];
      [DigitChar(n)]
    else
      var t := NatText(n / 10) + [DigitChar(n % 10)];
      assert t[..|t| - 1] == NatText(n / 10);
      t
  }
}
