/** Decimal numerals with ASCII digits, as Java's `Integer.toString` writes them (and `%d` in
    `String.format` does in a locale whose digits are ASCII). */
module Decimal {

  predicate IsDigit(c: char) {
    '0' <= c <= '9'
  }

  predicate IsDigits(s: string) {
    forall i :: 0 <= i < |s| ==> IsDigit(s[i])
  }

  function DigitChar(d: nat): (c: char)
    requires d < 10
    ensures IsDigit(c) && c as int - '0' as int == d
  {
    ('0' as int + d) as char
  }

  /** The numeral of `n`: decimal digits only, and no leading zero unless `n` is zero. */
  function NatToDecimal(n: nat): (s: string)
    ensures |s| >= 1 && IsDigits(s)
    ensures s[0] == '0' <==> n == 0
    ensures n == 0 ==> s == "0"
  {
    if n < 10 then [DigitChar(n)] else NatToDecimal(n / 10) + [DigitChar(n % 10)]
  }

  /** The number a string of digits denotes. */
  function DecimalValue(s: string): nat
    requires IsDigits(s)
  {
    if s == [] then 0 else 10 * DecimalValue(s[..|s| - 1]) + (s[|s| - 1] as int - '0' as int)
  }

  /** Reading back a rendered numeral gives the number that was rendered. */
  lemma {:induction false} DecimalRoundTrip(n: nat)
    ensures DecimalValue(NatToDecimal(n)) == n
  {
    if n >= 10 {
      var s := NatToDecimal(n);
      assert s[..|s| - 1] == NatToDecimal(n / 10);
      DecimalRoundTrip(n / 10);
    }
  }

  /** Distinct numbers have distinct numerals. */
  lemma NatToDecimalInjective(a: nat, b: nat)
    ensures NatToDecimal(a) == NatToDecimal(b) ==> a == b
  {
    DecimalRoundTrip(a);
    DecimalRoundTrip(b);
  }

  /** `Integer.toString(i)`: a minus sign in front of the numeral of a negative value's magnitude. */
  function IntToDecimal(i: int): (s: string)
    ensures |s| >= 1
    ensures s[0] == '-' <==> i < 0
    ensures IsDigits(if i < 0 then s[1..] else s)
  {
    if i < 0 then "-" + NatToDecimal(-i) else NatToDecimal(i)
  }

  /** The integer a (possibly signed) numeral denotes. */
  function SignedValue(s: string): int
    requires |s| >= 1 && IsDigits(if s[0] == '-' then s[1..] else s)
  {
    if s[0] == '-' then -(DecimalValue(s[1..]) as int) else DecimalValue(s)
  }

  lemma IntRoundTrip(i: int)
    ensures SignedValue(IntToDecimal(i)) == i
  {
    if i < 0 {
      assert IntToDecimal(i)[1..] == NatToDecimal(-i);
      DecimalRoundTrip(-i);
    } else {
      DecimalRoundTrip(i);
    }
  }
}
