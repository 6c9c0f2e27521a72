/**
 * Decimal rendering of natural numbers, as Java's string concatenation
 * `"..." + n` renders a non-negative `int`: digits only, no sign and no
 * leading zero.
 */
module Decimal {

  function DigitChar(d: nat): char
    requires d < 10
  {
    (48 + d) as char
  }

  function DigitValue(c: char): int
  {
    c as int - 48
  }

  /** Java's rendering of a non-negative integer as decimal digits. */
  function DecimalString(n: nat): string
    decreases n
  {
    if n < 10 then [DigitChar(n)] else DecimalString(n / 10) + [DigitChar(n % 10)]
  }

  /** The rendering is a non-empty string of digits without a leading zero. */
  lemma {:induction false} DecimalStringWellFormed(n: nat)
    ensures |DecimalString(n)| > 0
    ensures forall i :: 0 <= i < |DecimalString(n)| ==> '0' <= DecimalString(n)[i] <= '9'
    ensures n > 0 ==> DecimalString(n)[0] != '0'
    ensures n < 10 <==> |DecimalString(n)| == 1
    decreases n
  {
    if n >= 10 {
      DecimalStringWellFormed(n / 10);
    }
  }

  /** The number a string of decimal digits denotes (most significant digit first). */
  function DecimalValue(s: string): int
  {
    if s == [] then 0 else 10 * DecimalValue(s[..|s| - 1]) + DigitValue(s[|s| - 1])
  }

  /** Reading back a rendered number gives the number. */
  lemma {:induction false} DecimalRoundTrip(n: nat)
    ensures DecimalValue(DecimalString(n)) == n
    decreases n
  {
    var s := DecimalString(n);
    DecimalStringWellFormed(n);
    if n >= 10 {
      DecimalRoundTrip(n / 10);
      assert s[..|s| - 1] == DecimalString(n / 10);
    }
  }

  /** Distinct numbers render to distinct strings. */
  lemma DecimalStringInjective(m: nat, n: nat)
    ensures DecimalString(m) == DecimalString(n) <==> m == n
  {
    if DecimalString(m) == DecimalString(n) {
      DecimalRoundTrip(m);
      DecimalRoundTrip(n);
    }
  }
}
