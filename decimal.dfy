/**
 * Decimal rendering of integers, as `Byte.toString`, `Short.toString`,
 * `Integer.toString` and `Long.toString` produce it (and `String.format("%s")`
 * of an `int`): an optional minus sign followed by the digits, without
 * leading zeros.
 */
module Decimal {
  import opened Lang

  const MINUS: JChar := '-' as int
  const ZERO: JChar := '0' as int

  predicate IsDigit(c: int) { ZERO <= c <= ZERO + 9 }

  /** The decimal digits of `n`, most significant first. */
  function Digits(n: nat): (r: JString)
    ensures |r| > 0 && IsDigit(r[0])
    decreases n
  {
    if n < 10 then [ZERO + n] else Digits(n / 10) + [ZERO + n % 10]
  }

  /** Java's `toString` of an integral value: never empty, and signed exactly when negative. */
  function DecimalString(n: int): (r: JString)
    ensures |r| > 0
    ensures r[0] == MINUS <==> n < 0
  {
    if n < 0 then [MINUS] + Digits(-n) else Digits(n)
  }

  /** The value a string of decimal digits denotes. */
  function DigitsValue(s: JString): (v: nat)
    requires forall i | 0 <= i < |s| :: IsDigit(s[i])
  {
    if s == [] then 0
    else
      assert IsDigit(s[|s| - 1]);
      10 * DigitsValue(s[..|s| - 1]) + (s[|s| - 1] - ZERO) as nat
  }

  /** A well-formed integer literal: an optional `-`, then one or more digits. */
  predicate IsIntegerLiteral(s: JString)
  {
    if |s| > 0 && s[0] == MINUS then AllDigits(s[1..]) else AllDigits(s)
  }

  predicate AllDigits(s: JString)
  {
    |s| > 0 && forall i | 0 <= i < |s| :: IsDigit(s[i])
  }

  /** The value of an integer literal, as `Long.parseLong` reads it. */
  function IntegerValue(s: JString): (v: int)
    requires IsIntegerLiteral(s)
  {
    if s[0] == MINUS then 0 - DigitsValue(s[1..]) else DigitsValue(s)
  }

  lemma {:induction false} DigitsRoundTrip(n: nat)
    ensures |Digits(n)| > 0
    ensures forall i | 0 <= i < |Digits(n)| :: IsDigit(Digits(n)[i])
    ensures DigitsValue(Digits(n)) == n
    ensures Digits(n)[0] != ZERO || n == 0
    decreases n
  {
    if n >= 10 {
      DigitsRoundTrip(n / 10);
      var d := Digits(n);
      assert d[..|d| - 1] == Digits(n / 10);
    }
  }

  /**
   * The rendering is a well-formed literal that reads back as the value it
   * renders, carries no leading zero, and has a minus sign exactly when the
   * value is negative: no two integers render alike.
   */
  lemma DecimalRoundTrip(n: int)
    ensures IsIntegerLiteral(DecimalString(n))
    ensures IntegerValue(DecimalString(n)) == n
    ensures (DecimalString(n)[0] == MINUS) <==> n < 0
    ensures n != 0 ==> DecimalString(n)[if n < 0 then 1 else 0] != ZERO
  {
    var m: nat := if n < 0 then -n else n;
    DigitsRoundTrip(m);
    if n < 0 {
      assert DecimalString(n)[1..] == Digits(m);
    }
  }

  /** Decimal renderings never contain a comma, a newline or a quote. */
  lemma DecimalCharacters(n: int, i: int)
    requires 0 <= i < |DecimalString(n)|
    ensures IsDigit(DecimalString(n)[i]) || (i == 0 && DecimalString(n)[i] == MINUS)
  {
    DecimalRoundTrip(n);
    if n < 0 && i > 0 {
      assert DecimalString(n)[i] == DecimalString(n)[1..][i - 1];
    }
  }
}
