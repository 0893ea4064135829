/**
 * `strconv.FormatUint(n, 10)`, the decimal rendering the booking record stores for its
 * ticket count, and the value a decimal string denotes, which inverts it.
 */
module Strconv {

  /** An ASCII decimal digit, the class `[0-9]`. */
  predicate IsDigit(c: char) {
    '0' <= c <= '9'
  }

  /** A string of decimal digits only. */
  predicate Numeral(s: string) {
    forall i :: 0 <= i < |s| ==> IsDigit(s[i])
  }

  function DigitValue(c: char): (d: nat)
    requires IsDigit(c)
    ensures d < 10
  {
    c as int - '0' as int
  }

  function DigitChar(d: nat): (c: char)
    requires d < 10
    ensures IsDigit(c) && DigitValue(c) == d
  {
    ('0' as int + d) as char
  }

  /** `strconv.FormatUint(n, 10)`: the shortest decimal numeral of `n`, most significant digit first. */
  function FormatUint(n: nat): (r: string)
    ensures r != [] && Numeral(r)
    ensures r[0] == '0' <==> n == 0
    ensures n == 0 ==> r == "0"
  {
    if n < 10 then [DigitChar(n)] else FormatUint(n / 10) + [DigitChar(n % 10)]
  }

  /** The number a string of decimal digits denotes (most significant digit first). */
  function DecimalValue(s: string): nat
    requires Numeral(s)
  {
    if s == [] then 0
    else DecimalValue(s[..|s| - 1]) * 10 + DigitValue(s[|s| - 1])
  }

  /** Reading back the numeral FormatUint writes gives the number it was written from. */
  lemma {:induction false} DecimalValueOfFormatUint(n: nat)
    ensures DecimalValue(FormatUint(n)) == n
  {
    if n >= 10 {
      var r := FormatUint(n);
      assert r[..|r| - 1] == FormatUint(n / 10);
      DecimalValueOfFormatUint(n / 10);
    }
  }

  /** Different counts are never rendered as the same numeral. */
  lemma FormatUintInjective(m: nat, n: nat)
    requires FormatUint(m) == FormatUint(n)
    ensures m == n
  {
    DecimalValueOfFormatUint(m);
    DecimalValueOfFormatUint(n);
  }
}
