/** Decimal digits: writing and reading numbers. */
module Decimal {

  function Digit(d: nat): char
    requires d < 10
  {
    ('0' as int + d) as char
  }

  predicate IsDigit(c: char) {
    '0' <= c <= '9'
  }

  function DigitValue(c: char): nat
    requires IsDigit(c)
  {
    c as int - '0' as int
  }

  /** Plain decimal text. */
  function Dec(n: nat): (s: string)
    ensures s != []
  {
    if n < 10 then [Digit(n)] else Dec(n / 10) + [Digit(n % 10)]
  }

  predicate AllDigits(s: string) {
    forall i :: 0 <= i < |s| ==> IsDigit(s[i])
  }

  /** The number a run of digits spells. */
  function Spelled(s: string): nat
    requires AllDigits(s)
  {
    if s == [] then 0 else 10 * Spelled(s[..|s| - 1]) + DigitValue(s[|s| - 1])
  }

  lemma {:induction false} DecDigits(n: nat)
    ensures AllDigits(Dec(n))
  {
    if n >= 10 {
      DecDigits(n / 10);
    }
  }

  /** Reading undoes writing. */
  lemma {:induction false} SpelledDec(n: nat)
    ensures AllDigits(Dec(n)) && Spelled(Dec(n)) == n
  {
    DecDigits(n);
    if n >= 10 {
      SpelledDec(n / 10);
      assert Dec(n)[..|Dec(n)| - 1] == Dec(n / 10);
    }
  }
}
