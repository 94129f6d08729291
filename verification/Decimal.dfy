/** Decimal numerals. */
module Decimal {
  predicate IsDigit(c: char) { '0' <= c <= '9' }

  function Digit(d: nat): char
    requires d < 10
  {
    '0' + d as char
  }

  function DigitValue(c: char): nat
    requires IsDigit(c)
  {
    (c - '0') as nat
  }

  // The shortest numeral of n.
  function Dec(n: nat): string {
    if n < 10 then [Digit(n)] else Dec(n / 10) + [Digit(n % 10)]
  }

  predicate AllDigits(s: string) {
    forall i :: 0 <= i < |s| ==> IsDigit(s[i])
  }

  // What a string of digits stands for.
  function Value(s: string): nat
    requires AllDigits(s)
  {
    if s == [] then 0 else Value(s[..|s| - 1]) * 10 + DigitValue(s[|s| - 1])
  }

  lemma {:induction false} DecReadsBack(n: nat)
    ensures AllDigits(Dec(n)) && Dec(n) != [] && Value(Dec(n)) == n
  {
    if n >= 10 {
      DecReadsBack(n / 10);
      assert Dec(n)[..|Dec(n)| - 1] == Dec(n / 10);
    } else {
      assert Dec(n)[..0] == [];
      assert Value(Dec(n)) == Value(Dec(n)[..0]) * 10 + DigitValue(Dec(n)[0]);
    }
  }

  lemma DecInjective(m: nat, n: nat)
    requires Dec(m) == Dec(n)
    ensures m == n
  {
    DecReadsBack(m);
    DecReadsBack(n);
  }

  // The digits are the characters from '0' on, in order.
  lemma DigitsInOrder(d: nat)
    requires d < 10
    ensures Digit(0) == '0' && IsDigit(Digit(d)) && DigitValue(Digit(d)) == d
    ensures d < 9 ==> (Digit(d + 1) - Digit(d)) as int == 1
  {
  }

  // A numeral has no leading zero, unless it is "0".
  lemma {:induction false} NoLeadingZero(n: nat)
    ensures Dec(n) != [] && (Dec(n)[0] == '0' <==> n == 0)
  {
    if n >= 10 {
      NoLeadingZero(n / 10);
    }
  }
}
