/** Integer division as C++ defines it: truncated toward zero. */
module CppInt {
  function TruncDiv(a: int, b: int): int
    requires b > 0
  {
    if a >= 0 then a / b else -((-a) / b)
  }

  function TruncMod(a: int, b: int): int
    requires b > 0
  {
    a - b * TruncDiv(a, b)
  }

  // The quotient is as large as the dividend allows, and the remainder has the dividend's sign.
  lemma TruncationLaw(a: int, b: int)
    requires b > 0
    ensures var q, r := TruncDiv(a, b), TruncMod(a, b);
            a == b * q + r && (a >= 0 ==> 0 <= r < b) && (a <= 0 ==> -b < r <= 0)
  {
    if a < 0 {
      assert -a == b * ((-a) / b) + (-a) % b;
      assert b * TruncDiv(a, b) == -(b * ((-a) / b));
    }
  }
}
