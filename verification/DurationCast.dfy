/** The checked conversion between integer durations. */
module DurationCast {
  import opened CppInt

  function Pow2(n: nat): (p: nat)
    ensures p >= 1
  {
    if n == 0 then 1 else 2 * Pow2(n - 1)
  }

  // An integer type by its numeric_limits: signedness and number of value bits.
  datatype IntType = IntType(signed: bool, digits: nat)
  {
    function Bits(): nat { digits + if signed then 1 else 0 }
    function Max(): nat { Pow2(digits) - 1 }
    function Min(): int { if signed then 0 - Pow2(digits) else 0 }
    predicate Fits(x: int) { Min() <= x <= Max() }
  }

  const INTMAX := IntType(true, 63)

  lemma {:induction false} Pow2Monotone(m: nat, n: nat)
    requires m <= n
    ensures Pow2(m) <= Pow2(n)
    decreases n
  {
    if m < n {
      Pow2Monotone(m, n - 1);
    }
  }

  lemma {:induction false} Pow2Adds(m: nat, n: nat)
    ensures Pow2(m + n) == Pow2(m) * Pow2(n)
    decreases n
  {
    if n > 0 {
      Pow2Adds(m, n - 1);
      assert Pow2(m) * (2 * Pow2(n - 1)) == 2 * (Pow2(m) * Pow2(n - 1));
    }
  }

  lemma Pow2Doubles(n: nat)
    ensures Pow2(n + 1) == 2 * Pow2(n)
  {
  }

  lemma Pow2Of8()
    ensures Pow2(8) == 0x100
  {
    assert Pow2(2) == 4;
    Pow2Adds(2, 2);
    Pow2Adds(4, 4);
  }

  lemma Pow2Of32()
    ensures Pow2(32) == 0x1_0000_0000
  {
    Pow2Of8();
    Pow2Adds(8, 8);
    Pow2Adds(16, 16);
  }

  // The limits of the types of 64 bits.
  lemma LimitsOf64Bits()
    ensures IntType(false, 64).Min() == 0 && IntType(false, 64).Max() == 0xFFFF_FFFF_FFFF_FFFF
    ensures INTMAX.Min() == -0x8000_0000_0000_0000 && INTMAX.Max() == 0x7FFF_FFFF_FFFF_FFFF
  {
    Pow2Of32();
    Pow2Adds(32, 32);
    Pow2Doubles(63);
  }

  // static_cast to a type: reduction modulo its range.
  function Cast(t: IntType, x: int): int {
    if t.signed then (x + Pow2(t.digits)) % (2 * Pow2(t.digits)) - Pow2(t.digits) else x % Pow2(t.digits)
  }

  lemma SmallMod(x: int, m: int)
    requires 0 <= x < m
    ensures x % m == x
  {
  }

  lemma CastOfFitting(t: IntType, x: int)
    requires t.Fits(x)
    ensures Cast(t, x) == x
  {
    if t.signed {
      SmallMod(x + Pow2(t.digits), 2 * Pow2(t.digits));
    } else {
      SmallMod(x, Pow2(t.digits));
    }
  }

  // lossless_integral_conversion: the error code and the converted value. All comparisons of
  // types are made at compile time.
  function LosslessConversion(from: IntType, to: IntType, x: int): (int, int) {
    if from == to then (0, x)
    else if from.signed == to.signed then
      if from.digits > to.digits && (x < to.Min() || x > to.Max()) then (1, 0) else (0, Cast(to, x))
    else if from.signed && !to.signed && x < 0 then (1, 0)
    else if from.signed && !to.signed && from.digits > to.digits && x > Cast(from, to.Max()) then (1, 0)
    else if !from.signed && to.signed && from.digits >= to.digits && x > Cast(from, to.Max()) then (1, 0)
    else (0, Cast(to, x))
  }

  // Whatever the two types are, the conversion succeeds exactly for the values of the target
  // type, and then it changes nothing.
  lemma ConversionIsExact(from: IntType, to: IntType, x: int)
    requires from.Fits(x)
    ensures LosslessConversion(from, to, x) == if to.Fits(x) then (0, x) else (1, 0)
  {
    if to.Fits(x) {
      CastOfFitting(to, x);
    }
    if from.digits <= to.digits {
      Pow2Monotone(from.digits, to.digits);
    } else {
      Pow2Monotone(to.digits, from.digits);
    }
    if from.Fits(to.Max()) {
      CastOfFitting(from, to.Max());
    }
  }

  // The type of an arithmetic expression over two integer types.
  function CommonType(a: IntType, b: IntType): IntType {
    if a.signed == b.signed then (if a.digits >= b.digits then a else b)
    else
      var (u, s) := if a.signed then (b, a) else (a, b);
      if u.Bits() >= s.Bits() then u else s
  }

  function IntermediateRep(from: IntType, to: IntType): IntType {
    CommonType(CommonType(from, to), INTMAX)
  }

  // The common type is one of the two, with no fewer bits than either; it is unsigned exactly if
  // an unsigned one of them has that many.
  predicate Common(r: IntType, types: seq<IntType>) {
    && r in types
    && (forall t :: t in types ==> t.Bits() <= r.Bits())
    && (r.signed <==> forall t :: t in types && !t.signed ==> t.Bits() < r.Bits())
  }

  lemma CommonTypeLaw(a: IntType, b: IntType)
    ensures Common(CommonType(a, b), [a, b])
  {
    assert a in [a, b] && b in [a, b];
  }

  // The intermediate type, for any three types: the widest of the two and a signed one of 64 bits,
  // unsigned if an unsigned one is as wide.
  lemma IntermediateLaw(from: IntType, to: IntType)
    ensures Common(IntermediateRep(from, to), [from, to, IntType(true, 63)])
  {
    var types := [from, to, IntType(true, 63)];
    assert from in types && to in types && types[2] in types;
    CommonTypeLaw(from, to);
    CommonTypeLaw(CommonType(from, to), IntType(true, 63));
    assert from in [from, to] && to in [from, to];
    assert CommonType(from, to) in [CommonType(from, to), IntType(true, 63)];
  }

  lemma IntermediateIsWide(from: IntType, to: IntType)
    ensures IntermediateRep(from, to).digits >= 63
    ensures IntermediateRep(from, to).Max() >= INTMAX.Max()
  {
    Pow2Monotone(63, IntermediateRep(from, to).digits);
  }

  // A product in a type that holds it.
  function Multiply(t: IntType, a: int, b: int): int
    requires t.Fits(a) && t.Fits(b) && t.Fits(a * b)
  {
    a * b
  }

  lemma TimesMonotone(a: int, b: int, k: int)
    requires a <= b && k > 0
    ensures a * k <= b * k
  {
    assert (b - a) * k >= 0;
  }

  lemma DivisionBounds(n: int, k: int)
    requires n >= 0 && k > 0
    ensures n / k * k <= n < (n / k + 1) * k
  {
    assert n == k * (n / k) + n % k;
  }

  lemma UpperLimit(c: int, num: int, max: int)
    requires num > 0 && max >= 0
    ensures c > max / num <==> c * num > max
  {
    var q := max / num;
    DivisionBounds(max, num);
    if c > q {
      TimesMonotone(q + 1, c, num);
    } else {
      TimesMonotone(c, q, num);
    }
  }

  lemma LowerLimit(c: int, num: int, min: int)
    requires num > 0 && min <= 0
    ensures c < TruncDiv(min, num) <==> c * num < min
  {
    UpperLimit(-c, num, -min);
    assert (-c) * num == -(c * num);
  }

  lemma AtLeast(a: nat, b: int)
    requires b >= 1
    ensures a * b >= a
  {
  }

  lemma QuotientIsSmaller(n: nat, den: int)
    requires den > 0
    ensures 0 <= n / den <= n
  {
    AtLeast(n + 1, den);
    UpperLimit(n + 1, den, n);
    UpperLimit(-1, den, n);
  }

  lemma QuotientFits(t: IntType, c: int, den: int)
    requires t.Fits(c) && den > 0
    ensures t.Fits(TruncDiv(c, den))
  {
    QuotientIsSmaller(if c >= 0 then c else -c, den);
  }

  // The error code is 0 exactly when the count, the product and the truncated quotient fit their
  // types, and then the result is that quotient. No product is computed that does not fit.
  method SafeDurationCast(from: IntType, to: IntType, num: int, den: int, fromCount: int) returns (r: int, ec: int)
    requires from.Fits(fromCount)
    requires 0 < num <= INTMAX.Max() && 0 < den <= INTMAX.Max()
    ensures var t := IntermediateRep(from, to);
            ec == 0 <==> t.Fits(fromCount) && t.Fits(fromCount * num) && to.Fits(TruncDiv(fromCount * num, den))
    ensures r == if ec == 0 then TruncDiv(fromCount * num, den) else 0
    ensures ec == 0 || ec == 1
  {
    var t := IntermediateRep(from, to);
    IntermediateIsWide(from, to);
    ConversionIsExact(from, t, fromCount);
    var (code, count) := LosslessConversion(from, t, fromCount);
    ec := code;
    if ec != 0 {
      return 0, ec;
    }
    if num != 1 {
      var max1 := t.Max() / num;
      UpperLimit(count, num, t.Max());
      if count > max1 {
        return 0, 1;
      }
      var min1 := TruncDiv(t.Min(), num);
      LowerLimit(count, num, t.Min());
      if t.signed && count < min1 {
        return 0, 1;
      }
      assert !t.signed ==> count * num >= 0;
      count := Multiply(t, count, num);
    }
    QuotientFits(t, count, den);
    if den != 1 {
      count := TruncDiv(count, den);
    }
    ConversionIsExact(t, to, count);
    var (code', tocount) := LosslessConversion(t, to, count);
    ec := code';
    r := if ec != 0 then 0 else tocount;
  }
}
