/** IEEE 754 doubles as the extended reals they denote. */
module Float64 {
  import opened Bits

  datatype F64 = NaN | Inf(negative: bool) | Fin(r: real)

  function RealPow2(e: int): (p: real)
    ensures p > 0.0
    decreases if e < 0 then -e else e
  {
    if e == 0 then 1.0 else if e > 0 then 2.0 * RealPow2(e - 1) else RealPow2(e + 1) / 2.0
  }

  const MANTISSA := 0x10_0000_0000_0000   // 2^52

  function Negative(bits: int): bool { bits >= TWO63 }

  /** Biased exponent and fraction of the magnitude. */
  function Exponent(bits: int): int { bits % TWO63 / MANTISSA }
  function Fraction(bits: int): int { bits % MANTISSA }

  /** The magnitude of a finite double. */
  function Magnitude(e: int, m: int): real {
    if e == 0 then m as real * RealPow2(-1074) else (MANTISSA + m) as real * RealPow2(e - 1075)
  }

  /** The number a bit pattern stands for. */
  function ToF64(bits: int): F64 {
    var e, m := Exponent(bits), Fraction(bits);
    if e == 2047 then (if m == 0 then Inf(Negative(bits)) else NaN)
    else Fin(if Negative(bits) then -Magnitude(e, m) else Magnitude(e, m))
  }

  /** Go's `<` on doubles: false whenever a NaN is involved. */
  predicate Less(a: F64, b: F64) {
    match (a, b)
    case (NaN, _) => false
    case (_, NaN) => false
    case (Inf(n), Inf(m)) => n && !m
    case (Inf(n), Fin(_)) => n
    case (Fin(_), Inf(m)) => !m
    case (Fin(x), Fin(y)) => x < y
  }

  /** Three-way comparison by `<` and `>`; a NaN ties with everything. */
  function Cmp(a: F64, b: F64): int {
    if Less(a, b) then -1 else if Less(b, a) then 1 else 0
  }

  /** Between numbers the comparison is a total order. */
  lemma CmpOrders(a: F64, b: F64, c: F64)
    requires !a.NaN? && !b.NaN? && !c.NaN?
    ensures Cmp(a, b) == -Cmp(b, a) && (Cmp(a, b) == 0 <==> a == b)
    ensures Cmp(a, b) <= 0 && Cmp(b, c) <= 0 ==> Cmp(a, c) <= 0
  {}

  // ---- integers as doubles --------------------------------------------------------------

  const EXACT := 0x20_0000_0000_0000   // 2^53

  /** `m` rounded to a multiple of `q`, ties to the even multiple. */
  function RoundHalfEven(m: nat, q: nat): nat
    requires q > 0
  {
    var d, r := m / q, m % q;
    if 2 * r < q || (2 * r == q && d % 2 == 0) then d * q else (d + 1) * q
  }

  /** The spacing of doubles around the magnitude `m`. */
  function Spacing(m: nat, q: nat): (r: nat)
    requires q > 0
    ensures r > 0
    decreases m - EXACT * q
  {
    if m < EXACT * q then q else Spacing(m, 2 * q)
  }

  /** Go's float64(int64): the nearest double, ties to even. */
  function FloatOfInt(i: int): real {
    if -EXACT <= i <= EXACT then i as real
    else if i < 0 then -(RoundHalfEven(-i, Spacing(-i, 1)) as real)
    else RoundHalfEven(i, Spacing(i, 1)) as real
  }

  lemma {:induction false} SpacingIs(m: nat, q: nat)
    requires q > 0 && m >= MANTISSA * q
    ensures MANTISSA * Spacing(m, q) <= m < EXACT * Spacing(m, q)
    decreases m - EXACT * q
  {
    if m >= EXACT * q { SpacingIs(m, 2 * q); }
  }

  /** `r` is `d` times `q`, no more than half of `q` from `m`, and of two such `d` is the even one. */
  predicate NearestBy(m: int, q: int, r: int, d: int) {
    r == d * q && 2 * (r - m) <= q && 2 * (m - r) <= q && (2 * (r - m) == q || 2 * (m - r) == q ==> d % 2 == 0)
  }

  /** The multiple of `q` nearest to `m`. */
  ghost predicate Nearest(m: int, q: int, r: int) {
    exists d :: NearestBy(m, q, r, d)
  }

  lemma RoundIsNearest(m: nat, q: nat)
    requires q > 0
    ensures Nearest(m, q, RoundHalfEven(m, q))
  {
    var d, r := m / q, m % q;
    var low, high := d * q, (d + 1) * q;
    assert high == low + q;
    assert m == low + r;
    RoundFrom(m, q, d, r, low, high);
  }

  lemma RoundFrom(m: nat, q: nat, d: nat, r: nat, low: nat, high: nat)
    requires low == d * q && high == (d + 1) * q && high == low + q && m == low + r && r < q
    ensures Nearest(m, q, if 2 * r < q || (2 * r == q && d % 2 == 0) then low else high)
  {
    if 2 * r < q || (2 * r == q && d % 2 == 0) {
      assert NearestBy(m, q, low, d);
    } else {
      assert NearestBy(m, q, high, d + 1);
    }
  }

  /** Beyond 2^53 an integer becomes the nearest number of 53 significant bits, ties to even, keeping its sign. */
  lemma FloatOfIntIsNearest(i: int)
    ensures -EXACT <= i <= EXACT ==> FloatOfInt(i) == i as real
    ensures FloatOfInt(-i) == -FloatOfInt(i)
    ensures i > EXACT ==> exists q: nat, r: nat ::
              MANTISSA * q <= i < EXACT * q && Nearest(i, q, r) && FloatOfInt(i) == r as real
  {
    if i > EXACT {
      SpacingIs(i, 1);
      RoundIsNearest(i, Spacing(i, 1));
    }
  }

  // ---- one number, one bit pattern ---------------------------------------------------------

  lemma {:induction false} PowStep(e: int)
    ensures RealPow2(e + 1) == 2.0 * RealPow2(e)
  {}

  lemma {:induction false} PowMonotone(a: int, b: int)
    requires a <= b
    ensures RealPow2(a) <= RealPow2(b)
    decreases b - a
  {
    if a < b {
      PowStep(b - 1);
      PowMonotone(a, b - 1);
    }
  }

  ghost predicate Biased(e: int, m: int) { 0 <= e < 2047 && 0 <= m < MANTISSA }

  lemma MulLess(a: real, b: real, p: real)
    requires p > 0.0 && a < b
    ensures a * p < b * p
  {}

  lemma MulMonotone(a: real, p: real, q: real)
    requires 0.0 <= a && p <= q
    ensures a * p <= a * q
  {}

  /** Where the magnitudes of a biased exponent start; subnormals start at zero. */
  function BinadeStart(e: int): real { MANTISSA as real * RealPow2(e - 1075) }

  /** A magnitude lies below the start of the next binade. */
  lemma BelowNext(e: int, m: int)
    requires Biased(e, m)
    ensures Magnitude(e, m) < BinadeStart(e + 1)
  {
    hide RealPow2;
    if e == 0 {
      MulLess(m as real, MANTISSA as real, RealPow2(-1074));
    } else {
      PowStep(e - 1075);
      MulLess((MANTISSA + m) as real, (2 * MANTISSA) as real, RealPow2(e - 1075));
      Regroup(MANTISSA as real, RealPow2(e - 1075));
      assert (2 * MANTISSA) as real == 2.0 * (MANTISSA as real);
    }
  }

  lemma AboveStart(e: int, m: int)
    requires Biased(e, m) && e > 0
    ensures BinadeStart(e) <= Magnitude(e, m)
  {
    hide RealPow2;
    MulBelow(MANTISSA as real, (MANTISSA + m) as real, RealPow2(e - 1075));
  }

  lemma MulBelow(a: real, b: real, p: real)
    requires p > 0.0 && a <= b
    ensures a * p <= b * p
  {}

  lemma Regroup(a: real, p: real)
    ensures a * (2.0 * p) == (2.0 * a) * p
  {}

  /** A larger exponent means a larger magnitude. */
  lemma ExponentOrders(e: int, m: int, e': int, m': int)
    requires Biased(e, m) && Biased(e', m') && e < e'
    ensures Magnitude(e, m) < Magnitude(e', m')
  {
    hide RealPow2, Magnitude;
    BelowNext(e, m);
    AboveStart(e', m');
    PowMonotone(e + 1 - 1075, e' - 1075);
    MulMonotone(MANTISSA as real, RealPow2(e + 1 - 1075), RealPow2(e' - 1075));
  }

  lemma FractionOrders(e: int, m: int, m': int)
    requires Biased(e, m) && Biased(e, m') && m < m'
    ensures Magnitude(e, m) < Magnitude(e, m')
  {
    hide RealPow2;
    if e == 0 {
      MulLess(m as real, m' as real, RealPow2(-1074));
    } else {
      MulLess((MANTISSA + m) as real, (MANTISSA + m') as real, RealPow2(e - 1075));
    }
  }

  lemma MagnitudeInjective(e: int, m: int, e': int, m': int)
    requires Biased(e, m) && Biased(e', m') && Magnitude(e, m) == Magnitude(e', m')
    ensures e == e' && m == m'
  {
    hide Magnitude;
    if e < e' { ExponentOrders(e, m, e', m'); }
    if e' < e { ExponentOrders(e', m', e, m); }
    if e == e' && m < m' { FractionOrders(e, m, m'); }
    if e == e' && m' < m { FractionOrders(e, m', m); }
  }

  lemma MagnitudeSign(e: int, m: int)
    requires Biased(e, m)
    ensures Magnitude(e, m) >= 0.0 && (Magnitude(e, m) == 0.0 <==> e == 0 && m == 0)
  {
    hide RealPow2;
    if e == 0 && m > 0 { MulLess(0.0, m as real, RealPow2(-1074)); }
    if e > 0 { MulLess(0.0, (MANTISSA + m) as real, RealPow2(e - 1075)); }
  }

  lemma PowZero()
    ensures RealPow2(0) == 1.0
  {}

  lemma {:induction false} PowPlus(e: int, n: nat)
    ensures RealPow2(e + n) == RealPow2(e) * RealPow2(n)
    decreases n
  {
    hide RealPow2;
    if n == 0 {
      PowZero();
    } else {
      PowPlus(e, n - 1);
      PowStep(e + n - 1);
      PowStep(n - 1);
      assert (e + n - 1) + 1 == e + n && (n - 1) + 1 == n;
      Twice(RealPow2(e), RealPow2(n - 1));
    }
  }

  lemma Twice(a: real, b: real)
    ensures 2.0 * (a * b) == a * (2.0 * b)
  {}

  lemma Pow52()
    ensures RealPow2(52) == MANTISSA as real
  {
    assert RealPow2(13) == 8192.0;
    PowPlus(13, 13);
    PowPlus(26, 26);
  }

  /**
   The fields of a double: sign, biased exponent and fraction m stand for plus or minus
   (1 + m / 2^52) 2^(e - 1023), without the 1 and with exponent -1022 when e is 0.
   */
  lemma FieldsMean(negative: bool, e: int, m: int)
    requires Biased(e, m)
    ensures var bits := (if negative then TWO63 else 0) + e * MANTISSA + m;
            var size := if e == 0 then m as real / MANTISSA as real * RealPow2(-1022)
                        else (1.0 + m as real / MANTISSA as real) * RealPow2(e - 1023);
            ToF64(bits) == Fin(if negative then -size else size)
  {
    hide RealPow2, Exponent, Fraction, Negative, Magnitude;
    FieldsOf(negative, e, m);
    SizeMeans(e, m);
  }

  lemma SizeMeans(e: int, m: int)
    requires Biased(e, m)
    ensures Magnitude(e, m) == if e == 0 then m as real / MANTISSA as real * RealPow2(-1022)
                               else (1.0 + m as real / MANTISSA as real) * RealPow2(e - 1023)
  {
    hide RealPow2;
    var low := if e == 0 then -1074 else e - 1075;
    Pow52();
    PowPlus(low, 52);
    Scale(m as real, MANTISSA as real, RealPow2(low));
    assert (MANTISSA + m) as real == MANTISSA as real + m as real;
  }

  lemma FieldsOf(negative: bool, e: int, m: int)
    requires Biased(e, m)
    ensures var bits := (if negative then TWO63 else 0) + e * MANTISSA + m;
            Exponent(bits) == e && Fraction(bits) == m && Negative(bits) == negative
  {
    var low := e * MANTISSA + m;
    assert TWO63 == 2048 * MANTISSA;
    assert 0 <= low < TWO63;
    assert low / MANTISSA == e && low % MANTISSA == m;
    if negative {
      assert (TWO63 + low) % TWO63 == low;
      assert (TWO63 + low) % MANTISSA == low % MANTISSA;
    }
  }

  lemma Scale(m: real, big: real, p: real)
    requires big > 0.0
    ensures m / big * (p * big) == m * p && (1.0 + m / big) * (p * big) == (big + m) * p
  {
    var x := m / big;
    assert x * big == m;
    Swap3(x, p, big);
    Spread(x, p, big);
  }

  lemma Swap3(x: real, p: real, big: real)
    ensures x * (p * big) == (x * big) * p
  {}

  lemma Spread(x: real, p: real, big: real)
    ensures (1.0 + x) * (p * big) == (big + x * big) * p
  {}

  /** The three fields of a bit pattern. */
  lemma BitsAre(bits: int)
    requires IsU64(bits)
    ensures bits == (if Negative(bits) then TWO63 else 0) + Exponent(bits) * MANTISSA + Fraction(bits)
    ensures 0 <= Exponent(bits) <= 2047 && 0 <= Fraction(bits) < MANTISSA
  {
    var low := bits % TWO63;
    assert low == low / MANTISSA * MANTISSA + low % MANTISSA;
    assert low % MANTISSA == bits % MANTISSA by {
      assert bits == low || bits == low + TWO63;
      assert TWO63 == 2048 * MANTISSA;
    }
  }

  /** A double other than zero and NaN has only one bit pattern. */
  lemma BitsDetermined(a: int, b: int)
    requires IsU64(a) && IsU64(b) && ToF64(a) == ToF64(b)
    requires !ToF64(a).NaN? && ToF64(a) != Fin(0.0)
    ensures a == b
  {
    hide Magnitude;
    BitsAre(a);
    BitsAre(b);
    var e, m, e', m' := Exponent(a), Fraction(a), Exponent(b), Fraction(b);
    if ToF64(a).Fin? {
      MagnitudeSign(e, m);
      MagnitudeSign(e', m');
      MagnitudeInjective(e, m, e', m');
    }
  }
}
