/** grisu2_format_positive: the decimal printed for a double reads back as that double. */
module Grisu {
  import opened Arithmetic
  import opened FloatingPoint
  import opened Doubles
  import opened RealPowers
  import opened CachedPowers
  import opened GrisuDigits
  import opened Decimal

  lemma PowersCancel(b: real, e: int)
    requires b > 0.0
    ensures Power(b, e) * Power(b, -e) == 1.0
  {
    hide Power;
    PowerAdds(b, e, -e);
    PowerZero(b);
  }

  lemma WeighHigh(a: real, m: real, p: real, one: real, w: real)
    requires w > 0.0 && w * one == 1.0
    ensures a <= m * (p * one) <==> a * w <= m * p
    ensures a >= m * (p * one) <==> a * w >= m * p
  {
    LessProducts(a, m * (p * one), w);
    LessProducts(m * (p * one), a, w);
    assert m * (p * one) * w == m * p * (w * one);
  }

  lemma WeighLow(a: real, m: real, p: real, s: real, one: real, w: real)
    requires w > 0.0 && w * one == 1.0 && p > 0.0 && p * s == 1.0
    ensures a * s <= m * one <==> a * w <= m * p
    ensures a * s >= m * one <==> a * w >= m * p
  {
    var q := w * p;
    assert q > 0.0;
    LessProducts(a * s, m * one, q);
    LessProducts(m * one, a * s, q);
    assert a * s * q == a * w * (p * s);
    assert m * one * q == m * p * (w * one);
  }

  lemma CompareHigh(a: nat, m: nat, p: nat, one: nat, w: real)
    requires w > 0.0 && w * one as real == 1.0
    ensures a <= m * (p * one) <==> a as real * w <= m as real * p as real
    ensures a >= m * (p * one) <==> a as real * w >= m as real * p as real
  {
    ToReal(p, one);
    ToReal(m, p * one);
    WeighHigh(a as real, m as real, p as real, one as real, w);
  }

  lemma CompareLow(a: nat, m: nat, s: nat, one: nat, w: real, p: real)
    requires w > 0.0 && w * one as real == 1.0 && p > 0.0 && p * s as real == 1.0
    ensures a * s <= m * one <==> a as real * w <= m as real * p
    ensures a * s >= m * one <==> a as real * w >= m as real * p
  {
    ToReal(a, s);
    ToReal(m, one);
    WeighLow(a as real, m as real, p, s as real, one as real, w);
  }

  /** Comparing the integers of the digit generation is comparing the reals they stand for. */
  lemma Weigh(a: nat, m: nat, k: int, e: int)
    requires e <= 0
    ensures a * Scale(k) <= m * Unit(k, Pow2(-e)) <==> a as real * Power(2.0, e) <= m as real * Power(10.0, k)
    ensures a * Scale(k) >= m * Unit(k, Pow2(-e)) <==> a as real * Power(2.0, e) >= m as real * Power(10.0, k)
  {
    hide Power, Pow2, Pow10;
    PowersCancel(2.0, e);
    PowerOfTwo(-e);
    var one, w, p := Pow2(-e), Power(2.0, e), Power(10.0, k);
    if k >= 0 {
      PowerOfTen(k);
      var u := Unit(k, one);
      assert u == Pow10(k) * one && Scale(k) == 1;
      hide *;
      CompareHigh(a, m, Pow10(k), one, w);
    } else {
      PowersCancel(10.0, k);
      PowerOfTen(-k);
      assert Unit(k, one) == one && Scale(k) == Pow10(-k);
      hide *;
      CompareLow(a, m, Pow10(-k), one, w, p);
    }
  }

  /** The rounded high half of a product of significands. */
  function Rounded(u: nat, c: nat): nat {
    (u * c + HALF64) / U64
  }

  /** The scaled boundaries, moved inwards by one unit, keep at least 765 units between them. */
  lemma ScaledGap(l: nat, u: nat, c: nat)
    requires l + 1536 <= u < U64 && HALF64 <= c < U64
    ensures var sl, su := Rounded(l, c) + 1, Rounded(u, c) - 1;
      0 < sl && sl + 765 <= su < U64
    ensures Rounded(u, c) < U64
  {
    OrderedProducts(l + 1536, u, c);
    assert (l + 1536) * c == l * c + 1536 * c;
    OrderedProducts(u, U64 - 1, c);
    assert u * c <= (U64 - 1) * (U64 - 1);
  }

  /** With a power within half a unit, the upper bound moved inwards is below the true product, ... */
  lemma UpperIsBelow(u: nat, c: nat, su: int, p: real, g: real)
    requires u < U64 && su == Rounded(u, c) - 1
    requires g > 0.0 && (c as real - 0.5) * g <= p
    ensures su as real * (18446744073709551616.0 * g) < u as real * p
  {
    assert (su * U64) as real <= (u * c) as real - 9223372036854775808.0;
    ToReal(u, c);
    BelowProduct((su * U64) as real, u as real, c as real, p, g);
    SwapFactors(su as real, 18446744073709551616.0, g);
  }

  lemma BelowProduct(s: real, u: real, c: real, p: real, g: real)
    requires 0.0 <= u < 18446744073709551616.0 && g > 0.0 && (c - 0.5) * g <= p
    requires s <= u * c - 9223372036854775808.0
    ensures s * g < u * p
  {
    var h := u * (c - 0.5);
    assert s < h;
    LessProducts(h, s, g);
    assert h * g == u * ((c - 0.5) * g);
    LessOrZero((c - 0.5) * g, p, u);
  }

  lemma LessOrZero(x: real, y: real, u: real)
    requires x <= y && u >= 0.0
    ensures u * x <= u * y
  {
  }

  /** ... and the lower bound moved inwards is above it. */
  lemma LowerIsAbove(l: nat, c: nat, sl: int, p: real, g: real)
    requires l < U64 && sl == Rounded(l, c) + 1
    requires g > 0.0 && p <= (c as real + 0.5) * g
    ensures sl as real * (18446744073709551616.0 * g) > l as real * p
  {
    assert (sl * U64) as real > (l * c) as real + 9223372036854775808.0;
    ToReal(l, c);
    AboveProduct((sl * U64) as real, l as real, c as real, p, g);
    SwapFactors(sl as real, 18446744073709551616.0, g);
  }

  lemma AboveProduct(s: real, l: real, c: real, p: real, g: real)
    requires 0.0 <= l < 18446744073709551616.0 && g > 0.0 && p <= (c + 0.5) * g
    requires s > l * c + 9223372036854775808.0
    ensures s * g > l * p
  {
    var h := l * (c + 0.5);
    assert s > h;
    LessProducts(s, h, g);
    assert h * g == l * ((c + 0.5) * g);
    LessOrZero(p, (c + 0.5) * g, l);
  }

  lemma PowerBounds(f: real, c: real, t: real, w: real, g: real)
    requires w > 0.0 && g == w * c && (f - 0.5) * c <= t <= (f + 0.5) * c
    ensures (f - 0.5) * g <= w * t <= (f + 0.5) * g
  {
    LessProducts((f - 0.5) * c, t, w);
    LessProducts(t, (f + 0.5) * c, w);
    assert (f - 0.5) * g == (f - 0.5) * c * w;
    assert (f + 0.5) * g == (f + 0.5) * c * w;
  }

  lemma Power64(e: int)
    ensures Power(2.0, e + 64) == 18446744073709551616.0 * Power(2.0, e)
  {
    hide Power, Pow2;
    ShiftPower(e, 64);
    CountDigits.LargePowersOfTwo();
  }

  /** Dividing by 10^k what lies between the boundaries multiplied by it. */
  lemma Unscale(l: real, u: real, w: real, t: real, q: real, d: real)
    requires q > 0.0 && t * q == 1.0 && l * (w * t) < d < u * (w * t)
    ensures l * w < d * q < u * w
  {
    LessProducts(d, l * (w * t), q);
    LessProducts(u * (w * t), d, q);
    assert l * (w * t) * q == l * w * (t * q);
    assert u * (w * t) * q == u * w * (t * q);
  }

  /** The scaled boundaries as reals, in units of 2^(e + 64) and multiplied by 10^k. */
  lemma ScaledSides(l: nat, u: nat, e: int, i: nat)
    requires i < COUNT && l < U64 && u < U64
    ensures var c, s, t := Cached(i), Power(2.0, e + Cached(i).e + 64), Power(2.0, e) * Power(10.0, DecimalExponent(i));
      && (Rounded(u, c.f) - 1) as real * s < u as real * t
      && l as real * t < (Rounded(l, c.f) + 1) as real * s
  {
    hide Power, Cached, DecimalExponent, Rounded;
    var c, w, t := Cached(i), Power(2.0, e), Power(10.0, DecimalExponent(i));
    var g := Power(2.0, e + c.e);
    WithinHalfUlp(i);
    PowerAdds(2.0, e, c.e);
    PowerBounds(c.f as real, Power(2.0, c.e), t, w, g);
    Power64(e + c.e);
    var p := w * t;
    assert (c.f as real - 0.5) * g <= p <= (c.f as real + 0.5) * g;
    UpperIsBelow(u, c.f, Rounded(u, c.f) - 1, p, g);
    LowerIsAbove(l, c.f, Rounded(l, c.f) + 1, p, g);
  }

  /** v at weight 10^x lies between sl and su, which count units of 2^e. */
  ghost predicate InUnits(sl: nat, v: nat, su: nat, x: int, e: int) {
    e <= 0 && sl * Scale(x) <= v * Unit(x, Pow2(-e)) <= su * Scale(x)
  }

  /** The decimal v * 10^(x - k) lies strictly between the boundaries if v at x lies between their scaled images. */
  lemma DecimalBetween(lower: Fp, upper: Fp, i: nat, v: nat, x: int)
    requires i < COUNT && lower.e == upper.e && lower.f < U64 && upper.f < U64
    requires upper.e + Cached(i).e + 64 <= 0 && Rounded(upper.f, Cached(i).f) > 0
    requires InUnits(Rounded(lower.f, Cached(i).f) + 1, v, Rounded(upper.f, Cached(i).f) - 1, x, upper.e + Cached(i).e + 64)
    ensures RealOf(lower) < v as real * Power(10.0, x - DecimalExponent(i)) < RealOf(upper)
  {
    hide Power, Pow2, Cached, InUnits, DecimalExponent, Rounded;
    var c, k, e := Cached(i), DecimalExponent(i), upper.e + Cached(i).e + 64;
    var sl: nat, su: nat := Rounded(lower.f, c.f) + 1, Rounded(upper.f, c.f) - 1;
    var w, t, q, s, p := Power(2.0, upper.e), Power(10.0, k), Power(10.0, -k), Power(2.0, e), Power(10.0, x);
    ScaledSides(lower.f, upper.f, upper.e, i);
    WeighBoth(sl, v, su, x, e);
    PowerQuotient(x, k);
    Combine(lower.f as real, upper.f as real, w, t, q, sl as real, su as real, s, v as real, p, Power(10.0, x - k));
  }

  lemma WeighBoth(sl: nat, v: nat, su: nat, x: int, e: int)
    requires InUnits(sl, v, su, x, e)
    ensures sl as real * Power(2.0, e) <= v as real * Power(10.0, x) <= su as real * Power(2.0, e)
  {
    hide Power, Pow2, Scale, Unit;
    Weigh(sl, v, x, e);
    Weigh(su, v, x, e);
  }

  lemma PowerQuotient(x: int, k: int)
    ensures Power(10.0, k) * Power(10.0, -k) == 1.0
    ensures Power(10.0, x - k) == Power(10.0, x) * Power(10.0, -k)
  {
    hide *;
    PowersCancel(10.0, k);
    PowerAdds(10.0, x, -k);
    assert x + -k == x - k;
  }

  lemma Combine(l: real, u: real, w: real, t: real, q: real, sl: real, su: real, s: real, v: real, p: real, r: real)
    requires q > 0.0 && t * q == 1.0 && r == p * q
    requires l * (w * t) < sl * s <= v * p <= su * s < u * (w * t)
    ensures l * w < v * r < u * w
  {
    Unscale(l, u, w, t, q, v * p);
    assert v * p * q == v * r;
  }

  /** A decimal strictly between the computed boundaries is strictly between the true ones, and reads back as the double. */
  lemma BetweenBoundariesRounds(bits: nat, lower: Fp, upper: Fp, r: real)
    requires 0 < bits < INFINITY_BITS && FromDouble(bits).f > 0
    requires Aligned(lower, LowerBoundary(FromDouble(bits))) && Aligned(upper, UpperBoundary(FromDouble(bits)))
    requires RealOf(lower) < r < RealOf(upper)
    ensures DoubleValue(bits - 1) + DoubleValue(bits) < 2.0 * r < DoubleValue(bits) + DoubleValue(bits + 1)
    ensures RoundsTo(r, bits)
  {
    hide RealOf, Aligned, FromDouble, LowerBoundary, UpperBoundary, DoubleValue, RoundsTo;
    AlignedIsEqual(lower, LowerBoundary(FromDouble(bits)));
    AlignedIsEqual(upper, UpperBoundary(FromDouble(bits)));
    LowerIsMidpoint(bits);
    UpperIsMidpoint(bits);
    BetweenMidpointsRounds(r, bits);
  }

  lemma StoppedBetween(sl: nat, su: nat, e: int, v: nat, x: int)
    requires sl <= su && e <= 0 && Stopped(su, su - sl, Pow2(-e), v, x)
    ensures InUnits(sl, v, su, x, e)
  {
    hide Pow2, Scale, Unit, StopsAt, AllOpen;
    StopIsInInterval(su, su - sl, Pow2(-e), x);
  }

  // -------------------------------------------------------------- shortness

  /** The interval without 1/256 of its width at either end. */
  ghost predicate InCore(l: real, u: real, r: real) {
    256.0 * (r - l) >= u - l && 256.0 * (u - r) >= u - l
  }

  /** The bounds moved inwards are less than two units away from the true products. */
  lemma UpperIsNear(u: nat, c: nat, su: int, p: real, g: real)
    requires u < U64 && su == Rounded(u, c) - 1
    requires g > 0.0 && p <= (c as real + 0.5) * g
    ensures u as real * p <= su as real * (18446744073709551616.0 * g) + 2.0 * (18446744073709551616.0 * g)
  {
    assert (su * U64) as real >= (u * c) as real - 27670116110564327424.0;
    ToReal(u, c);
    NearAbove(u as real, c as real, (su * U64) as real, p, g);
    SwapFactors(su as real, 18446744073709551616.0, g);
  }

  lemma NearAbove(u: real, c: real, s: real, p: real, g: real)
    requires 0.0 <= u < 18446744073709551616.0 && g > 0.0 && p <= (c + 0.5) * g
    requires s >= u * c - 27670116110564327424.0
    ensures u * p <= s * g + 36893488147419103232.0 * g
  {
    LessOrZero(p, (c + 0.5) * g, u);
    var h := u * (c + 0.5);
    assert u * ((c + 0.5) * g) == h * g;
    assert h <= s + 36893488147419103232.0;
    LessProducts(h, s + 36893488147419103232.0, g);
  }

  lemma LowerIsNear(l: nat, c: nat, sl: int, p: real, g: real)
    requires l < U64 && sl == Rounded(l, c) + 1
    requires g > 0.0 && (c as real - 0.5) * g <= p
    ensures sl as real * (18446744073709551616.0 * g) <= l as real * p + 2.0 * (18446744073709551616.0 * g)
  {
    assert (sl * U64) as real <= (l * c) as real + 27670116110564327424.0;
    ToReal(l, c);
    NearBelow(l as real, c as real, (sl * U64) as real, p, g);
    SwapFactors(sl as real, 18446744073709551616.0, g);
  }

  lemma NearBelow(l: real, c: real, s: real, p: real, g: real)
    requires 0.0 <= l < 18446744073709551616.0 && g > 0.0 && (c - 0.5) * g <= p
    requires s <= l * c + 27670116110564327424.0
    ensures s * g <= l * p + 36893488147419103232.0 * g
  {
    LessOrZero((c - 0.5) * g, p, l);
    var h := l * (c - 0.5);
    assert l * ((c - 0.5) * g) == h * g;
    assert s <= h + 36893488147419103232.0;
    LessProducts(s, h + 36893488147419103232.0, g);
  }

  /** The whole interval is at least 767 units wide. */
  lemma IsWide(width: real, c: real, p: real, g: real)
    requires width >= 1536.0 && c >= 9223372036854775808.0 && g > 0.0 && (c - 0.5) * g <= p
    ensures width * p >= 767.0 * (18446744073709551616.0 * g)
  {
    LessProducts(9223372036854775807.5, c - 0.5, g);
    var q := 9223372036854775807.5 * g;
    assert 0.0 < q <= p;
    LessProducts(1536.0, width, p);
    assert 1536.0 * q >= 767.0 * (18446744073709551616.0 * g);
  }

  /** So what is in the core lies between the bounds moved inwards. */
  lemma CoreIsInside(l: real, u: real, d: real, p: real, unit: real, sl: real, su: real)
    requires unit > 0.0 && (u - l) * p >= 767.0 * unit
    requires u * p <= su * unit + 2.0 * unit && sl * unit <= l * p + 2.0 * unit
    requires 256.0 * (d - l * p) >= (u - l) * p && 256.0 * (u * p - d) >= (u - l) * p
    ensures sl * unit < d <= su * unit
  {
  }

  /** Multiplying by 10^k keeps the core. */
  lemma ScaledCore(l: real, u: real, w: real, t: real, x: real, y: real, r: real)
    requires t > 0.0 && x == l * w && y == u * w && InCore(x, y, r)
    ensures 256.0 * (r * t - l * (w * t)) >= (u - l) * (w * t) && 256.0 * (u * (w * t) - r * t) >= (u - l) * (w * t)
  {
    LessProducts(u * w - l * w, 256.0 * (r - l * w), t);
    LessProducts(u * w - l * w, 256.0 * (u * w - r), t);
    assert (u * w - l * w) * t == (u - l) * (w * t);
    assert 256.0 * (r - l * w) * t == 256.0 * (r * t - l * (w * t));
    assert 256.0 * (u * w - r) * t == 256.0 * (u * (w * t) - r * t);
  }

  /** What the three lemmas above say of the scaled boundaries, with a unit of 2^(e + 64). */
  lemma SidesAreNear(l: nat, u: nat, e: int, i: nat)
    requires i < COUNT && l < U64 && u < U64 && l + 1536 <= u
    ensures var c, s, p := Cached(i), Power(2.0, e + Cached(i).e + 64), Power(2.0, e) * Power(10.0, DecimalExponent(i));
      && u as real * p <= (Rounded(u, c.f) - 1) as real * s + 2.0 * s
      && (Rounded(l, c.f) + 1) as real * s <= l as real * p + 2.0 * s
      && (u as real - l as real) * p >= 767.0 * s
  {
    hide Power, Cached, DecimalExponent, Rounded;
    var c, w, t := Cached(i), Power(2.0, e), Power(10.0, DecimalExponent(i));
    var g := Power(2.0, e + c.e);
    CachedIsNormalized(i);
    WithinHalfUlp(i);
    PowerAdds(2.0, e, c.e);
    PowerBounds(c.f as real, Power(2.0, c.e), t, w, g);
    Power64(e + c.e);
    var p := w * t;
    assert (c.f as real - 0.5) * g <= p <= (c.f as real + 0.5) * g;
    NearSides(l, u, c.f, p, g, Power(2.0, e + c.e + 64));
  }

  lemma NearSides(l: nat, u: nat, c: nat, p: real, g: real, s: real)
    requires l < U64 && u < U64 && l + 1536 <= u && HALF64 <= c
    requires g > 0.0 && (c as real - 0.5) * g <= p <= (c as real + 0.5) * g && s == 18446744073709551616.0 * g
    ensures u as real * p <= (Rounded(u, c) - 1) as real * s + 2.0 * s
    ensures (Rounded(l, c) + 1) as real * s <= l as real * p + 2.0 * s
    ensures (u as real - l as real) * p >= 767.0 * s
  {
    hide Rounded;
    UpperIsNear(u, c, Rounded(u, c) - 1, p, g);
    LowerIsNear(l, c, Rounded(l, c) + 1, p, g);
    IsWide(u as real - l as real, c as real, p, g);
  }

  lemma CoreBetween(l: real, u: real, w: real, t: real, x: real, y: real, r: real, s: real, sl: real, su: real)
    requires t > 0.0 && s > 0.0 && x == l * w && y == u * w && InCore(x, y, r)
    requires u * (w * t) <= su * s + 2.0 * s && sl * s <= l * (w * t) + 2.0 * s && (u - l) * (w * t) >= 767.0 * s
    ensures sl * s < r * t <= su * s
  {
    ScaledCore(l, u, w, t, x, y, r);
    hide InCore;
    CoreIsInside(l, u, r * t, w * t, s, sl, su);
  }

  lemma CoreInUnits(l: nat, u: nat, e: int, i: nat, x: real, y: real, r: real)
    requires i < COUNT && l < U64 && u < U64 && l + 1536 <= u
    requires x == l as real * Power(2.0, e) && y == u as real * Power(2.0, e) && InCore(x, y, r)
    ensures var c, s, d := Cached(i), Power(2.0, e + Cached(i).e + 64), r * Power(10.0, DecimalExponent(i));
      (Rounded(l, c.f) + 1) as real * s < d <= (Rounded(u, c.f) - 1) as real * s
  {
    hide Power, Cached, DecimalExponent, Rounded;
    SidesAreNear(l, u, e, i);
    var c := Cached(i);
    CoreBetween(l as real, u as real, Power(2.0, e), Power(10.0, DecimalExponent(i)), x, y, r, Power(2.0, e + c.e + 64),
                (Rounded(l, c.f) + 1) as real, (Rounded(u, c.f) - 1) as real);
  }

  /** m * 10^j */
  ghost function DecimalValue(m: nat, j: int): real {
    m as real * Power(10.0, j)
  }

  lemma NotInside(sl: nat, su: nat, m: nat, one: nat, x: int)
    requires sl <= su && !Inside(m, su, su - sl, one, x)
    ensures !(sl * Scale(x) < m * Unit(x, one)) || !(m * Unit(x, one) <= su * Scale(x))
  {
    assert su - (su - sl) == sl;
  }

  /** The comparisons of the digit generation, in reals. */
  lemma OutsideInReals(sl: nat, su: nat, m: nat, x: int, e: int, d: real)
    requires e <= 0 && sl <= su && !Inside(m, su, su - sl, Pow2(-e), x) && d == DecimalValue(m, x)
    ensures !(sl as real * Power(2.0, e) < d <= su as real * Power(2.0, e))
  {
    hide Power, Pow2, Scale, Unit, Inside, DecimalValue;
    DecimalValueIs(m, x);
    NotInside(sl, su, m, Pow2(-e), x);
    Weigh(sl, m, x, e);
    Weigh(su, m, x, e);
  }

  lemma RealOfBoth(lower: Fp, upper: Fp)
    requires lower.e == upper.e
    ensures RealOf(lower) == lower.f as real * Power(2.0, upper.e) && RealOf(upper) == upper.f as real * Power(2.0, upper.e)
  {
  }

  /** A multiple of a larger power of ten that the generation passed by is not in the core of the rounding interval. */
  lemma CoarserIsOutside(lower: Fp, upper: Fp, i: nat, sl: nat, su: nat, m: nat, j: int)
    requires i < COUNT && lower.e == upper.e && lower.f + 1536 <= upper.f < U64
    requires sl == Rounded(lower.f, Cached(i).f) + 1 && su == Rounded(upper.f, Cached(i).f) - 1 && sl <= su
    requires upper.e + Cached(i).e + 64 <= 0
    requires !Inside(m, su, su - sl, Pow2(-(upper.e + Cached(i).e + 64)), j + DecimalExponent(i))
    ensures !InCore(RealOf(lower), RealOf(upper), DecimalValue(m, j))
  {
    hide Power, Pow2, Cached, DecimalExponent, Rounded, RealOf, Inside, InCore, DecimalValue;
    var e := upper.e + Cached(i).e + 64;
    var d := ScaledDecimal(m, j, DecimalExponent(i));
    OutsideInReals(sl, su, m, j + DecimalExponent(i), e, d);
    NotInCore(lower, upper, i, sl, su, DecimalValue(m, j), d);
  }

  lemma NotInCore(lower: Fp, upper: Fp, i: nat, sl: nat, su: nat, r: real, d: real)
    requires i < COUNT && lower.e == upper.e && lower.f + 1536 <= upper.f < U64
    requires sl == Rounded(lower.f, Cached(i).f) + 1 && su == Rounded(upper.f, Cached(i).f) - 1
    requires d == r * Power(10.0, DecimalExponent(i))
    requires var s := Power(2.0, upper.e + Cached(i).e + 64); !(sl as real * s < d <= su as real * s)
    ensures !InCore(RealOf(lower), RealOf(upper), r)
  {
    hide Power, Cached, DecimalExponent, Rounded, RealOf;
    RealOfBoth(lower, upper);
    if InCore(RealOf(lower), RealOf(upper), r) {
      CoreInUnits(lower.f, upper.f, upper.e, i, RealOf(lower), RealOf(upper), r);
    }
  }

  lemma DecimalValueIs(m: nat, j: int)
    ensures DecimalValue(m, j) == m as real * Power(10.0, j)
  {
  }

  lemma ScaledDecimal(m: nat, j: int, k: int) returns (d: real)
    ensures d == DecimalValue(m, j) * Power(10.0, k) && d == DecimalValue(m, j + k)
  {
    hide *;
    DecimalValueIs(m, j);
    DecimalValueIs(m, j + k);
    PowerAdds(10.0, j, k);
    TimesProduct(m as real, Power(10.0, j), Power(10.0, k), Power(10.0, j + k), DecimalValue(m, j));
    d := DecimalValue(m, j + k);
  }

  lemma TimesProduct(m: real, p: real, q: real, r: real, d: real)
    requires r == p * q && d == m * p
    ensures d * q == m * r
  {
  }

  /** No multiple of a larger power of ten than 10^decExp is in the core of the interval. */
  ghost predicate Shortest(l: real, u: real, decExp: int) {
    forall m: nat, j: int :: m > 0 && j > decExp ==> !InCore(l, u, DecimalValue(m, j))
  }

  lemma StoppedIsShortest(lower: Fp, upper: Fp, i: nat, sl: nat, su: nat, v: nat, decExp: int)
    requires i < COUNT && lower.e == upper.e && lower.f + 1536 <= upper.f < U64
    requires sl == Rounded(lower.f, Cached(i).f) + 1 && su == Rounded(upper.f, Cached(i).f) - 1 && sl <= su
    requires upper.e + Cached(i).e + 64 <= 0
    requires Stopped(su, su - sl, Pow2(-(upper.e + Cached(i).e + 64)), v, decExp + DecimalExponent(i))
    ensures Shortest(RealOf(lower), RealOf(upper), decExp)
  {
    hide Pow2, Cached, DecimalExponent, Rounded, RealOf, InCore, DecimalValue, Stopped, Inside;
    var one := Pow2(-(upper.e + Cached(i).e + 64));
    DigitsAreShortest(su, su - sl, one, v, decExp + DecimalExponent(i));
    forall m: nat, j: int | m > 0 && j > decExp ensures !InCore(RealOf(lower), RealOf(upper), DecimalValue(m, j)) {
      assert !Inside(m, su, su - sl, one, j + DecimalExponent(i));
      CoarserIsOutside(lower, upper, i, sl, su, m, j);
    }
  }

  lemma PositiveDigits(v: nat, l: real, p: real, u: real)
    requires 0.0 <= l < v as real * p < u
    ensures v > 0
  {
  }

  lemma RealOfIsPositive(x: Fp)
    ensures RealOf(x) >= 0.0
  {
    assert x.f as real >= 0.0 && Power(2.0, x.e) > 0.0;
  }

  method FormatPositive(bits: nat, buffer: array<char>) returns (size: nat, decExp: int, ghost v: nat)
    requires 0 < bits < INFINITY_BITS && 29 <= buffer.Length
    modifies buffer
    ensures v > 0 && AreDigits(Digits(v)) && size <= 29 && buffer[..size] == Text(Digits(v))
    ensures var r := v as real * Power(10.0, decExp);
      && DoubleValue(bits - 1) + DoubleValue(bits) < 2.0 * r < DoubleValue(bits) + DoubleValue(bits + 1)
      && RoundsTo(r, bits)
    ensures FromDouble(bits).f > 0
    ensures Shortest(RealOf(LowerBoundary(FromDouble(bits))), RealOf(UpperBoundary(FromDouble(bits))), decExp)
  {
    hide Power, Pow2, Shortest, FromDouble, LowerBoundary, UpperBoundary, Aligned, RealOf, DoubleValue, RoundsTo, Cached, CachedIndex,
         GetCachedPower, Mul, Rounded, Stopped, InUnits, Shown, Digits, Text, AreDigits;
    NextSignificand(bits);
    var value := FromDouble(bits);
    var lower, upper := ComputeBoundaries(value);
    var minExponent := -60 - (upper.e + SIGNIFICAND_SIZE);
    ghost var i := CachedIndex(minExponent);
    CachedPowerInRange(minExponent);
    var (decPow, pow10Exponent) := GetCachedPower(minExponent);
    decExp := -pow10Exponent;
    BoundaryBits();
    DoublePower(53);
    value := Normalize(value, 0);
    var scaledValue := Mul(value, decPow);
    MulIsRounded(lower, decPow);
    MulIsRounded(upper, decPow);
    ScaledGap(lower.f, upper.f, decPow.f);
    var scaledLower, scaledUpper := Mul(lower, decPow), Mul(upper, decPow);
    scaledLower := Fp(scaledLower.f + 1, scaledLower.e);
    scaledUpper := Fp(scaledUpper.f - 1, scaledUpper.e);
    var delta := scaledUpper.f - scaledLower.f;
    size, decExp, v := GenDigits(scaledValue, scaledUpper, delta, buffer, decExp);
    StoppedBetween(scaledLower.f, scaledUpper.f, scaledUpper.e, v, decExp + pow10Exponent);
    DecimalBetween(lower, upper, i, v, decExp + pow10Exponent);
    RealOfIsPositive(lower);
    PositiveDigits(v, RealOf(lower), Power(10.0, decExp), RealOf(upper));
    BetweenBoundariesRounds(bits, lower, upper, v as real * Power(10.0, decExp));
    StoppedIsShortest(lower, upper, i, scaledLower.f, scaledUpper.f, v, decExp);
    AlignedIsEqual(lower, LowerBoundary(FromDouble(bits)));
    AlignedIsEqual(upper, UpperBoundary(FromDouble(bits)));
    ShownDigits(v);
  }

  lemma ShownDigits(v: nat)
    requires v > 0
    ensures AreDigits(Digits(v)) && Shown(v) == Text(Digits(v))
  {
  }

  lemma MulIsRounded(x: Fp, y: Fp)
    requires x.f < U64 && y.f < U64
    ensures Mul(x, y) == Fp(Rounded(x.f, y.f), x.e + y.e + 64)
  {
    hide Mul;
    MulRounds(x, y);
  }
}
