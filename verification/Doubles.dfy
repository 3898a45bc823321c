/** The real values of doubles, their neighbours, and the boundaries half way between them. */
module Doubles {
  import opened FloatingPoint
  import opened Decimal
  import opened RealPowers

  const INFINITY_BITS: nat := 2047 * IMPLICIT_BIT

  ghost function RealOf(x: Fp): real {
    x.f as real * Power(2.0, x.e)
  }

  ghost function DoubleValue(bits: nat): real {
    RealOf(FromDouble(bits))
  }

  lemma ShiftPower(e: int, s: nat)
    ensures Power(2.0, e + s) == Power(2.0, e) * Pow2(s) as real
  {
    hide Power, Pow2;
    PowerAdds(2.0, e, s);
    PowerOfTwo(s);
  }

  lemma AlignedIsEqual(x: Fp, y: Fp)
    requires Aligned(x, y)
    ensures RealOf(x) == RealOf(y)
  {
    hide Power, Pow2;
    var s := y.e - x.e;
    assert x.e + s == y.e;
    assert x.f == y.f * Pow2(s);
    hide RealOf, Aligned;
    ShiftPower(x.e, s);
    MoveFactor(x.f, y.f, Pow2(s), Power(2.0, x.e), Power(2.0, y.e));
    assert RealOf(x) == RealOf(y) by { RealOfIs(x); RealOfIs(y); }
  }

  lemma RealOfIs(x: Fp)
    ensures RealOf(x) == x.f as real * Power(2.0, x.e)
  {
  }

  lemma MoveFactor(f: nat, g: nat, s: nat, p: real, q: real)
    requires f == g * s && q == p * s as real
    ensures f as real * p == g as real * q
  {
    ToReal(g, s);
    Regroup(g as real, s as real, f as real, p);
  }

  lemma ToReal(a: int, b: int)
    ensures (a * b) as real == a as real * b as real
  {
  }

  lemma Distribute(f: real, g: real, p: real)
    ensures (f + g) * p == f * p + g * p
  {
  }

  /** The value of a finite binary64 datum by section 3.4 of IEEE 754-2008. */
  ghost function Binary64(bits: nat): real {
    var biased, fraction := bits / IMPLICIT_BIT, (bits % IMPLICIT_BIT) as real / IMPLICIT_BIT as real;
    if biased == 0 then Power(2.0, -1022) * fraction
    else Power(2.0, biased - 1023) * (1.0 + fraction)
  }

  lemma Power52(e: int)
    ensures Power(2.0, e + 52) == Power(2.0, e) * IMPLICIT_BIT as real
  {
    hide Power, Pow2;
    ShiftPower(e, 52);
    CountDigits.LargePowersOfTwo();
    DoublePower(52);
  }

  lemma ScaledFraction(p: real, q: real, t: real, b: real)
    requires b > 0.0 && q == p * b
    ensures q * (t / b) == t * p && q * (1.0 + t / b) == (t + b) * p
  {
    assert b * (t / b) == t;
    assert q * (t / b) == p * (b * (t / b));
  }

  lemma FromDoubleIsBinary64(bits: nat)
    requires bits < INFINITY_BITS
    ensures DoubleValue(bits) == Binary64(bits)
  {
    var x := FromDouble(bits);
    Power52(x.e);
    hide Power;
    var t, b := (bits % IMPLICIT_BIT) as real, IMPLICIT_BIT as real;
    ScaledFraction(Power(2.0, x.e), Power(2.0, x.e + 52), t, b);
  }

  lemma NextSignificand(bits: nat)
    requires bits < INFINITY_BITS
    ensures var x, y := FromDouble(bits), FromDouble(bits + 1);
      || y == Fp(x.f + 1, x.e)
      || (x.f + 1 == 2 * IMPLICIT_BIT && y == Fp(IMPLICIT_BIT, x.e + 1))
    ensures FromDouble(bits).f < 2 * IMPLICIT_BIT
    ensures -1074 <= FromDouble(bits).e <= 971
    ensures FromDouble(bits).f == 0 <==> bits == 0
  {
  }

  lemma NextFp(x: Fp, y: Fp)
    requires y == Fp(x.f + 1, x.e) || (x.f + 1 == 2 * IMPLICIT_BIT && y == Fp(IMPLICIT_BIT, x.e + 1))
    ensures RealOf(y) == RealOf(x) + Power(2.0, x.e)
  {
    PowerUp(2.0, x.e);
    hide Power;
    Distribute(x.f as real, 1.0, Power(2.0, x.e));
  }

  /** The gap above a double is one unit in its last place, also across a change of exponent. */
  lemma NextDouble(bits: nat)
    requires bits < INFINITY_BITS
    ensures DoubleValue(bits + 1) == DoubleValue(bits) + Power(2.0, FromDouble(bits).e)
  {
    NextSignificand(bits);
    hide RealOf, Power, FromDouble;
    NextFp(FromDouble(bits), FromDouble(bits + 1));
  }

  lemma {:induction false} DoublesIncrease(a: nat, b: nat)
    requires a < b <= INFINITY_BITS
    ensures DoubleValue(a) < DoubleValue(b)
  {
    NextDouble(b - 1);
    hide DoubleValue, Power;
    if a < b - 1 {
      DoublesIncrease(a, b - 1);
    }
  }

  /** Two times (m * f + d) * 2^(e - 1) or four times with 2^(e - 2), in units of 2^e. */
  lemma HalfStep(f: nat, d: int, p: real, q: real)
    requires q == p * 2.0
    ensures 2.0 * ((2 * f + d) as real * p) == 2.0 * (f as real * q) + d as real * q
  {
  }

  lemma BoundaryValues(x: Fp)
    requires x.f > 0
    ensures 2.0 * RealOf(UpperBoundary(x)) == 2.0 * RealOf(x) + Power(2.0, x.e)
    ensures x.f != IMPLICIT_BIT ==> 2.0 * RealOf(LowerBoundary(x)) == 2.0 * RealOf(x) - Power(2.0, x.e)
    ensures x.f == IMPLICIT_BIT ==> 2.0 * RealOf(LowerBoundary(x)) == 2.0 * RealOf(x) - Power(2.0, x.e - 1)
  {
    PowerUp(2.0, x.e - 1);
    PowerUp(2.0, x.e - 2);
    hide Power;
    HalfStep(x.f, 1, Power(2.0, x.e - 1), Power(2.0, x.e));
    HalfStep(x.f, -1, Power(2.0, x.e - 1), Power(2.0, x.e));
    HalfStep(2 * x.f, -1, Power(2.0, x.e - 2), Power(2.0, x.e - 1));
  }

  /** The upper boundary is half way to the next double. */
  lemma UpperIsMidpoint(bits: nat)
    requires 0 < bits < INFINITY_BITS
    ensures 2.0 * RealOf(UpperBoundary(FromDouble(bits))) == DoubleValue(bits) + DoubleValue(bits + 1)
  {
    NextDouble(bits);
    NextSignificand(bits);
    hide RealOf, Power, FromDouble;
    BoundaryValues(FromDouble(bits));
  }

  lemma PreviousExponent(bits: nat)
    requires 0 < bits < INFINITY_BITS
    ensures var x, y := FromDouble(bits - 1), FromDouble(bits);
      x.e == if y.f == IMPLICIT_BIT && bits != IMPLICIT_BIT then y.e - 1 else y.e
    ensures bits == IMPLICIT_BIT ==> FromDouble(bits).f == IMPLICIT_BIT
  {
  }

  /** The lower boundary is half way to the previous double, except for the smallest normal double, where it is above. */
  lemma LowerIsMidpoint(bits: nat)
    requires 0 < bits < INFINITY_BITS
    ensures DoubleValue(bits - 1) + DoubleValue(bits) <= 2.0 * RealOf(LowerBoundary(FromDouble(bits))) < 2.0 * DoubleValue(bits)
    ensures 2.0 * RealOf(LowerBoundary(FromDouble(bits))) == DoubleValue(bits - 1) + DoubleValue(bits) <==> bits != IMPLICIT_BIT
  {
    var x := FromDouble(bits);
    NextDouble(bits - 1);
    NextSignificand(bits);
    PreviousExponent(bits);
    PowerUp(2.0, x.e - 1);
    hide RealOf, Power, FromDouble;
    BoundaryValues(x);
  }

  ghost function Distance(a: real, b: real): real {
    if a < b then b - a else a - b
  }

  /** bits is the one finite nonnegative double nearest to r, so that reading r yields it again. */
  ghost predicate RoundsTo(r: real, bits: nat) {
    forall w: nat :: w < INFINITY_BITS && w != bits ==> Distance(r, DoubleValue(bits)) < Distance(r, DoubleValue(w))
  }

  lemma BetweenMidpointsRounds(r: real, bits: nat)
    requires 0 < bits < INFINITY_BITS
    requires DoubleValue(bits - 1) + DoubleValue(bits) < 2.0 * r < DoubleValue(bits) + DoubleValue(bits + 1)
    ensures RoundsTo(r, bits)
  {
    hide DoubleValue;
    DoublesIncrease(bits - 1, bits);
    DoublesIncrease(bits, bits + 1);
    forall w: nat | w < INFINITY_BITS && w != bits
      ensures Distance(r, DoubleValue(bits)) < Distance(r, DoubleValue(w))
    {
      if w < bits - 1 {
        DoublesIncrease(w, bits - 1);
      } else if w > bits + 1 {
        DoublesIncrease(bits + 1, w);
      }
    }
  }
}
