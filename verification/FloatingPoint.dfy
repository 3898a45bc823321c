/** fp: the handmade floating-point numbers f * 2^e of the Grisu algorithm. */
module FloatingPoint {
  import opened Arithmetic
  import opened Decimal
  import opened CountDigits

  const HALF64: nat := 0x8000_0000_0000_0000

  const SIGNIFICAND_SIZE: nat := 64
  const DOUBLE_SIGNIFICAND_SIZE: nat := 52
  const IMPLICIT_BIT: nat := 0x10_0000_0000_0000
  const EXPONENT_BIAS: nat := 1023

  datatype Fp = Fp(f: nat, e: int)

  /** The product of 32-bit parts of the significands. */
  function Mul(x: Fp, y: Fp): Fp {
    var a, b, c, d := x.f / W, x.f % W, y.f / W, y.f % W;
    var mid := b * d / W + a * d % W + b * c % W + 0x8000_0000;
    Fp(a * c + a * d / W + b * c / W + mid / W, x.e + y.e + 64)
  }

  lemma ProductOfParts(a: nat, b: nat, c: nat, d: nat)
    ensures (a * W + b) * (c * W + d) == W * W * (a * c) + W * (a * d) + W * (b * c) + b * d
  {
    assert (a * W + b) * (c * W + d) == a * W * (c * W + d) + b * (c * W + d);
    assert a * W * (c * W + d) == W * W * (a * c) + W * (a * d);
    assert b * (c * W + d) == W * (b * c) + b * d;
  }

  lemma PartsBelow(a: nat, b: nat)
    requires a < W && b < W
    ensures a * b <= (W - 1) * (W - 1)
  {
    OrderedProducts(a, W - 1, b);
  }

  /** Carrying the four partial products is rounding the whole product to nearest, half up. */
  lemma CarriedParts(ac: nat, ad: nat, bc: nat, bd: nat)
    ensures var mid := bd / W + ad % W + bc % W + 0x8000_0000;
      ac + ad / W + bc / W + mid / W == (W * W * ac + W * ad + W * bc + bd + HALF64) / U64
  {
  }

  /** operator*: the rounded high half of the 128-bit product, without overflow of any 64-bit step. */
  lemma MulRounds(x: Fp, y: Fp)
    requires x.f < U64 && y.f < U64
    ensures Mul(x, y).f == (x.f * y.f + HALF64) / U64 < U64
    ensures Mul(x, y).e == x.e + y.e + 64
    ensures (x.f / W) * (y.f / W) < U64 && (x.f / W) * (y.f % W) < U64
    ensures (x.f % W) * (y.f / W) < U64 && (x.f % W) * (y.f % W) < U64
    ensures (x.f % W) * (y.f % W) / W + (x.f / W) * (y.f % W) % W + (x.f % W) * (y.f / W) % W + 0x8000_0000 < U64
  {
    var a, b, c, d := x.f / W, x.f % W, y.f / W, y.f % W;
    PartsBelow(a, c);
    PartsBelow(a, d);
    PartsBelow(b, c);
    PartsBelow(b, d);
    ProductOfParts(a, b, c, d);
    CarriedParts(a * c, a * d, b * c, b * d);
    assert x.f == a * W + b && y.f == c * W + d;
  }

  /** (f & (1 << n)) != 0 */
  predicate BitSet(f: nat, n: nat) {
    f / Pow2(n) % 2 == 1
  }

  lemma TopBit(f: nat, n: nat)
    requires f < Pow2(n + 1)
    ensures BitSet(f, n) <==> Pow2(n) <= f
  {
    DoublePower(n);
    hide Pow2;
    var p := Pow2(n);
    if p <= f {
      QuotientIs(f, p, 1, f - p);
    } else {
      QuotientIs(f, p, 0, f);
    }
  }

  /** Shifts the significand left until its top bit is bit 63; does not stop for zero. */
  method Normalize(x: Fp, shift: nat) returns (r: Fp)
    requires shift <= 11 && 0 < x.f < Pow2(DOUBLE_SIGNIFICAND_SIZE + shift + 1)
    ensures HALF64 <= r.f < U64
    ensures r.e + 11 - shift <= x.e && r.f == x.f * Pow2(x.e - r.e)
  {
    hide Pow2, BitSet;
    var n := DOUBLE_SIGNIFICAND_SIZE + shift;
    r := x;
    assert x.f * Pow2(0) == x.f by { PowerOfZero(); }
    TopBit(r.f, n);
    while !BitSet(r.f, n)
      invariant 0 < r.f < Pow2(n + 1) && r.e <= x.e && r.f == x.f * Pow2(x.e - r.e)
      invariant BitSet(r.f, n) <==> Pow2(n) <= r.f
      decreases Pow2(n + 1) - r.f
    {
      ShiftMore(x.f, x.e - r.e, 1);
      DoublePower(n);
      r := Fp(2 * r.f, r.e - 1);
      TopBit(r.f, n);
    }
    var offset := SIGNIFICAND_SIZE - DOUBLE_SIGNIFICAND_SIZE - shift - 1;
    ShiftMore(x.f, x.e - r.e, offset);
    TopShift(r.f, n, offset);
    r := Fp(r.f * Pow2(offset), r.e - offset);
  }

  lemma PowerOfZero()
    ensures Pow2(0) == 1 && Pow2(1) == 2
  {
  }

  lemma DoublePower(n: nat)
    ensures Pow2(n + 1) == 2 * Pow2(n)
  {
  }

  lemma ShiftMore(f: nat, s: nat, more: nat)
    ensures f * Pow2(s + more) == f * Pow2(s) * Pow2(more) && Pow2(1) == 2
  {
    Pow2Adds(s, more);
  }

  lemma TopShift(f: nat, n: nat, offset: nat)
    requires n + offset == 63 && Pow2(n) <= f < Pow2(n + 1)
    ensures HALF64 <= f * Pow2(offset) < U64
  {
    LargePowersOfTwo();
    Pow2Adds(n, offset);
    Pow2Adds(n + 1, offset);
    hide Pow2;
    OrderedProducts(Pow2(n), f, Pow2(offset));
    OrderedProducts(f + 1, Pow2(n + 1), Pow2(offset));
    assert (f + 1) * Pow2(offset) == f * Pow2(offset) + Pow2(offset);
  }

  /** The double whose 64-bit representation is bits, as the constructor of fp takes it apart. */
  function FromDouble(bits: nat): Fp {
    var significand, biased := bits % IMPLICIT_BIT, bits / IMPLICIT_BIT % 2048;
    if biased != 0 then Fp(significand + IMPLICIT_BIT, biased - EXPONENT_BIAS - DOUBLE_SIGNIFICAND_SIZE)
    else Fp(significand, 1 - EXPONENT_BIAS - DOUBLE_SIGNIFICAND_SIZE)
  }

  /** The significand and exponent of the lower boundary before it is aligned with the upper one. */
  function LowerBoundary(x: Fp): Fp
    requires x.f > 0
  {
    if x.f == IMPLICIT_BIT then Fp(4 * x.f - 1, x.e - 2) else Fp(2 * x.f - 1, x.e - 1)
  }

  function UpperBoundary(x: Fp): Fp {
    Fp(2 * x.f + 1, x.e - 1)
  }

  /** x is y, only with a smaller exponent. */
  predicate Aligned(x: Fp, y: Fp) {
    x.e <= y.e && x.f == y.f * Pow2(y.e - x.e)
  }

  /** compute_boundaries: the boundaries with one exponent, the upper one normalized. */
  method ComputeBoundaries(x: Fp) returns (lower: Fp, upper: Fp)
    requires 0 < x.f < 2 * IMPLICIT_BIT
    ensures Aligned(lower, LowerBoundary(x)) && Aligned(upper, UpperBoundary(x))
    ensures lower.e == upper.e && x.e - 63 <= upper.e <= x.e - 11
    ensures 0 < lower.f && lower.f + 1536 <= upper.f && HALF64 <= upper.f < U64
  {
    BoundaryBits();
    hide Pow2;
    lower := if x.f == IMPLICIT_BIT then Fp(4 * x.f - 1, x.e - 2) else Fp(2 * x.f - 1, x.e - 1);
    upper := Normalize(Fp(2 * x.f + 1, x.e - 1), 1);
    BoundaryGap(x, x.e - 1 - upper.e);
    lower := Fp(lower.f * Pow2(lower.e - upper.e), upper.e);
  }

  lemma BoundaryBits()
    ensures Pow2(DOUBLE_SIGNIFICAND_SIZE + 2) == 4 * IMPLICIT_BIT
  {
    LargePowersOfTwo();
    DoublePower(53);
  }

  lemma BoundaryProducts(f: nat, p: nat)
    requires f > 0 && p >= 512
    ensures 0 < (2 * f - 1) * (2 * p) && (2 * f - 1) * (2 * p) + 1536 <= (2 * f + 1) * (2 * p)
    ensures 0 < (4 * f - 1) * p && (4 * f - 1) * p + 1536 <= (2 * f + 1) * (2 * p)
  {
    OrderedProducts(1, f, p);
    assert (2 * f + 1) * (2 * p) == 4 * (f * p) + 2 * p;
    assert (2 * f - 1) * (2 * p) == 4 * (f * p) - 2 * p;
    assert (4 * f - 1) * p == 4 * (f * p) - p;
  }

  lemma SmallShift(f: nat, s: nat)
    requires 0 < f && (2 * f + 1) * Pow2(s) < U64
    ensures s <= 62
  {
    if s > 62 {
      Pow2Grows(63, s);
      LargePowersOfTwo();
      hide Pow2;
      OrderedProducts(3, 2 * f + 1, Pow2(s));
    }
  }

  lemma BoundaryGap(x: Fp, s: nat)
    requires 0 < x.f && s >= 10 && (2 * x.f + 1) * Pow2(s) < U64
    ensures s <= 62
    ensures 0 < (2 * x.f - 1) * Pow2(s) && (2 * x.f - 1) * Pow2(s) + 1536 <= (2 * x.f + 1) * Pow2(s)
    ensures 0 < (4 * x.f - 1) * Pow2(s - 1) && (4 * x.f - 1) * Pow2(s - 1) + 1536 <= (2 * x.f + 1) * Pow2(s)
  {
    SmallShift(x.f, s);
    Pow2Grows(9, s - 1);
    SmallPowersOfTwo();
    DoublePower(s - 1);
    hide Pow2;
    BoundaryProducts(x.f, Pow2(s - 1));
  }
}
