/** Random: the Lehmer generator, its fast reduction modulo 2^31 - 1, and its full period. */
module Lehmer {
  import opened Arithmetic
  import opened Modular
  import opened LehmerPowers

  const A: nat := 16807
  const TWO_TO_31: nat := 0x8000_0000

  /** s & M, or 1 in place of zero. */
  function GoodSeed(s: nat): nat {
    if s % TWO_TO_31 != 0 then s % TWO_TO_31 else 1
  }

  /** One product, one shift, one mask and at most one subtraction. */
  function NextSeed(seed: nat): nat {
    var product := seed * A;
    var next := product / TWO_TO_31 + product % TWO_TO_31;
    if next > M then next - M else next
  }

  /** The reduction is exact except that it leaves M, which stands for zero, as it is. */
  lemma NextIsProduct(seed: nat)
    requires 1 <= seed <= M
    ensures NextSeed(seed) <= M && NextSeed(seed) % M == seed * A % M
    ensures seed * A / TWO_TO_31 + seed * A % TWO_TO_31 < 0x1_0000_0000
    ensures NextSeed(seed) > 0
  {
    var product := seed * A;
    var hi, lo := product / TWO_TO_31, product % TWO_TO_31;
    assert product == M * hi + (hi + lo);
    Multiple(hi, hi + lo);
    if hi + lo > M {
      Multiple(1, hi + lo - M);
    }
  }

  /** The multiplier has an inverse, so that no product is a multiple of M. */
  const INVERSE: nat := 1407677000

  lemma InverseOfA(x: nat)
    ensures x * A % M * INVERSE % M == x % M
    ensures x * INVERSE % M * A % M == x % M
  {
    ModMul(x * A, INVERSE);
    ModMul(x * INVERSE, A);
    Multiple(x * 11017, x);
    assert x * A * INVERSE == M * (x * 11017) + x;
    assert x * INVERSE * A == M * (x * 11017) + x;
  }

  ghost predicate InRange(seed: nat) {
    1 <= seed < M
  }

  /** On the seeds from 1 to M - 1 the generator multiplies modulo M, and stays among them. */
  lemma NextStaysInRange(seed: nat)
    requires InRange(seed)
    ensures InRange(NextSeed(seed)) && NextSeed(seed) == seed * A % M
  {
    NextIsProduct(seed);
    InverseOfA(seed);
    hide NextSeed;
    assert seed % M == seed;
  }

  function PreviousSeed(seed: nat): nat {
    seed * INVERSE % M
  }

  /** The generator permutes the seeds from 1 to M - 1. */
  lemma NextIsBijection(seed: nat)
    requires InRange(seed)
    ensures InRange(PreviousSeed(seed)) && NextSeed(PreviousSeed(seed)) == seed
    ensures PreviousSeed(NextSeed(seed)) == seed
  {
    NextStaysInRange(seed);
    InverseOfA(seed);
    hide NextSeed;
    assert seed % M == seed;
    NextStaysInRange(PreviousSeed(seed));
  }

  /** A seed from 1 to M is taken as it is, zero becomes one, and bit 31 and those above it do not matter. */
  lemma GoodSeedKeeps(s: nat)
    ensures 1 <= s <= M ==> GoodSeed(s) == s
    ensures GoodSeed(0) == 1
    ensures GoodSeed(s + TWO_TO_31) == GoodSeed(s)
  {
    assert (s + 0x8000_0000) % 0x8000_0000 == s % 0x8000_0000;
  }

  /** GoodSeed avoids the fixed point M exactly when the lower 31 bits of the seed are not all set. */
  lemma GoodSeedInRange(s: nat)
    ensures 1 <= GoodSeed(s) <= M
    ensures InRange(GoodSeed(s)) <==> s % TWO_TO_31 != M
    ensures NextSeed(M) == M
  {
  }

  /** The state after n calls of Next. */
  function Steps(seed: nat, n: nat): nat {
    if n == 0 then seed else NextSeed(Steps(seed, n - 1))
  }

  lemma {:induction false} StepsArePowers(seed: nat, n: nat)
    requires InRange(seed)
    ensures InRange(Steps(seed, n)) && Steps(seed, n) == seed * Pow(A, n) % M
  {
    hide NextSeed;
    if n > 0 {
      StepsArePowers(seed, n - 1);
      NextStaysInRange(Steps(seed, n - 1));
      PowStep(seed, n - 1);
    }
  }

  lemma PowStep(seed: nat, n: nat)
    ensures seed * Pow(A, n) % M * A % M == seed * Pow(A, n + 1) % M
  {
    var p := Pow(A, n);
    PowNext(A, n);
    hide Pow;
    ModMul(seed * p, A);
    ModMul(seed, A * p);
    assert seed * p * A == seed * (A * p);
  }

  const PERIOD: nat := M - 1

  const PRIMES: seq<nat> := [2, 3, 3, 7, 11, 31, 151, 331]

  lemma PeriodIsProduct()
    ensures Product(PRIMES) == PERIOD
  {
    assert PRIMES[1..] == [3, 3, 7, 11, 31, 151, 331];
    assert PRIMES[1..][1..] == [3, 7, 11, 31, 151, 331];
    assert PRIMES[1..][1..][1..] == [7, 11, 31, 151, 331];
    assert PRIMES[1..][1..][1..][1..] == [11, 31, 151, 331];
    assert PRIMES[1..][1..][1..][1..][1..] == [31, 151, 331];
    assert Product([31, 151, 331]) == 1549411 by {
      assert [31, 151, 331][1..] == [151, 331] && [151, 331][1..] == [331] && [331][1..] == [];
    }
  }

  lemma PrimesArePrime(i: nat)
    requires i < |PRIMES|
    ensures IsPrime(PRIMES[i]) && PRIMES[i] in {2, 3, 7, 11, 31, 151, 331}
  {
    SmallPrime(PRIMES[i]);
  }

  lemma TowerOf(x: nat, a: nat, y: nat, n: nat, z: nat)
    requires Pow(x, a) == y && Pow(y, n) == z
    ensures Pow(x, a * n) == z
  {
    hide Pow;
    PowTower(x, a, n);
  }

  /** The power with the whole period is one, and those with a prime taken out of it are not. */
  lemma PowersAtQuotients()
    ensures Pow(A, PERIOD) == 1
    ensures Pow(A, PERIOD / 2) != 1 && Pow(A, PERIOD / 3) != 1 && Pow(A, PERIOD / 7) != 1 && Pow(A, PERIOD / 11) != 1
    ensures Pow(A, PERIOD / 31) != 1 && Pow(A, PERIOD / 151) != 1 && Pow(A, PERIOD / 331) != 1
  {
    hide Pow;
    PowerOf1549411();
    PowerOf77();
    TowerOf(A, 1549411, 942143378, 77, 1074490442);
    PowerOf9();
    TowerOf(A, 1549411 * 77, 1074490442, 9, 2147483646);
    PowerOf2();
    TowerOf(A, 1549411 * 77 * 9, 2147483646, 2, 1);
    PowerOf6();
    TowerOf(A, 1549411 * 77, 1074490442, 6, 634005911);
    PowerOf18();
    TowerOf(A, 1549411, 942143378, 18, 1166146077);
    PowerOf11();
    TowerOf(A, 1549411 * 18, 1166146077, 11, 1600955193);
    PowerOf7();
    TowerOf(A, 1549411 * 18, 1166146077, 7, 298192073);
    PowerOf1386();
    PowerOf49981();
    TowerOf(A, 1386, 1179617774, 49981, 16384);
    PowerOf31();
    TowerOf(A, 1386, 1179617774, 31, 1730649443);
    PowerOf331();
    TowerOf(A, 1386 * 31, 1730649443, 331, 1013763951);
    PowerOf151();
    TowerOf(A, 1386 * 31, 1730649443, 151, 759513457);
  }

  /** A divisor of the period at which the power is one leaves no prime of the period over. */
  lemma QuotientPower(g: nat, q: nat, t: nat)
    requires q > 0 && PERIOD == g * q * t && Pow(A, g) == 1
    ensures Pow(A, PERIOD / q) == 1
  {
    hide Pow;
    assert g * q * t == g * t * q;
    QuotientIs(PERIOD, q, g * t, 0);
    PowTower(A, g, t);
    PowOfOne(t);
  }

  lemma ProperDivisor(g: nat, j: nat) returns (k: nat)
    requires 0 < j < PERIOD && Divides(g, PERIOD) && Divides(g, j)
    ensures k > 1 && PERIOD == g * k
  {
    var i: int :| PERIOD == g * i;
    var t: int :| j == g * t;
    Cofactor(PERIOD, g, i);
    Cofactor(j, g, t);
    k := i;
  }

  lemma PrimeOfCofactor(g: nat, k: nat) returns (q: nat, t: nat)
    requires k > 1 && PERIOD == g * k
    ensures q in {2, 3, 7, 11, 31, 151, 331} && PERIOD == g * q * t
  {
    hide IsPrime, Product;
    forall i | 0 <= i < |PRIMES|
      ensures IsPrime(PRIMES[i])
    {
      PrimesArePrime(i);
    }
    PeriodIsProduct();
    assert g * k == k * g;
    DividesBy(k, g);
    var i := PrimeFactor(k, PRIMES);
    PrimesArePrime(i);
    q := PRIMES[i];
    var c: int :| k == q * c;
    Cofactor(k, q, c);
    t := c;
    assert g * (q * t) == g * q * t;
  }

  /** 16807 has order M - 1: no smaller power of it is one. */
  lemma NoEarlierOne(j: nat)
    requires 0 < j < PERIOD
    ensures Pow(A, j) != 1
  {
    hide Pow, Gcd, Divides;
    PowersAtQuotients();
    if Pow(A, j) == 1 {
      var g := Gcd(PERIOD, j);
      PowGcd(A, PERIOD, j);
      GcdDivides(PERIOD, j);
      var k := ProperDivisor(g, j);
      var q, t := PrimeOfCofactor(g, k);
      QuotientPower(g, q, t);
    }
  }

  lemma {:induction false} DistinctImage(f: nat -> nat, n: nat) returns (image: set<nat>)
    requires forall i, j :: 0 <= i < j < n ==> f(i) != f(j)
    ensures |image| == n && forall y :: y in image <==> exists i: nat :: i < n && f(i) == y
  {
    if n == 0 {
      image := {};
    } else {
      var less := DistinctImage(f, n - 1);
      image := less + {f(n - 1)};
      forall y | y in image
        ensures exists i: nat :: i < n && f(i) == y
      {
        if y !in less {
          assert n - 1 < n && f(n - 1) == y;
        }
      }
    }
  }

  lemma {:induction false} RangeSize(n: nat) returns (range: set<nat>)
    ensures |range| == n && forall y :: y in range <==> 1 <= y <= n
  {
    if n == 0 {
      range := {};
    } else {
      range := RangeSize(n - 1);
      range := range + {n};
    }
  }

  lemma SubsetOfSameSize(a: set<nat>, b: set<nat>)
    requires a <= b && |a| == |b|
    ensures a == b
  {
    assert b == a + (b - a);
    assert |b - a| == 0;
  }

  /** As many distinct values as there are numbers in the range take every number of the range. */
  lemma Pigeonhole(f: nat -> nat, n: nat, y: nat) returns (i: nat)
    requires forall i: nat :: i < n ==> 1 <= f(i) <= n
    requires forall i, j :: 0 <= i < j < n ==> f(i) != f(j)
    requires 1 <= y <= n
    ensures i < n && f(i) == y
  {
    var image := DistinctImage(f, n);
    var range := RangeSize(n);
    assert image <= range;
    SubsetOfSameSize(image, range);
    assert y in image;
    i :| i < n && f(i) == y;
  }

  lemma CancelPower(x: nat, k: nat, i: nat)
    requires x * Pow(A, i) % M == k * Pow(A, i) % M
    ensures x % M == k % M
    decreases i
  {
    if i > 0 {
      PowStep(x, i - 1);
      PowStep(k, i - 1);
      hide Pow;
      InverseOfA(x * Pow(A, i - 1));
      InverseOfA(k * Pow(A, i - 1));
      var p, q := x * Pow(A, i - 1), k * Pow(A, i - 1);
      ModMul(p, A);
      ModMul(q, A);
      CancelPower(x, k, i - 1);
    }
  }

  lemma DistinctPowers(i: nat, j: nat)
    requires i < j < PERIOD
    ensures Pow(A, i) != Pow(A, j)
  {
    hide Pow;
    if Pow(A, i) == Pow(A, j) {
      PowAdds(A, j - i, i);
      PowBelow(A, i);
      PowBelow(A, j - i);
      assert j - i + i == j;
      CancelPower(1, Pow(A, j - i), i);
      NoEarlierOne(j - i);
    }
  }

  /** Every number from 1 to M - 1 is a power of 16807. */
  lemma EveryPower(y: nat) returns (i: nat)
    requires InRange(y)
    ensures i < PERIOD && Pow(A, i) == y
  {
    hide Pow, NextSeed, Steps;
    var f := (n: nat) => Pow(A, n);
    forall n: nat | n < PERIOD
      ensures 1 <= f(n) <= PERIOD
    {
      StepsArePowers(1, n);
      PowBelow(A, n);
    }
    forall m, n | 0 <= m < n < PERIOD
      ensures f(m) != f(n)
    {
      DistinctPowers(m, n);
    }
    i := Pigeonhole(f, PERIOD, y);
  }

  /** From each seed in the range the generator reaches each other one, within one period ... */
  lemma FullPeriod(seed: nat, target: nat) returns (n: nat)
    requires InRange(seed) && InRange(target)
    ensures n < PERIOD && Steps(seed, n) == target
  {
    hide Pow, NextSeed, Steps;
    var a := EveryPower(seed);
    var b := EveryPower(target);
    n := if a <= b then b - a else b + PERIOD - a;
    StepsArePowers(seed, n);
    PowAdds(A, a, n);
    if a > b {
      PowersAtQuotients();
      PowOfRemainder(A, PERIOD, 1, b);
      assert PERIOD * 1 + b == a + n;
    }
  }

  /** ... and it comes back to a seed only after a whole period. */
  lemma ReturnsAfterPeriod(seed: nat, n: nat)
    requires InRange(seed) && n <= PERIOD
    ensures Steps(seed, n) == seed <==> n == 0 || n == PERIOD
  {
    hide Pow, NextSeed, Steps;
    StepsArePowers(seed, n);
    PowersAtQuotients();
    var a := EveryPower(seed);
    PowAdds(A, n, a);
    PowAdds(A, a, n);
    if n == 0 {
      PowZero();
    } else if n < PERIOD && Steps(seed, n) == seed {
      CancelPower(1, Pow(A, n), a);
      PowBelow(A, n);
      NoEarlierOne(n);
    }
  }

  lemma PowZero()
    ensures Pow(A, 0) == 1
  {
  }

  class Random {
    var seed: nat

    constructor (s: nat)
      ensures seed == GoodSeed(s)
      ensures 1 <= s <= M ==> seed == s
      ensures s == 0 ==> seed == 1
    {
      seed := GoodSeed(s);
    }

    method Reset(s: nat)
      modifies this
      ensures seed == GoodSeed(s)
      ensures 1 <= s <= M ==> seed == s
      ensures s == 0 ==> seed == 1
    {
      seed := GoodSeed(s);
    }

    /** For a seed in the range the next one is the true remainder, and in the range again. */
    method Next() returns (r: nat)
      requires 1 <= seed <= M
      modifies this
      ensures r == seed && 1 <= seed <= M
      ensures seed == if old(seed) == M then M else old(seed) * A % M
      ensures InRange(seed) <==> InRange(old(seed))
    {
      GoodSeedInRange(0);
      if seed < M {
        NextStaysInRange(seed);
      }
      var product := seed * A;
      seed := product / TWO_TO_31 + product % TWO_TO_31;
      if seed > M {
        seed := seed - M;
      }
      return seed;
    }
  }
}
