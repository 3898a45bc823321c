/** Powers modulo 2^31 - 1, greatest common divisors, and what is needed to find the order of an element. */
module Modular {
  import opened Arithmetic

  const M: nat := 0x7FFF_FFFF

  function Pow(x: nat, n: nat): nat {
    if n == 0 then 1 else x * Pow(x, n - 1) % M
  }

  lemma ModMul(a: nat, b: nat)
    ensures a % M * b % M == a * b % M
    ensures a * (b % M) % M == a * b % M
  {
    ModLeft(a, b);
    ModLeft(b, a);
  }

  lemma ModLeft(a: nat, b: nat)
    ensures a % M * b % M == a * b % M
  {
    var q, r := a / M, a % M;
    assert a * b == M * (q * b) + r * b by { assert a == M * q + r; }
    Multiple(q * b, r * b);
  }

  lemma Multiple(k: nat, r: nat)
    ensures (M * k + r) % M == r % M
  {
  }

  lemma MulBoth(x: nat, p: nat, q: nat)
    ensures x * (p * q % M) % M == x * p % M * q % M
  {
    ModMul(x, p * q);
    ModMul(x * p, q);
    assert x * (p * q) == x * p * q;
  }

  lemma {:induction false} PowAdds(x: nat, a: nat, b: nat)
    ensures Pow(x, a + b) == Pow(x, a) * Pow(x, b) % M
  {
    if a == 0 {
      PowBelow(x, b);
    } else {
      hide Pow;
      PowAdds(x, a - 1, b);
      PowNext(x, a - 1);
      PowNext(x, a - 1 + b);
      MulBoth(x, Pow(x, a - 1), Pow(x, b));
    }
  }

  lemma PowNext(x: nat, n: nat)
    ensures Pow(x, n + 1) == x * Pow(x, n) % M
  {
  }

  lemma PowBelow(x: nat, n: nat)
    ensures Pow(x, n) < M
  {
  }

  lemma {:induction false} PowTower(x: nat, a: nat, n: nat)
    ensures Pow(x, a * n) == Pow(Pow(x, a), n)
  {
    if n > 0 {
      PowTower(x, a, n - 1);
      assert a * n == a + a * (n - 1);
      PowAdds(x, a, a * (n - 1));
    }
  }

  lemma {:induction false} PowOfOne(n: nat)
    ensures Pow(1, n) == 1
  {
    if n > 0 {
      PowOfOne(n - 1);
    }
  }

  function Gcd(a: nat, b: nat): nat
    decreases b
  {
    if b == 0 then a else Gcd(b, a % b)
  }

  ghost predicate Divides(d: int, n: int) {
    exists k: int :: n == d * k
  }

  lemma DividesBy(d: int, k: int)
    ensures Divides(d, d * k)
  {
  }

  lemma DividesSum(d: int, a: int, b: int, q: int)
    requires Divides(d, a) && Divides(d, b)
    ensures Divides(d, a + b * q)
  {
    var i, j :| a == d * i && b == d * j;
    assert d * j * q == d * (j * q);
    assert a + b * q == d * (i + j * q);
  }

  lemma {:induction false} GcdDivides(a: nat, b: nat)
    ensures Divides(Gcd(a, b), a) && Divides(Gcd(a, b), b)
    decreases b
  {
    if b == 0 {
      DividesBy(a, 1);
      DividesBy(a, 0);
    } else {
      GcdDivides(b, a % b);
      DividesSum(Gcd(b, a % b), a % b, b, a / b);
      assert a == a % b + b * (a / b);
    }
  }

  /** What divides two multiples of m divides the multiple by the greatest common divisor. */
  lemma {:induction false} DividesGcdMultiple(e: int, a: nat, b: nat, m: int)
    requires Divides(e, a * m) && Divides(e, b * m)
    ensures Divides(e, Gcd(a, b) * m)
    decreases b
  {
    if b > 0 {
      DividesSum(e, a * m, b * m, -(a / b));
      Remainder(a, b, m);
      DividesGcdMultiple(e, b, a % b, m);
    }
  }

  lemma Remainder(a: nat, b: nat, m: int)
    requires b > 0
    ensures a % b * m == a * m + b * m * -(a / b)
  {
    var q, r := a / b, a % b;
    assert r == a - b * q;
    hide *;
    assert (a - b * q) * m == a * m - b * q * m;
    assert b * q * m == b * m * q;
  }

  lemma PowOfRemainder(x: nat, b: nat, q: nat, r: nat)
    requires Pow(x, b) == 1
    ensures Pow(x, b * q + r) == Pow(x, r)
  {
    PowBelow(x, r);
    hide Pow;
    PowAdds(x, b * q, r);
    PowTower(x, b, q);
    PowOfOne(q);
  }

  /** If the powers with two exponents are one, so is that with their greatest common divisor. */
  lemma {:induction false} PowGcd(x: nat, a: nat, b: nat)
    requires Pow(x, a) == 1 && Pow(x, b) == 1
    ensures Pow(x, Gcd(a, b)) == 1
    decreases b
  {
    hide Pow;
    if b > 0 {
      assert a == b * (a / b) + a % b;
      PowOfRemainder(x, b, a / b, a % b);
      PowGcd(x, b, a % b);
    }
  }

  ghost predicate IsPrime(p: nat) {
    p > 1 && forall d: nat :: Divides(d, p) ==> d == 1 || d == p
  }

  /** A prime that does not divide e can be taken out of a multiple of e. */
  lemma TakeOut(e: nat, p: nat, m: int)
    requires IsPrime(p) && Divides(e, p * m) && !Divides(p, e)
    ensures Divides(e, m)
  {
    GcdDivides(p, e);
    assert Gcd(p, e) == 1;
    DividesBy(e, m);
    DividesGcdMultiple(e, p, e, m);
  }

  function Product(ps: seq<nat>): nat {
    if ps == [] then 1 else ps[0] * Product(ps[1..])
  }

  /** A divisor of a product of primes that is not one has one of the primes as a divisor. */
  lemma {:induction false} PrimeFactor(e: nat, ps: seq<nat>) returns (i: nat)
    requires e > 1 && Divides(e, Product(ps)) && forall j :: 0 <= j < |ps| ==> IsPrime(ps[j])
    ensures i < |ps| && Divides(ps[i], e)
  {
    if ps == [] {
      OnlyOneDividesOne(e);
    } else if Divides(ps[0], e) {
      i := 0;
    } else {
      TakeOut(e, ps[0], Product(ps[1..]));
      i := PrimeFactor(e, ps[1..]);
      i := i + 1;
    }
  }

  lemma OnlyOneDividesOne(e: nat)
    requires Divides(e, 1)
    ensures e == 1
  {
    var k: int :| 1 == e * k;
    Cofactor(1, e, k);
  }

  /** p has no divisor among 2, ..., 18 except perhaps itself. */
  predicate NoSmallDivisor(p: nat) {
    && (p > 2 ==> p % 2 != 0) && (p > 3 ==> p % 3 != 0) && (p > 4 ==> p % 4 != 0) && (p > 5 ==> p % 5 != 0)
    && (p > 6 ==> p % 6 != 0) && (p > 7 ==> p % 7 != 0) && (p > 8 ==> p % 8 != 0) && (p > 9 ==> p % 9 != 0)
    && (p > 10 ==> p % 10 != 0) && (p > 11 ==> p % 11 != 0) && (p > 12 ==> p % 12 != 0) && (p > 13 ==> p % 13 != 0)
    && (p > 14 ==> p % 14 != 0) && (p > 15 ==> p % 15 != 0) && (p > 16 ==> p % 16 != 0) && (p > 17 ==> p % 17 != 0)
    && (p > 18 ==> p % 18 != 0)
  }

  lemma SmallDivisor(p: nat, d: nat, k: int)
    requires NoSmallDivisor(p) && 2 <= d <= 18 && d < p
    ensures p != d * k
  {
    assert d == 2 || d == 3 || d == 4 || d == 5 || d == 6 || d == 7 || d == 8 || d == 9 || d == 10 || d == 11
        || d == 12 || d == 13 || d == 14 || d == 15 || d == 16 || d == 17 || d == 18;
    if p == d * k {
      NoRest(p, d, k);
    }
  }

  lemma NoRest(p: nat, d: nat, k: int)
    requires d > 0 && p == d * k
    ensures p % d == 0
  {
    if k < 0 {
      OrderedProducts(k, -1, d);
    }
    QuotientIs(p, d, k, 0);
  }

  lemma SmallPrime(p: nat)
    requires 1 < p < 361 && NoSmallDivisor(p)
    ensures IsPrime(p)
  {
    forall d: nat | Divides(d, p)
      ensures d == 1 || d == p
    {
      var k: int :| p == d * k;
      if 1 < d < p {
        Cofactor(p, d, k);
        if d <= 18 {
          SmallDivisor(p, d, k);
        } else {
          SmallDivisor(p, k, d);
        }
      } else {
        Cofactor(p, d, k);
      }
    }
  }

  lemma Cofactor(p: nat, d: nat, k: int)
    requires p > 0 && p == d * k
    ensures 0 < d <= p && 0 < k <= p
    ensures d < p ==> k > 1
    ensures d > 1 ==> k < p
    ensures d >= 19 && p < 361 ==> k <= 18
  {
    assert k <= 0 ==> d * k <= 0;
    assert k > 0 ==> d * k >= d;
    assert d > 0 ==> k >= 19 && d >= 19 ==> d * k >= 361;
  }
}
