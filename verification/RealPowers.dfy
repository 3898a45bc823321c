/** Integer powers of real bases, with positive and negative exponents. */
module RealPowers {
  import opened Decimal

  ghost function Power(b: real, e: int): (p: real)
    requires b > 0.0
    ensures p > 0.0
    decreases if e < 0 then -e else e
  {
    if e == 0 then 1.0 else if e > 0 then b * Power(b, e - 1) else Power(b, e + 1) / b
  }

  lemma PowerUp(b: real, e: int)
    requires b > 0.0
    ensures Power(b, e + 1) == Power(b, e) * b
  {
    if e < 0 {
      assert Power(b, e) == Power(b, e + 1) / b;
    }
  }

  lemma LessProducts(x: real, y: real, p: real)
    requires p > 0.0
    ensures x <= y <==> x * p <= y * p
  {
    if x > y {
      assert (x - y) * p > 0.0;
    }
  }

  lemma Regroup(p: real, q: real, r: real, b: real)
    requires r == p * q
    ensures r * b == p * (q * b)
  {
  }

  lemma Cancel(p: real, q: real, r: real, b: real)
    requires b > 0.0 && r * b == p * (q * b)
    ensures r == p * q
  {
    assert (r - p * q) * b == 0.0;
  }

  lemma PowerZero(b: real)
    requires b > 0.0
    ensures Power(b, 0) == 1.0
  {
  }

  /** The law of exponents carries over to the next second exponent, and back. */
  lemma AddsNext(b: real, e: int, d: int)
    requires b > 0.0
    ensures Power(b, e + d) == Power(b, e) * Power(b, d) <==> Power(b, e + d + 1) == Power(b, e) * Power(b, d + 1)
  {
    hide Power;
    PowerUp(b, e + d);
    PowerUp(b, d);
    if Power(b, e + d) == Power(b, e) * Power(b, d) {
      Regroup(Power(b, e), Power(b, d), Power(b, e + d), b);
    } else if Power(b, e + d + 1) == Power(b, e) * Power(b, d + 1) {
      Cancel(Power(b, e), Power(b, d), Power(b, e + d), b);
    }
  }

  lemma {:induction false} PowerAdds(b: real, e: int, d: int)
    requires b > 0.0
    ensures Power(b, e + d) == Power(b, e) * Power(b, d)
    decreases if d < 0 then -d else d
  {
    hide Power;
    if d == 0 {
      PowerZero(b);
    } else if d > 0 {
      PowerAdds(b, e, d - 1);
      AddsNext(b, e, d - 1);
      assert e + (d - 1) == e + d - 1;
    } else {
      PowerAdds(b, e, d + 1);
      AddsNext(b, e, d);
      assert e + (d + 1) == e + d + 1;
    }
  }

  lemma {:induction false} PowerOfTwo(n: nat)
    ensures Power(2.0, n) == Pow2(n) as real
  {
    if n > 0 {
      PowerOfTwo(n - 1);
    }
  }

  lemma {:induction false} PowerOfTen(n: nat)
    ensures Power(10.0, n) == Pow10(n) as real
  {
    if n > 0 {
      PowerOfTen(n - 1);
    }
  }
}
