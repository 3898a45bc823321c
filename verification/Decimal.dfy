/** Powers of two and ten, and the decimal digits of a number. */
module Decimal {

  function Pow2(n: nat): (p: nat)
    ensures p > 0
  {
    if n == 0 then 1 else 2 * Pow2(n - 1)
  }

  function Pow10(n: nat): (p: nat)
    ensures p > 0
  {
    if n == 0 then 1 else 10 * Pow10(n - 1)
  }

  lemma Regrouped(p: nat, c: nat, q: nat)
    ensures p * (c * q) == c * (p * q)
  {
  }

  lemma {:induction false} Pow2Adds(a: nat, b: nat)
    ensures Pow2(a + b) == Pow2(a) * Pow2(b)
  {
    if b > 0 {
      Pow2Adds(a, b - 1);
      assert Pow2(a + b) == 2 * Pow2(a + b - 1);
      Regrouped(Pow2(a), 2, Pow2(b - 1));
      hide Pow2;
      assert a + (b - 1) == a + b - 1;
    }
  }

  lemma {:induction false} Pow10Adds(a: nat, b: nat)
    ensures Pow10(a + b) == Pow10(a) * Pow10(b)
  {
    if b > 0 {
      Pow10Adds(a, b - 1);
      assert Pow10(a + b) == 10 * Pow10(a + b - 1);
      Regrouped(Pow10(a), 10, Pow10(b - 1));
      hide Pow10;
      assert a + (b - 1) == a + b - 1;
    }
  }

  lemma {:induction false} Pow2Grows(a: nat, b: nat)
    requires a <= b
    ensures Pow2(a) <= Pow2(b)
  {
    if a < b {
      Pow2Grows(a, b - 1);
    }
  }

  lemma {:induction false} Pow10Grows(a: nat, b: nat)
    requires a <= b
    ensures Pow10(a) <= Pow10(b)
  {
    if a < b {
      Pow10Grows(a, b - 1);
    }
  }

  /** The decimal digits, most significant first, without leading zeros ([0] for zero). */
  function Digits(n: nat): (ds: seq<nat>)
    ensures |ds| > 0
  {
    if n < 10 then [n] else Digits(n / 10) + [n % 10]
  }

  function Value(ds: seq<nat>): nat {
    if ds == [] then 0 else 10 * Value(ds[..|ds| - 1]) + ds[|ds| - 1]
  }

  predicate AreDigits(ds: seq<nat>) {
    forall i :: 0 <= i < |ds| ==> ds[i] < 10
  }

  lemma ValueSnoc(ds: seq<nat>, d: nat)
    ensures Value(ds + [d]) == 10 * Value(ds) + d
  {
    assert (ds + [d])[..|ds|] == ds;
  }

  lemma {:induction false} DigitsDenote(n: nat)
    ensures AreDigits(Digits(n)) && Value(Digits(n)) == n
    ensures n < Pow10(|Digits(n)|)
    ensures n > 0 ==> Pow10(|Digits(n)| - 1) <= n
  {
    if n < 10 {
      assert Value([n]) == 10 * Value([]) + n by { ValueSnoc([], n); assert [] + [n] == [n]; }
    } else {
      DigitsDenote(n / 10);
      ValueSnoc(Digits(n / 10), n % 10);
      assert Pow10(|Digits(n)|) == 10 * Pow10(|Digits(n / 10)|);
    }
  }

  /** The length of the digits is determined by the powers of ten around the number. */
  lemma DigitCount(n: nat, d: nat)
    requires d > 0 && n < Pow10(d) && (d == 1 || Pow10(d - 1) <= n)
    ensures |Digits(n)| == d
  {
    DigitsDenote(n);
    if |Digits(n)| < d {
      Pow10Grows(|Digits(n)|, d - 1);
    } else if |Digits(n)| > d {
      Pow10Grows(d, |Digits(n)| - 1);
    }
  }

  /** Any digits of the same length and value are the digits of the number. */
  lemma {:induction false} DigitsAreUnique(ds: seq<nat>, n: nat)
    requires AreDigits(ds) && Value(ds) == n && |ds| == |Digits(n)|
    ensures ds == Digits(n)
  {
    if n < 10 {
      assert ds[..0] == [];
    } else {
      var pre, last := ds[..|ds| - 1], ds[|ds| - 1];
      assert n / 10 == Value(pre) && n % 10 == last;
      DigitsAreUnique(pre, n / 10);
    }
  }

  function DigitChar(d: nat): char
    requires d < 10
  {
    '0' + d as char
  }

  function Text(ds: seq<nat>): string
    requires AreDigits(ds)
  {
    seq(|ds|, i requires 0 <= i < |ds| => DigitChar(ds[i]))
  }
}
