/** HistogramBucketMapper: the bucket limits, which grow by half and keep their leading digits, and the lookup in them. */
module BucketMapper {
  import opened Arithmetic
  import opened Decimal

  /** 2 * 1.5^k */
  ghost function Exact(k: nat): (g: real)
    ensures g >= 2.0
  {
    if k == 0 then 2.0 else 1.5 * Exact(k - 1)
  }

  /** How results are rounded to doubles: by at most half a unit in the last place, and not at all when representable. */
  ghost predicate IsRounding(round: real -> real) {
    && (forall x: real :: x >= 1.0 ==> Near(round(x), x))
    && (forall x: real :: 0.0 <= x < 9007199254740992.0 && x == x.Floor as real ==> round(x) == x)
  }

  predicate Near(y: real, x: real) {
    -x <= (y - x) * 9007199254740992.0 <= x
  }

  /** The limit before its trailing digits are dropped: each is the rounded product of 1.5 and the one before. */
  ghost function Growth(round: real -> real, k: nat): real {
    if k == 0 then 2.0 else round(1.5 * Growth(round, k - 1))
  }

  /** n with all but its leading two or three digits replaced by zeros. */
  function Leading(n: nat): nat {
    if n / 10 > 10 then 10 * Leading(n / 10) else n
  }

  lemma TenTimes(m: nat, q: nat)
    ensures m * (10 * q) == 10 * (m * q) && (m + 1) * (10 * q) == 10 * ((m + 1) * q)
  {
  }

  /** The leading digits are a number up to 109 times a power of ten, and at least 11 of that power if any was dropped. */
  lemma {:induction false} LeadingScale(n: nat) returns (m: nat, j: nat)
    ensures Leading(n) == m * Pow10(j) && m * Pow10(j) <= n < (m + 1) * Pow10(j)
    ensures m <= 109 && (j > 0 ==> m >= 11)
    decreases n
  {
    if n / 10 > 10 {
      m, j := LeadingScale(n / 10);
      assert Pow10(j + 1) == 10 * Pow10(j);
      TenTimes(m, Pow10(j));
      j := j + 1;
    } else {
      m, j := n, 0;
      assert Pow10(0) == 1;
    }
  }

  /** Dropping digits costs less than a twelfth. */
  lemma LeadingIsClose(n: nat)
    ensures Leading(n) <= n && 11 * n <= 12 * Leading(n)
    ensures n > 0 ==> Leading(n) > 0
  {
    var m, j := LeadingScale(n);
    var p := Pow10(j);
    assert j == 0 ==> p == 1;
    hide Leading, Pow10;
    assert (m + 1) * p == m * p + p;
    if j > 0 {
      OrderedProducts(11, m, p);
    }
  }

  lemma {:induction false} ExactAdds(a: nat, b: nat)
    ensures 2.0 * Exact(a + b) == Exact(a) * Exact(b)
  {
    if b > 0 {
      ExactAdds(a, b - 1);
      var x, y, z := Exact(a), Exact(b - 1), Exact(a + b - 1);
      assert a + (b - 1) == a + b - 1;
      hide *;
      assert x * (1.5 * y) == 1.5 * (x * y);
    }
  }

  lemma SquareBounds(g: real, lo: real, hi: real)
    requires 0.0 <= lo <= g <= hi
    ensures lo * lo <= g * g <= hi * hi
  {
  }

  lemma DoubledExact(a: nat, lo: real, hi: real)
    requires 0.0 <= lo <= Exact(a) <= hi
    ensures lo * lo <= 2.0 * Exact(2 * a) <= hi * hi
    ensures 1.5 * (lo * lo) <= 2.0 * Exact(2 * a + 1) <= 1.5 * (hi * hi)
  {
    ExactAdds(a, a);
    SquareBounds(Exact(a), lo, hi);
    assert Exact(2 * a + 1) == 1.5 * Exact(2 * a);
  }

  /** Without rounding, 107 steps stay well within 64 bits, and the next one does not. */
  lemma LastExact()
    ensures Exact(107) < 16000000000000000000.0
    ensures Exact(108) > 20000000000000000000.0
  {
    ExactOf26();
    assert Exact(54) == 1.5 * Exact(53);
    hide Exact;
    DoubledExact(26, 75000.0, 77000.0);
    DoubledExact(53, 4200000000.0, 4500000000.0);
    DoubledExact(54, 6328125000.0, 6700000000.0);
  }

  lemma ExactOf26()
    ensures 75000.0 <= Exact(26) <= 77000.0
  {
    assert Exact(3) == 6.75;
    hide Exact;
    DoubledExact(3, 6.75, 6.75);
    DoubledExact(6, 22.78125, 22.78125);
    DoubledExact(13, 389.0, 390.0);
  }

  lemma RoundsThree(round: real -> real)
    requires IsRounding(round)
    ensures round(3.0) == 3.0
  {
    assert 3.0 == (3.0).Floor as real;
  }

  lemma GrowthIs(round: real -> real, k: nat)
    ensures Growth(round, k + 1) == round(1.5 * Growth(round, k)) && Growth(round, 0) == 2.0
  {
  }

  lemma NearGrows(g: real, y: real)
    requires g >= 2.0 && Near(y, 1.5 * g)
    ensures 1.4 * g <= y
  {
  }

  /** One step of the growth in doubles. */
  lemma {:induction false} GrowthStep(round: real -> real, k: nat)
    requires IsRounding(round)
    ensures Growth(round, k) >= 2.0 && (k > 0 ==> Growth(round, k) >= 3.0)
    ensures Growth(round, k + 1) == round(1.5 * Growth(round, k)) && Near(Growth(round, k + 1), 1.5 * Growth(round, k))
    ensures 1.4 * Growth(round, k) <= Growth(round, k + 1)
  {
    hide IsRounding, Growth, Near;
    GrowthIs(round, k);
    if k > 0 {
      GrowthStep(round, k - 1);
      if k == 1 {
        GrowthIs(round, 0);
        RoundsThree(round);
      }
    }
    RoundsNear(round, 1.5 * Growth(round, k));
    NearGrows(Growth(round, k), Growth(round, k + 1));
  }

  lemma RoundsNear(round: real -> real, x: real)
    requires IsRounding(round) && x >= 1.0
    ensures Near(round(x), x)
  {
  }

  /** The relative error after k steps is at most k times 2^-52. */
  predicate Drift(g: real, e: real, k: nat) {
    -(k as real * e) <= (g - e) * 4503599627370496.0 <= k as real * e
  }

  lemma DriftGrows(g: real, e: real, h: real, k: nat)
    requires e > 0.0 && k <= 1000 && Drift(g, e, k) && Near(h, 1.5 * g)
    ensures Drift(h, 1.5 * e, k + 1)
  {
    ScaledBound(k, e);
    NextMultiple(k, e);
    DriftStep(g, e, h, k as real * e, (k + 1) as real * (1.5 * e));
  }

  lemma DriftStep(g: real, e: real, h: real, ke: real, next: real)
    requires e > 0.0 && 0.0 <= ke <= 1000.0 * e && next == 1.5 * ke + 1.5 * e
    requires -ke <= (g - e) * 4503599627370496.0 <= ke && Near(h, 1.5 * g)
    ensures -next <= (h - 1.5 * e) * 4503599627370496.0 <= next
  {
  }

  lemma ScaledBound(k: nat, e: real)
    requires e > 0.0 && k <= 1000
    ensures 0.0 <= k as real * e <= 1000.0 * e
  {
  }

  lemma NextMultiple(k: nat, e: real)
    ensures (k + 1) as real * (1.5 * e) == 1.5 * (k as real * e) + 1.5 * e
  {
  }

  lemma {:induction false} GrowthDrifts(round: real -> real, k: nat)
    requires IsRounding(round) && k <= 1000
    ensures Drift(Growth(round, k), Exact(k), k)
  {
    if k > 0 {
      GrowthDrifts(round, k - 1);
      GrowthStep(round, k - 1);
      hide IsRounding, Drift;
      DriftGrows(Growth(round, k - 1), Exact(k - 1), Growth(round, k), k - 1);
    }
  }

  lemma DriftIsSmall(g: real, e: real, k: nat)
    requires e > 0.0 && k <= 1000 && Drift(g, e, k)
    ensures 0.99 * e <= g <= 1.01 * e
  {
    ScaledBound(k, e);
  }

  lemma {:induction false} GrowthIncreases(round: real -> real, a: nat, b: nat)
    requires IsRounding(round) && a <= b
    ensures Growth(round, a) <= Growth(round, b)
  {
    if a < b {
      GrowthIncreases(round, a, b - 1);
      GrowthStep(round, b - 1);
    }
  }

  /** However the products are rounded, 107 steps stay within 64 bits and the next one does not. */
  lemma LastGrowth(round: real -> real)
    requires IsRounding(round)
    ensures Growth(round, 107) < 18446744073709551615.0
    ensures Growth(round, 108) > 18446744073709551616.0
  {
    hide IsRounding, Growth, Exact, Drift;
    LastExact();
    GrowthDrifts(round, 107);
    GrowthDrifts(round, 108);
    DriftIsSmall(Growth(round, 107), Exact(107), 107);
    DriftIsSmall(Growth(round, 108), Exact(108), 108);
  }

  /** The limits that the constructor has after k steps: 1, 2, and then the leading digits of the growing product. */
  ghost function Limits(round: real -> real, k: nat): (limits: seq<nat>)
    ensures |limits| == k + 2
  {
    if k == 0 then [1, 2] else Limits(round, k - 1) + [LimitAt(round, k)]
  }

  ghost function LimitAt(round: real -> real, k: nat): nat {
    if Growth(round, k) >= 0.0 then Leading(Growth(round, k).Floor) else 0
  }

  predicate Increasing(limits: seq<nat>) {
    forall i, j :: 0 <= i < j < |limits| ==> limits[i] < limits[j]
  }

  /** Each limit is below the next one, although digits are dropped from it and products are rounded. */
  lemma NextLimitIsLarger(round: real -> real, k: nat)
    requires IsRounding(round)
    ensures LimitAt(round, k) < LimitAt(round, k + 1) && LimitAt(round, 0) == 2
    ensures Growth(round, k) >= 2.0 && LimitAt(round, k) == Leading(Growth(round, k).Floor)
  {
    var g, h := Growth(round, k), Growth(round, k + 1);
    GrowthStep(round, k);
    GrowthStep(round, k + 1);
    assert Leading(2) == 2 && Leading(3) == 3;
    LeadingIsClose(g.Floor);
    LeadingIsClose(h.Floor);
    if k > 0 {
      hide *;
      FloorGap(g, h);
    }
  }

  lemma FloorGap(g: real, h: real)
    requires g >= 3.0 && h >= 1.4 * g
    ensures 12 * g.Floor < 11 * h.Floor
  {
  }

  lemma {:induction false} LimitsIncrease(round: real -> real, k: nat)
    requires IsRounding(round)
    ensures Increasing(Limits(round, k)) && Limits(round, k)[0] == 1 && Limits(round, k)[k + 1] == LimitAt(round, k)
  {
    NextLimitIsLarger(round, if k == 0 then 0 else k - 1);
    if k > 0 {
      LimitsIncrease(round, k - 1);
    }
    hide IsRounding;
  }

  /** The position of the first key that is not less than value, or the end. */
  function LowerBound(keys: seq<nat>, value: nat): (i: nat)
    ensures i <= |keys| && (forall j :: 0 <= j < i ==> keys[j] < value)
    ensures i < |keys| ==> value <= keys[i]
  {
    if keys == [] || value <= keys[0] then 0 else 1 + LowerBound(keys[1..], value)
  }

  /** Bucket b reaches from the limit before it, excluded, to its own, included; the last one has no end. */
  predicate InBucket(limits: seq<nat>, b: nat, x: real) {
    && b < |limits|
    && (b == 0 || limits[b - 1] as real < x)
    && (b == |limits| - 1 || x <= limits[b] as real)
  }

  lemma IncreasingAt(limits: seq<nat>, i: nat, j: nat)
    requires Increasing(limits) && i <= j < |limits|
    ensures limits[i] <= limits[j]
  {
  }

  /** Larger values are in later buckets, so each value is in only one. */
  lemma BucketsFollow(limits: seq<nat>, b: nat, c: nat, x: real, y: real)
    requires Increasing(limits) && InBucket(limits, b, x) && InBucket(limits, c, y) && x <= y
    ensures b <= c
    ensures x == y ==> b == c
  {
    hide Increasing;
    if c < b - 1 {
      IncreasingAt(limits, c, b - 1);
    }
    if b < c - 1 {
      IncreasingAt(limits, b, c - 1);
    }
  }

  datatype HistogramBucketMapper = HistogramBucketMapper(
    bucketValues: seq<nat>, valueIndexMap: map<nat, nat>, maxBucketValue: nat, minBucketValue: nat) {

    ghost predicate Valid() {
      && |bucketValues| >= 2 && Increasing(bucketValues) && bucketValues[0] == 1
      && (forall i :: 0 <= i < |bucketValues| ==> bucketValues[i] < U64)
      && (forall i :: 0 <= i < |bucketValues| ==> bucketValues[i] in valueIndexMap && valueIndexMap[bucketValues[i]] == i)
      && maxBucketValue == bucketValues[|bucketValues| - 1]
      && minBucketValue == bucketValues[0]
    }

    /** The keys of valueIndexMap in their order are bucketValues. */
    function IndexForValue(value: nat): (index: int)
      requires Valid()
      ensures 0 <= index && InBucket(bucketValues, index, value as real)
    {
      if value >= maxBucketValue then |bucketValues| - 1
      else if value >= minBucketValue then
        var lowerBound := LowerBound(bucketValues, value);
        if lowerBound != |bucketValues| then valueIndexMap[bucketValues[lowerBound]] else 0
      else 0
    }
  }

  lemma GrowthInRange(round: real -> real, k: nat)
    requires IsRounding(round)
    ensures Growth(round, k) >= 2.0
    ensures k <= 107 <==> Growth(round, k) <= 18446744073709551616.0
    ensures k <= 107 ==> Growth(round, k).Floor < U64
  {
    GrowthStep(round, k);
    LastGrowth(round);
    if k <= 107 {
      GrowthIncreases(round, k, 107);
    } else {
      GrowthIncreases(round, 108, k);
    }
    hide Growth, IsRounding;
  }

  lemma {:induction false} LimitsBelow(round: real -> real, k: nat)
    requires IsRounding(round) && k <= 107
    ensures forall i :: 0 <= i < k + 2 ==> Limits(round, k)[i] < U64
  {
    hide Growth, Leading, IsRounding;
    if k > 0 {
      LimitsBelow(round, k - 1);
      GrowthInRange(round, k);
      LeadingIsClose(Growth(round, k).Floor);
    }
  }

  /**
    The constructor, with the rounding of the products as a parameter: it builds 109 buckets, as many as
    HistogramStat has room for, however the products are rounded.
   */
  method MakeBuckets(round: real -> real) returns (m: HistogramBucketMapper)
    requires IsRounding(round)
    ensures m.Valid() && |m.bucketValues| == 109 && m.bucketValues == Limits(round, 107)
  {
    hide Leading, Growth, IsRounding, LimitAt;
    var bucketValues: seq<nat>, valueIndexMap: map<nat, nat> := [1, 2], map[1 := 0, 2 := 1];
    var bucketVal := 2.0;
    ghost var k := 0;
    GrowthStarts(round);
    assert bucketValues == Limits(round, 0);
    GrowthStep(round, 0);
    bucketVal := round(1.5 * bucketVal);
    while bucketVal <= 18446744073709551616.0
      invariant k <= 107 && bucketVal == Growth(round, k + 1)
      invariant bucketValues == Limits(round, k)
      invariant forall i :: 0 <= i < |bucketValues| ==> bucketValues[i] in valueIndexMap && valueIndexMap[bucketValues[i]] == i
      decreases 107 - k
    {
      GrowthInRange(round, k + 1);
      NextLimitIsLarger(round, k + 1);
      LimitsIncrease(round, k + 1);
      var back: nat, powOfTen: nat := bucketVal.Floor, 1;
      back, powOfTen := DropDigits(back);
      back := back * powOfTen;
      bucketValues := bucketValues + [back];
      assert bucketValues == Limits(round, k + 1);
      valueIndexMap := valueIndexMap[back := |bucketValues| - 1];
      k := k + 1;
      GrowthStep(round, k);
      bucketVal := round(1.5 * bucketVal);
    }
    GrowthInRange(round, k + 1);
    LimitsIncrease(round, k);
    LimitsBelow(round, k);
    m := HistogramBucketMapper(bucketValues, valueIndexMap, bucketValues[|bucketValues| - 1], bucketValues[0]);
  }

  lemma GrowthStarts(round: real -> real)
    ensures Growth(round, 0) == 2.0
  {
  }

  method DropDigits(value: nat) returns (back: nat, powOfTen: nat)
    ensures back * powOfTen == Leading(value)
  {
    back, powOfTen := value, 1;
    while back / 10 > 10
      invariant Leading(value) == Leading(back) * powOfTen
    {
      assert Leading(back) == 10 * Leading(back / 10);
      RegroupTen(Leading(back / 10), powOfTen);
      back := back / 10;
      powOfTen := powOfTen * 10;
    }
  }

  lemma RegroupTen(l: nat, p: nat)
    ensures 10 * l * p == l * (p * 10)
  {
  }
}
