/** Interpolated percentiles of bucket counts, over exact reals. */
module Percentiles {
  import opened BucketMapper
  import opened RealPowers

  /** The number of samples in the first b buckets. */
  function Cumulative(counts: seq<nat>, b: nat): nat
    requires b <= |counts|
  {
    if b == 0 then 0 else Cumulative(counts, b - 1) + counts[b - 1]
  }

  /** The first bucket from b on at which the cumulative count reaches the threshold, or the end. */
  function Reached(counts: seq<nat>, threshold: real, b: nat): (r: nat)
    requires b <= |counts|
    ensures b <= r <= |counts|
    ensures forall c :: b < c <= r ==> Cumulative(counts, c) as real < threshold
    ensures r < |counts| ==> threshold <= Cumulative(counts, r + 1) as real
    decreases |counts| - b
  {
    if b == |counts| || Cumulative(counts, b + 1) as real >= threshold then b else Reached(counts, threshold, b + 1)
  }

  function LeftPoint(limits: seq<nat>, b: nat): nat
    requires b < |limits|
  {
    if b == 0 then 0 else limits[b - 1]
  }

  /** The position of the threshold among the samples of bucket b, from 0 to 1. */
  function Position(counts: seq<nat>, threshold: real, b: nat): real
    requires b < |counts|
  {
    if counts[b] == 0 then 0.0 else (threshold - Cumulative(counts, b) as real) / counts[b] as real
  }

  function Interpolated(limits: seq<nat>, counts: seq<nat>, threshold: real, b: nat): real
    requires b < |limits| == |counts|
  {
    LeftPoint(limits, b) as real + (limits[b] - LeftPoint(limits, b)) as real * Position(counts, threshold, b)
  }

  function Clamped(r: real, min: real, max: real): (c: real)
    ensures min <= r <= max ==> c == r
    ensures min <= max ==> min <= c <= max
  {
    var s := if r < min then min else r;
    if s > max then max else s
  }

  function AtThreshold(limits: seq<nat>, counts: seq<nat>, threshold: real, min: nat, max: nat): real
    requires |limits| == |counts|
  {
    var b := Reached(counts, threshold, 0);
    if b == |counts| then max as real else Clamped(Interpolated(limits, counts, threshold, b), min as real, max as real)
  }

  function Threshold(num: nat, p: real): real {
    num as real * (p / 100.0)
  }

  function PercentileOf(limits: seq<nat>, counts: seq<nat>, num: nat, min: nat, max: nat, p: real): real
    requires |limits| == |counts|
  {
    AtThreshold(limits, counts, Threshold(num, p), min, max)
  }

  lemma {:induction false} CumulativeGrows(counts: seq<nat>, b: nat, c: nat)
    requires b <= c <= |counts|
    ensures Cumulative(counts, b) <= Cumulative(counts, c)
  {
    if b < c {
      CumulativeGrows(counts, b, c - 1);
    }
  }

  lemma Quotient(x: real, n: real)
    requires n > 0.0
    ensures x <= n ==> x / n <= 1.0
    ensures x > 0.0 ==> x / n > 0.0
  {
    var q := x / n;
    assert q * n == x;
    LessProducts(q, 1.0, n);
    LessProducts(q, 0.0, n);
  }

  lemma Between(left: real, width: real, pos: real)
    requires width >= 0.0 && pos <= 1.0
    ensures left + width * pos <= left + width
    ensures width > 0.0 && pos > 0.0 ==> left < left + width * pos
    ensures pos >= 0.0 ==> left <= left + width * pos
  {
  }

  lemma PositionBounds(counts: seq<nat>, threshold: real, b: nat)
    requires b < |counts| && threshold <= Cumulative(counts, b + 1) as real
    ensures Position(counts, threshold, b) <= 1.0
    ensures threshold > Cumulative(counts, b) as real ==> Position(counts, threshold, b) > 0.0
    ensures threshold >= 0.0 && b == 0 ==> Position(counts, threshold, b) >= 0.0
  {
    if counts[b] > 0 {
      var x, n := threshold - Cumulative(counts, b) as real, counts[b] as real;
      assert x <= n;
      Quotient(x, n);
      if x == 0.0 {
        assert x / n == 0.0;
      }
    }
  }

  /** In the bucket where the threshold is reached the interpolation stays in the bucket; it leaves the left end at once. */
  lemma InterpolatedInBucket(limits: seq<nat>, counts: seq<nat>, threshold: real, b: nat)
    requires b < |limits| == |counts| && LeftPoint(limits, b) < limits[b]
    requires threshold <= Cumulative(counts, b + 1) as real
    ensures Interpolated(limits, counts, threshold, b) <= limits[b] as real
    ensures threshold > Cumulative(counts, b) as real ==> LeftPoint(limits, b) as real < Interpolated(limits, counts, threshold, b)
    ensures threshold >= 0.0 && b == 0 ==> 0.0 <= Interpolated(limits, counts, threshold, b)
  {
    hide LeftPoint, Position, Cumulative;
    PositionBounds(counts, threshold, b);
    LeftOfFirst(limits);
    var left, width := LeftPoint(limits, b) as real, (limits[b] - LeftPoint(limits, b)) as real;
    assert left + width == limits[b] as real;
    Between(left, width, Position(counts, threshold, b));
  }

  lemma LeftOfFirst(limits: seq<nat>)
    requires limits != []
    ensures LeftPoint(limits, 0) == 0
  {
  }

  lemma QuotientGrows(x: real, y: real, n: real)
    requires n > 0.0 && x <= y
    ensures x / n <= y / n
  {
    var q, r := x / n, y / n;
    assert q * n == x && r * n == y;
    LessProducts(q, r, n);
  }

  lemma ProductGrows(w: real, x: real, y: real)
    requires w >= 0.0 && x <= y
    ensures w * x <= w * y
  {
  }

  lemma InterpolationGrows(limits: seq<nat>, counts: seq<nat>, s: real, t: real, b: nat)
    requires b < |limits| == |counts| && LeftPoint(limits, b) < limits[b] && s <= t
    ensures Interpolated(limits, counts, s, b) <= Interpolated(limits, counts, t, b)
  {
    if counts[b] > 0 {
      QuotientGrows(s - Cumulative(counts, b) as real, t - Cumulative(counts, b) as real, counts[b] as real);
    }
    ProductGrows((limits[b] - LeftPoint(limits, b)) as real, Position(counts, s, b), Position(counts, t, b));
  }

  lemma ReachedLater(counts: seq<nat>, s: real, t: real)
    requires s <= t
    ensures Reached(counts, s, 0) <= Reached(counts, t, 0)
    ensures Reached(counts, t, 0) > 0 ==> t > Cumulative(counts, Reached(counts, t, 0)) as real
  {
  }

  lemma PointsOrdered(limits: seq<nat>, b: nat)
    requires Increasing(limits) && b < |limits| && limits[0] >= 1
    ensures LeftPoint(limits, b) < limits[b]
  {
  }

  lemma ClampGrows(x: real, y: real, min: real, max: real)
    ensures x <= y ==> Clamped(x, min, max) <= Clamped(y, min, max)
    ensures Clamped(x, min, max) <= max
  {
  }

  lemma ThresholdGrows(num: nat, p: real, q: real)
    requires p <= q
    ensures Threshold(num, p) <= Threshold(num, q)
  {
    ProductGrows(num as real, p / 100.0, q / 100.0);
  }

  /** A larger percentage never gives a smaller percentile, for any real percentages and an empty histogram as well. */
  lemma PercentileIsMonotone(limits: seq<nat>, counts: seq<nat>, num: nat, min: nat, max: nat, p: real, q: real)
    requires Increasing(limits) && |limits| == |counts| > 0 && limits[0] >= 1
    requires p <= q
    ensures PercentileOf(limits, counts, num, min, max, p) <= PercentileOf(limits, counts, num, min, max, q)
  {
    hide AtThreshold, Increasing, Threshold;
    ThresholdGrows(num, p, q);
    ThresholdIsMonotone(limits, counts, Threshold(num, p), Threshold(num, q), min, max);
  }

  lemma ThresholdIsMonotone(limits: seq<nat>, counts: seq<nat>, s: real, t: real, min: nat, max: nat)
    requires Increasing(limits) && |limits| == |counts| > 0 && limits[0] >= 1 && s <= t
    ensures AtThreshold(limits, counts, s, min, max) <= AtThreshold(limits, counts, t, min, max)
  {
    hide Interpolated, Clamped, Reached, Increasing, LeftPoint;
    var b, c := Reached(counts, s, 0), Reached(counts, t, 0);
    ReachedLater(counts, s, t);
    if c == |counts| {
      if b < |counts| {
        ClampGrows(Interpolated(limits, counts, s, b), 0.0, min as real, max as real);
      }
    } else {
      InterpolatedGrows(limits, counts, s, t, b, c);
      ClampGrows(Interpolated(limits, counts, s, b), Interpolated(limits, counts, t, c), min as real, max as real);
    }
  }

  lemma InterpolatedGrows(limits: seq<nat>, counts: seq<nat>, s: real, t: real, b: nat, c: nat)
    requires Increasing(limits) && |limits| == |counts| > 0 && limits[0] >= 1 && s <= t
    requires b == Reached(counts, s, 0) <= c == Reached(counts, t, 0) < |counts|
    ensures Interpolated(limits, counts, s, b) <= Interpolated(limits, counts, t, c)
  {
    hide Interpolated;
    PointsOrdered(limits, b);
    PointsOrdered(limits, c);
    if b == c {
      InterpolationGrows(limits, counts, s, t, b);
    } else {
      InterpolatedInBucket(limits, counts, s, b);
      InterpolatedInBucket(limits, counts, t, c);
      IncreasingAt(limits, b, c - 1);
    }
  }

  /** The interpolation runs from the left end of the bucket to its right end, halves into halves. */
  lemma InterpolationIsLinear(limits: seq<nat>, counts: seq<nat>, s: real, t: real, b: nat)
    requires b < |limits| == |counts| && LeftPoint(limits, b) < limits[b] && counts[b] > 0
    ensures Interpolated(limits, counts, Cumulative(counts, b) as real, b) == LeftPoint(limits, b) as real
    ensures Interpolated(limits, counts, Cumulative(counts, b + 1) as real, b) == limits[b] as real
    ensures 2.0 * Interpolated(limits, counts, (s + t) / 2.0, b)
         == Interpolated(limits, counts, s, b) + Interpolated(limits, counts, t, b)
  {
    var c, n := Cumulative(counts, b) as real, counts[b] as real;
    var left, width := LeftPoint(limits, b) as real, (limits[b] - LeftPoint(limits, b)) as real;
    assert Position(counts, c, b) == 0.0 by { assert (c - c) / n == 0.0; }
    assert Position(counts, c + n, b) == 1.0 by { assert n / n == 1.0; }
    HalfQuotient(s - c, t - c, n);
    hide *;
    HalfPosition(left, width, (s - c) / n, (t - c) / n, ((s + t) / 2.0 - c) / n);
    assert limits[b] as real == left + width;
  }

  lemma HalfQuotient(x: real, y: real, n: real)
    requires n > 0.0
    ensures 2.0 * ((x + y) / 2.0 / n) == x / n + y / n
  {
    var p, q, r := x / n, y / n, (x + y) / 2.0 / n;
    assert p * n == x && q * n == y && r * n == (x + y) / 2.0;
    LessProducts(2.0 * r, p + q, n);
    LessProducts(p + q, 2.0 * r, n);
  }

  lemma HalfPosition(left: real, width: real, p: real, q: real, r: real)
    requires 2.0 * r == p + q
    ensures 2.0 * (left + width * r) == (left + width * p) + (left + width * q)
  {
    assert width * (2.0 * r) == width * p + width * q;
  }
}
