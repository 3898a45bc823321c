/** HistogramStat: counters and buckets of 64-bit samples, merging, variance and percentiles. */
module Histogram {
  import opened Arithmetic
  import opened BucketMapper
  import opened Percentiles

  function Sum(xs: seq<nat>): nat {
    if xs == [] then 0 else Sum(xs[..|xs| - 1]) + xs[|xs| - 1]
  }

  function SumSquares(xs: seq<nat>): nat {
    if xs == [] then 0 else SumSquares(xs[..|xs| - 1]) + xs[|xs| - 1] * xs[|xs| - 1]
  }

  /** The least of the samples and the initial value. */
  function Least(xs: seq<nat>, initial: nat): nat {
    if xs == [] then initial
    else var least := Least(xs[..|xs| - 1], initial); if xs[|xs| - 1] < least then xs[|xs| - 1] else least
  }

  function Greatest(xs: seq<nat>): nat {
    if xs == [] then 0
    else var greatest := Greatest(xs[..|xs| - 1]); if xs[|xs| - 1] > greatest then xs[|xs| - 1] else greatest
  }

  /** How many samples fall into bucket b. */
  function Count(m: HistogramBucketMapper, xs: seq<nat>, b: nat): nat
    requires m.Valid()
  {
    if xs == [] then 0 else Count(m, xs[..|xs| - 1], b) + if m.IndexForValue(xs[|xs| - 1]) == b then 1 else 0
  }

  lemma Snoc(m: HistogramBucketMapper, xs: seq<nat>, x: nat, b: nat)
    requires m.Valid()
    ensures Sum(xs + [x]) == Sum(xs) + x && SumSquares(xs + [x]) == SumSquares(xs) + x * x
    ensures forall i :: Least(xs + [x], i) == if x < Least(xs, i) then x else Least(xs, i)
    ensures Greatest(xs + [x]) == if x > Greatest(xs) then x else Greatest(xs)
    ensures Count(m, xs + [x], b) == Count(m, xs, b) + if m.IndexForValue(x) == b then 1 else 0
  {
    assert (xs + [x])[..|xs|] == xs;
  }

  lemma {:induction false} Concat(m: HistogramBucketMapper, xs: seq<nat>, ys: seq<nat>, i: nat, b: nat)
    requires m.Valid()
    ensures Sum(xs + ys) == Sum(xs) + Sum(ys) && SumSquares(xs + ys) == SumSquares(xs) + SumSquares(ys)
    ensures Least(xs + ys, i) == if Least(ys, i) < Least(xs, i) then Least(ys, i) else Least(xs, i)
    ensures Greatest(xs + ys) == if Greatest(ys) > Greatest(xs) then Greatest(ys) else Greatest(xs)
    ensures Count(m, xs + ys, b) == Count(m, xs, b) + Count(m, ys, b)
    ensures Least(xs, i) <= i
  {
    hide *;
    if ys == [] {
      NoSamples(m, i, b);
      LeastBound(xs, i);
      assert xs + ys == xs;
    } else {
      var pre, y := ys[..|ys| - 1], ys[|ys| - 1];
      Concat(m, xs, pre, i, b);
      assert xs + ys == (xs + pre) + [y] && ys == pre + [y];
      Snoc(m, xs + pre, y, b);
      Snoc(m, pre, y, b);
    }
  }

  lemma NoSamples(m: HistogramBucketMapper, i: nat, b: nat)
    requires m.Valid()
    ensures Sum([]) == 0 && SumSquares([]) == 0 && Least([], i) == i && Greatest([]) == 0 && Count(m, [], b) == 0
  {
  }

  lemma {:induction false} LeastBound(xs: seq<nat>, i: nat)
    ensures Least(xs, i) <= i
  {
    if xs != [] {
      LeastBound(xs[..|xs| - 1], i);
    }
  }

  lemma AddMod(a: nat, b: nat)
    ensures (a % U64 + b % U64) % U64 == (a + b) % U64
    ensures (a % U64 + b) % U64 == (a + b) % U64
  {
  }

  /** The counters of a list of samples, wrapped to 64 bits. */
  ghost predicate Summarizes(xs: seq<nat>, last: nat, min: nat, max: nat, num: nat, sum: nat, sumSquares: nat) {
    && min == Least(xs, last) && max == Greatest(xs) && num == |xs| % U64
    && sum == Sum(xs) % U64 && sumSquares == SumSquares(xs) % U64
  }

  ghost predicate Buckets(m: HistogramBucketMapper, xs: seq<nat>, buckets: seq<nat>)
    requires m.Valid()
  {
    |buckets| == |m.bucketValues| && forall b :: 0 <= b < |buckets| ==> buckets[b] == Count(m, xs, b) % U64
  }

  class HistogramStat {
    const mapper: HistogramBucketMapper
    const buckets: array<nat>
    var min: nat
    var max: nat
    var num: nat
    var sum: nat
    var sumSquares: nat

    /** Every sample added or merged in since the last Clear, in order. */
    ghost var samples: seq<nat>

    ghost predicate Valid()
      reads this, buckets
    {
      && mapper.Valid()
      && Summarizes(samples, mapper.maxBucketValue, min, max, num, sum, sumSquares)
      && Buckets(mapper, samples, buckets[..])
    }

    constructor (m: HistogramBucketMapper)
      requires m.Valid()
      ensures Valid() && mapper == m && samples == [] && fresh(buckets)
    {
      mapper := m;
      buckets := new nat[|m.bucketValues|];
      new;
      Clear();
    }

    method Clear()
      requires mapper.Valid() && buckets.Length == |mapper.bucketValues|
      modifies this, buckets
      ensures Valid() && samples == []
    {
      hide HistogramBucketMapper.Valid, HistogramBucketMapper.IndexForValue;
      min, max, num, sum, sumSquares := mapper.maxBucketValue, 0, 0, 0, 0;
      samples := [];
      for b := 0 to buckets.Length
        invariant forall c :: 0 <= c < b ==> buckets[c] == 0
        modifies buckets
      {
        buckets[b] := 0;
      }
    }

    predicate Empty()
      reads this
    {
      num == 0
    }

    /** The state stands for the samples with one more at the end. */
    method Add(value: nat)
      requires Valid() && value < U64
      modifies this, buckets
      ensures Valid() && samples == old(samples) + [value]
    {
      hide HistogramBucketMapper.Valid, HistogramBucketMapper.IndexForValue, Count, Sum, SumSquares, Least, Greatest;
      MapperFacts(mapper, value);
      var index := mapper.IndexForValue(value);
      ghost var was := buckets[..];
      buckets[index] := (buckets[index] + 1) % U64;
      assert buckets[..] == was[index := (was[index] + 1) % U64];
      AddToBuckets(mapper, samples, was, value);
      AddToSummary(mapper, samples, value, mapper.maxBucketValue, num, sum, sumSquares);
      if value < min {
        min := value;
      }
      if value > max {
        max := value;
      }
      num := (num + 1) % U64;
      sum := (sum + value) % U64;
      sumSquares := (sumSquares + value * value) % U64;
      samples := samples + [value];
    }

    /** The state stands for both lists of samples, also when a histogram is merged into itself. */
    method Merge(other: HistogramStat)
      requires Valid() && other.Valid() && other.mapper == mapper
      requires other == this || other.buckets != buckets
      modifies this, buckets
      ensures Valid() && samples == old(samples) + old(other.samples)
    {
      hide HistogramBucketMapper.Valid, HistogramBucketMapper.IndexForValue, Count, Sum, SumSquares, Least, Greatest;
      ghost var was, added := buckets[..], other.buckets[..];
      ghost var xs, ys := samples, other.samples;
      MergeSummary(mapper, xs, ys, mapper.maxBucketValue);
      var otherMin, otherMax := other.min, other.max;
      if otherMin < min {
        min := otherMin;
      }
      if otherMax > max {
        max := otherMax;
      }
      num := (num + other.num) % U64;
      sum := (sum + other.sum) % U64;
      sumSquares := (sumSquares + other.sumSquares) % U64;
      for b := 0 to buckets.Length
        invariant forall c :: 0 <= c < b ==> buckets[c] == (was[c] + added[c]) % U64
        invariant forall c :: b <= c < buckets.Length ==> buckets[c] == was[c]
        invariant other != this ==> other.buckets[..] == added
        modifies buckets
      {
        buckets[b] := (buckets[b] + other.buckets[b]) % U64;
      }
      samples := samples + ys;
      MergeBuckets(mapper, xs, ys, was, added, buckets[..]);
    }

    /** The operands of the division whose square root is the standard deviation. */
    method Variance() returns (numerator: nat, denominator: nat)
      requires Valid()
      ensures |samples| % U64 == 0 ==> numerator == 0 && denominator == 1
      ensures |samples| % U64 != 0 ==>
        && numerator == (|samples| * SumSquares(samples) - Sum(samples) * Sum(samples)) % U64
        && denominator == |samples| * |samples| % U64
    {
      hide HistogramBucketMapper.Valid, HistogramBucketMapper.IndexForValue, Buckets, Sum, SumSquares, Numerator;
      var curNum, curSum, curSumSquares := num, sum, sumSquares;
      if curNum == 0 {
        return 0, 1;
      }
      NumeratorIsExact(samples);
      MulMod(|samples|, |samples|);
      numerator := Numerator(curNum, curSum, curSumSquares);
      denominator := curNum * curNum % U64;
    }

    method Percentile(p: real) returns (r: real)
      requires Valid() && |samples| < U64
      ensures |mapper.bucketValues| == buckets.Length
      ensures r == PercentileOf(mapper.bucketValues, buckets[..], num, min, max, p)
    {
      hide HistogramBucketMapper.Valid, HistogramStat.Valid, AtThreshold, Threshold;
      var threshold := Threshold(num, p);
      r := PercentileAt(threshold);
    }

    /** The bucket in which the cumulative count reaches the threshold, interpolated and clamped to the extremes. */
    method PercentileAt(threshold: real) returns (r: real)
      requires Valid() && |samples| < U64
      ensures |mapper.bucketValues| == buckets.Length
      ensures r == AtThreshold(mapper.bucketValues, buckets[..], threshold, min, max)
    {
      hide HistogramBucketMapper.Valid, HistogramBucketMapper.IndexForValue, Count, Buckets, Cumulative, Reached, Interpolated;
      ghost var counts := buckets[..];
      var limits := mapper.bucketValues;
      BucketsLength(mapper, samples, counts);
      var cumulativeSum := 0;
      CumulativeStarts(counts);
      for b := 0 to buckets.Length
        invariant cumulativeSum == Cumulative(counts, b) && Reached(counts, threshold, 0) == Reached(counts, threshold, b)
      {
        CumulativeIsBelow(mapper, samples, counts, b + 1);
        CumulativeStep(counts, threshold, b);
        var bucketValue := buckets[b];
        cumulativeSum := cumulativeSum + bucketValue;
        assert cumulativeSum < U64;
        if cumulativeSum as real >= threshold {
          r := Interpolate(limits, threshold, b, bucketValue, cumulativeSum, counts);
          if r < min as real {
            r := min as real;
          }
          if r > max as real {
            r := max as real;
          }
          return;
        }
      }
      NeverReached(counts, threshold);
      return max as real;
    }
  }

  lemma CumulativeStarts(counts: seq<nat>)
    ensures Cumulative(counts, 0) == 0
  {
  }

  lemma CumulativeStep(counts: seq<nat>, threshold: real, b: nat)
    requires b < |counts|
    ensures Cumulative(counts, b + 1) == Cumulative(counts, b) + counts[b]
    ensures Reached(counts, threshold, b)
         == if Cumulative(counts, b + 1) as real >= threshold then b else Reached(counts, threshold, b + 1)
  {
  }

  lemma NeverReached(counts: seq<nat>, threshold: real)
    ensures Reached(counts, threshold, |counts|) == |counts|
  {
  }

  /** Scales linearly within bucket b. */
  method Interpolate(limits: seq<nat>, threshold: real, b: nat, bucketValue: nat, cumulativeSum: nat, ghost counts: seq<nat>)
    returns (r: real)
    requires b < |limits| == |counts| && bucketValue == counts[b] && cumulativeSum == Cumulative(counts, b) + bucketValue
    ensures r == Interpolated(limits, counts, threshold, b)
  {
    hide Cumulative;
    var leftPoint: int := if b == 0 then 0 else limits[b - 1];
    var rightPoint: int := limits[b];
    var leftSum := cumulativeSum - bucketValue;
    var rightSum := cumulativeSum;
    var pos := 0.0;
    var rightLeftDiff := rightSum - leftSum;
    if rightLeftDiff != 0 {
      pos := (threshold - leftSum as real) / rightLeftDiff as real;
    }
    r := leftPoint as real + (rightPoint - leftPoint) as real * pos;
  }

  lemma MergeBuckets(m: HistogramBucketMapper, xs: seq<nat>, ys: seq<nat>, was: seq<nat>, other: seq<nat>, now: seq<nat>)
    requires m.Valid() && Buckets(m, xs, was) && Buckets(m, ys, other)
    requires |now| == |was| && forall b :: 0 <= b < |was| ==> now[b] == (was[b] + other[b]) % U64
    ensures Buckets(m, xs + ys, now)
  {
    hide HistogramBucketMapper.Valid, HistogramBucketMapper.IndexForValue, Count, Sum, SumSquares, Least, Greatest;
    forall b | 0 <= b < |now|
      ensures now[b] == Count(m, xs + ys, b) % U64
    {
      Concat(m, xs, ys, 0, b);
      AddMod(Count(m, xs, b), Count(m, ys, b));
    }
  }

  lemma MergeSummary(m: HistogramBucketMapper, xs: seq<nat>, ys: seq<nat>, last: nat)
    requires m.Valid()
    ensures Least(xs + ys, last) == if Least(ys, last) < Least(xs, last) then Least(ys, last) else Least(xs, last)
    ensures Greatest(xs + ys) == if Greatest(ys) > Greatest(xs) then Greatest(ys) else Greatest(xs)
    ensures (|xs| % U64 + |ys| % U64) % U64 == |xs + ys| % U64
    ensures (Sum(xs) % U64 + Sum(ys) % U64) % U64 == Sum(xs + ys) % U64
    ensures (SumSquares(xs) % U64 + SumSquares(ys) % U64) % U64 == SumSquares(xs + ys) % U64
  {
    hide HistogramBucketMapper.Valid, HistogramBucketMapper.IndexForValue, Count, Sum, SumSquares, Least, Greatest;
    Concat(m, xs, ys, last, 0);
    AddMod(|xs|, |ys|);
    AddMod(Sum(xs), Sum(ys));
    AddMod(SumSquares(xs), SumSquares(ys));
  }

  lemma MapperFacts(m: HistogramBucketMapper, value: nat)
    requires m.Valid()
    ensures 0 <= m.IndexForValue(value) < |m.bucketValues|
  {
  }

  lemma AddToBuckets(m: HistogramBucketMapper, xs: seq<nat>, was: seq<nat>, value: nat)
    requires m.Valid() && Buckets(m, xs, was)
    ensures 0 <= m.IndexForValue(value) < |was|
    ensures var index := m.IndexForValue(value);
      Buckets(m, xs + [value], was[index := (was[index] + 1) % U64])
  {
    hide HistogramBucketMapper.Valid, HistogramBucketMapper.IndexForValue, Count, Sum, SumSquares, Least, Greatest;
    MapperFacts(m, value);
    var index := m.IndexForValue(value);
    var now := was[index := (was[index] + 1) % U64];
    forall b | 0 <= b < |now|
      ensures now[b] == Count(m, xs + [value], b) % U64
    {
      Snoc(m, xs, value, b);
      AddMod(Count(m, xs, b), 1);
    }
  }

  lemma AddToSummary(m: HistogramBucketMapper, xs: seq<nat>, value: nat, last: nat, num: nat, sum: nat, sumSquares: nat)
    requires m.Valid() && num == |xs| % U64 && sum == Sum(xs) % U64 && sumSquares == SumSquares(xs) % U64
    ensures Least(xs + [value], last) == if value < Least(xs, last) then value else Least(xs, last)
    ensures Greatest(xs + [value]) == if value > Greatest(xs) then value else Greatest(xs)
    ensures (num + 1) % U64 == |xs + [value]| % U64 && (sum + value) % U64 == Sum(xs + [value]) % U64
    ensures (sumSquares + value * value) % U64 == SumSquares(xs + [value]) % U64
  {
    hide HistogramBucketMapper.Valid, HistogramBucketMapper.IndexForValue, Count, Sum, SumSquares, Least, Greatest;
    Snoc(m, xs, value, 0);
    AddMod(|xs|, 1);
    AddMod(Sum(xs), value);
    AddMod(SumSquares(xs), value * value);
  }

  /** How many samples fall into the first b buckets. */
  function Below(m: HistogramBucketMapper, xs: seq<nat>, b: nat): nat
    requires m.Valid()
  {
    if xs == [] then 0 else Below(m, xs[..|xs| - 1], b) + if m.IndexForValue(xs[|xs| - 1]) < b then 1 else 0
  }

  lemma {:induction false} BelowNext(m: HistogramBucketMapper, xs: seq<nat>, b: nat)
    requires m.Valid()
    ensures Below(m, xs, 0) == 0 && Below(m, xs, b + 1) == Below(m, xs, b) + Count(m, xs, b)
    ensures Below(m, xs, b) <= |xs| && Count(m, xs, b) <= |xs|
    ensures b >= |m.bucketValues| ==> Below(m, xs, b) == |xs|
  {
    hide HistogramBucketMapper.Valid, HistogramBucketMapper.IndexForValue;
    if xs != [] {
      MapperFacts(m, xs[|xs| - 1]);
      BelowNext(m, xs[..|xs| - 1], b);
    }
  }

  lemma UnwrappedBuckets(m: HistogramBucketMapper, xs: seq<nat>, buckets: seq<nat>, b: nat)
    requires m.Valid() && |xs| < U64 && Buckets(m, xs, buckets) && b < |buckets|
    ensures buckets[b] == Count(m, xs, b)
  {
    hide HistogramBucketMapper.Valid, HistogramBucketMapper.IndexForValue, Count, Below;
    BelowNext(m, xs, b);
  }

  /** Without overflow the cumulative counts are those of the samples, and all of them are counted once. */
  lemma {:induction false} CumulativeIsBelow(m: HistogramBucketMapper, xs: seq<nat>, buckets: seq<nat>, b: nat)
    requires m.Valid() && |xs| < U64 && Buckets(m, xs, buckets) && b <= |buckets|
    ensures Cumulative(buckets, b) == Below(m, xs, b) <= |xs|
    ensures Cumulative(buckets, b) == |xs| || b < |buckets|
  {
    hide HistogramBucketMapper.Valid, HistogramBucketMapper.IndexForValue, Count, Below, Buckets;
    BucketsLength(m, xs, buckets);
    BelowNext(m, xs, b);
    if b > 0 {
      CumulativeIsBelow(m, xs, buckets, b - 1);
      UnwrappedBuckets(m, xs, buckets, b - 1);
      BelowNext(m, xs, b - 1);
    }
  }

  lemma BucketsLength(m: HistogramBucketMapper, xs: seq<nat>, buckets: seq<nat>)
    requires m.Valid() && Buckets(m, xs, buckets)
    ensures |buckets| == |m.bucketValues|
  {
  }

  /** The samples smaller than x, and those at most x. */
  function Smaller(xs: seq<nat>, x: nat): nat {
    if xs == [] then 0 else Smaller(xs[..|xs| - 1], x) + if xs[|xs| - 1] < x then 1 else 0
  }

  function AtMost(xs: seq<nat>, x: nat): nat {
    if xs == [] then 0 else AtMost(xs[..|xs| - 1], x) + if xs[|xs| - 1] <= x then 1 else 0
  }

  /** x is the sample at position rank, counted from one, when the samples are sorted. */
  predicate IsRanked(xs: seq<nat>, rank: nat, x: nat) {
    Smaller(xs, x) < rank <= AtMost(xs, x)
  }

  lemma IndexIsMonotone(m: HistogramBucketMapper, x: nat, y: nat)
    requires m.Valid() && x <= y
    ensures 0 <= m.IndexForValue(x) <= m.IndexForValue(y)
  {
    BucketsFollow(m.bucketValues, m.IndexForValue(x), m.IndexForValue(y), x as real, y as real);
  }

  lemma {:induction false} RankBounds(m: HistogramBucketMapper, xs: seq<nat>, x: nat)
    requires m.Valid()
    ensures var b := m.IndexForValue(x); 0 <= b && Below(m, xs, b) <= Smaller(xs, x) && AtMost(xs, x) <= Below(m, xs, b + 1)
  {
    hide HistogramBucketMapper.Valid, HistogramBucketMapper.IndexForValue;
    MapperFacts(m, x);
    if xs != [] {
      var y := xs[|xs| - 1];
      RankBounds(m, xs[..|xs| - 1], x);
      if x <= y {
        IndexIsMonotone(m, x, y);
      }
      if y <= x {
        IndexIsMonotone(m, y, x);
      }
    }
  }

  lemma {:induction false} RankedIsSample(xs: seq<nat>, x: nat, initial: nat)
    ensures Smaller(xs, x) < AtMost(xs, x) ==> Least(xs, initial) <= x <= Greatest(xs)
    ensures Least(xs, initial) <= initial
  {
    if xs != [] {
      RankedIsSample(xs[..|xs| - 1], x, initial);
    }
  }

  lemma ClampedInBucket(limits: seq<nat>, b: nat, x: nat, r: real, min: nat, max: nat)
    requires b < |limits| && LeftPoint(limits, b) <= limits[b] && InBucket(limits, b, x as real)
    requires min <= x <= max && min <= limits[|limits| - 1]
    requires LeftPoint(limits, b) as real < r <= limits[b] as real
    ensures InBucket(limits, b, Clamped(r, min as real, max as real))
  {
  }

  /** The threshold of a percentage that asks for the given rank is reached in the bucket of the sample of that rank. */
  lemma ReachedAtRank(m: HistogramBucketMapper, xs: seq<nat>, buckets: seq<nat>, threshold: real, rank: nat, x: nat)
    requires m.Valid() && |xs| < U64 && Buckets(m, xs, buckets)
    requires rank > 0 && (rank - 1) as real < threshold <= rank as real && IsRanked(xs, rank, x)
    ensures var b := m.IndexForValue(x);
      && 0 <= b < |buckets| && b == Reached(buckets, threshold, 0)
      && Cumulative(buckets, b) as real < threshold <= Cumulative(buckets, b + 1) as real
  {
    hide HistogramBucketMapper.Valid, HistogramBucketMapper.IndexForValue, Buckets, Reached;
    MapperFacts(m, x);
    BucketsLength(m, xs, buckets);
    var b, r := m.IndexForValue(x), Reached(buckets, threshold, 0);
    RankBounds(m, xs, x);
    CumulativeIsBelow(m, xs, buckets, b);
    CumulativeIsBelow(m, xs, buckets, b + 1);
    if r < b {
      CumulativeGrows(buckets, r + 1, b);
    }
  }

  lemma ThresholdInRankBucket(m: HistogramBucketMapper, xs: seq<nat>, buckets: seq<nat>, threshold: real, rank: nat, x: nat)
    requires m.Valid() && |xs| < U64 && Buckets(m, xs, buckets)
    requires rank > 0 && (rank - 1) as real < threshold <= rank as real && IsRanked(xs, rank, x)
    ensures 0 <= m.IndexForValue(x) && |m.bucketValues| == |buckets|
    ensures InBucket(m.bucketValues, m.IndexForValue(x),
                     AtThreshold(m.bucketValues, buckets, threshold, Least(xs, m.maxBucketValue), Greatest(xs)))
  {
    hide HistogramBucketMapper.Valid, HistogramBucketMapper.IndexForValue, Buckets, Reached, Interpolated, LeftPoint,
         Clamped, Increasing, InBucket, Cumulative;
    BucketsLength(m, xs, buckets);
    ValidFacts(m, x);
    var b := m.IndexForValue(x);
    ReachedAtRank(m, xs, buckets, threshold, rank, x);
    PointsOrdered(m.bucketValues, b);
    InterpolatedInBucket(m.bucketValues, buckets, threshold, b);
    RankedIsSample(xs, x, m.maxBucketValue);
    ClampedInBucket(m.bucketValues, b, x, Interpolated(m.bucketValues, buckets, threshold, b),
                    Least(xs, m.maxBucketValue), Greatest(xs));
  }

  lemma ValidFacts(m: HistogramBucketMapper, x: nat)
    requires m.Valid()
    ensures |m.bucketValues| >= 2 && Increasing(m.bucketValues) && m.bucketValues[0] == 1
    ensures m.maxBucketValue == m.bucketValues[|m.bucketValues| - 1]
    ensures 0 <= m.IndexForValue(x) && InBucket(m.bucketValues, m.IndexForValue(x), x as real)
  {
  }

  /** The percentage asks for the sample of this rank. */
  predicate AsksFor(n: nat, p: real, rank: nat) {
    100.0 * (rank - 1) as real < n as real * p <= 100.0 * rank as real
  }

  lemma ThresholdIs(n: nat, p: real)
    ensures 100.0 * Threshold(n, p) == n as real * p
  {
    assert 100.0 * (p / 100.0) == p;
  }

  /** Each percentage above 0 and up to 100 asks for a rank, ... */
  lemma SomeRankAsked(n: nat, p: real) returns (rank: nat)
    requires n > 0 && 0.0 < p <= 100.0
    ensures 1 <= rank <= n && AsksFor(n, p, rank)
  {
    ThresholdIs(n, p);
    var t := Threshold(n, p);
    ScaledPercentage(n, p);
    hide Threshold;
    assert 0.0 < t <= n as real;
    rank := if t.Floor as real == t then t.Floor else t.Floor + 1;
  }

  lemma ScaledPercentage(n: nat, p: real)
    requires n > 0 && 0.0 < p <= 100.0
    ensures 0.0 < n as real * p <= 100.0 * n as real
  {
  }

  lemma {:induction false} AtMostIsSmaller(xs: seq<nat>, x: nat, y: nat)
    ensures AtMost(xs, x) == Smaller(xs, x + 1) && Smaller(xs, 0) == 0
    ensures x < y ==> AtMost(xs, x) <= Smaller(xs, y)
    ensures Greatest(xs) <= x ==> AtMost(xs, x) == |xs|
  {
    if xs != [] {
      AtMostIsSmaller(xs[..|xs| - 1], x, y);
    }
  }

  /** ... there is a sample of each rank from one to the number of samples, ... */
  lemma {:induction false} SomeRanked(xs: seq<nat>, rank: nat, bound: nat) returns (x: nat)
    requires 1 <= rank <= AtMost(xs, bound)
    ensures IsRanked(xs, rank, x) && x <= bound
    decreases bound
  {
    AtMostIsSmaller(xs, bound, bound);
    if bound > 0 {
      AtMostIsSmaller(xs, bound - 1, bound);
    }
    if bound > 0 && AtMost(xs, bound - 1) >= rank {
      x := SomeRanked(xs, rank, bound - 1);
    } else {
      x := bound;
    }
  }

  /** ... and only one value has it. */
  lemma RankIsUnique(xs: seq<nat>, rank: nat, x: nat, y: nat)
    requires IsRanked(xs, rank, x) && IsRanked(xs, rank, y)
    ensures x == y
  {
    AtMostIsSmaller(xs, x, y);
    AtMostIsSmaller(xs, y, x);
  }

  /** For 0 < p <= 100 the percentile lies in the bucket of the sample of that rank; the last bucket has no upper end. */
  lemma PercentileIsInRankBucket(m: HistogramBucketMapper, xs: seq<nat>, buckets: seq<nat>, p: real, rank: nat, x: nat)
    requires m.Valid() && |xs| < U64 && Buckets(m, xs, buckets)
    requires rank > 0 && AsksFor(|xs|, p, rank) && IsRanked(xs, rank, x)
    ensures 0 <= m.IndexForValue(x) && |m.bucketValues| == |buckets|
    ensures InBucket(m.bucketValues, m.IndexForValue(x),
                     PercentileOf(m.bucketValues, buckets, |xs|, Least(xs, m.maxBucketValue), Greatest(xs), p))
  {
    ThresholdIs(|xs|, p);
    hide HistogramBucketMapper.Valid, HistogramBucketMapper.IndexForValue, Buckets, AtThreshold, InBucket, IsRanked, Threshold;
    ThresholdInRankBucket(m, xs, buckets, Threshold(|xs|, p), rank, x);
  }

  /** Every percentage above 0 and up to 100 of a histogram with samples lies in the bucket of one of them, that of its rank. */
  lemma PercentileHasSample(m: HistogramBucketMapper, xs: seq<nat>, buckets: seq<nat>, p: real) returns (rank: nat, x: nat)
    requires m.Valid() && 0 < |xs| < U64 && Buckets(m, xs, buckets) && 0.0 < p <= 100.0
    ensures 1 <= rank <= |xs| && AsksFor(|xs|, p, rank) && IsRanked(xs, rank, x)
    ensures 0 <= m.IndexForValue(x) && |m.bucketValues| == |buckets|
    ensures InBucket(m.bucketValues, m.IndexForValue(x),
                     PercentileOf(m.bucketValues, buckets, |xs|, Least(xs, m.maxBucketValue), Greatest(xs), p))
  {
    hide HistogramBucketMapper.Valid, HistogramBucketMapper.IndexForValue, Buckets, PercentileOf, InBucket, IsRanked, AsksFor,
         Greatest;
    rank := SomeRankAsked(|xs|, p);
    AtMostIsSmaller(xs, Greatest(xs), 0);
    x := SomeRanked(xs, rank, Greatest(xs));
    PercentileIsInRankBucket(m, xs, buckets, p, rank, x);
  }

  /**
    With `below` samples in the buckets before b and `inside` in it: r divides the bucket's width as num * p / 100
    divides the samples inside.
   */
  predicate Divides(limits: seq<nat>, b: nat, below: nat, inside: nat, num: nat, p: real, r: real)
    requires b < |limits|
  {
    var left, right := if b == 0 then 0 else limits[b - 1], limits[b];
    && inside > 0
    && (r - left as real) * (100.0 * inside as real) == (right as real - left as real) * (num as real * p - 100.0 * below as real)
  }

  /** The value of a percentile: that division of the bucket, kept between the smallest and the largest sample. */
  lemma PercentileValue(m: HistogramBucketMapper, xs: seq<nat>, buckets: seq<nat>, p: real, rank: nat, x: nat) returns (r: real)
    requires m.Valid() && |xs| < U64 && Buckets(m, xs, buckets)
    requires rank > 0 && AsksFor(|xs|, p, rank) && IsRanked(xs, rank, x)
    ensures 0 <= m.IndexForValue(x) < |m.bucketValues| == |buckets|
    ensures var b := m.IndexForValue(x); Divides(m.bucketValues, b, Below(m, xs, b), Count(m, xs, b), |xs|, p, r)
    ensures var least, greatest := Least(xs, m.maxBucketValue) as real, Greatest(xs) as real;
      PercentileOf(m.bucketValues, buckets, |xs|, Least(xs, m.maxBucketValue), Greatest(xs), p)
        == if r < least then least else if r > greatest then greatest else r
  {
    hide *;
    var b := RankBucket(m, xs, buckets, p, rank, x);
    RankHasExtremes(xs, rank, x, m.maxBucketValue);
    ThresholdIs(|xs|, p);
    r := ValueAt(m.bucketValues, buckets, |xs|, p, b, Below(m, xs, b), Least(xs, m.maxBucketValue), Greatest(xs));
  }

  lemma RankHasExtremes(xs: seq<nat>, rank: nat, x: nat, initial: nat)
    requires IsRanked(xs, rank, x)
    ensures Least(xs, initial) <= x <= Greatest(xs)
  {
    RankedIsSample(xs, x, initial);
  }

  lemma PercentileIs(limits: seq<nat>, counts: seq<nat>, num: nat, min: nat, max: nat, p: real)
    requires |limits| == |counts|
    ensures PercentileOf(limits, counts, num, min, max, p) == AtThreshold(limits, counts, Threshold(num, p), min, max)
  {
  }

  /** The bucket of the sample of the rank asked for, in terms of the samples and of the counts. */
  lemma RankBucket(m: HistogramBucketMapper, xs: seq<nat>, buckets: seq<nat>, p: real, rank: nat, x: nat) returns (b: nat)
    requires m.Valid() && |xs| < U64 && Buckets(m, xs, buckets)
    requires rank > 0 && AsksFor(|xs|, p, rank) && IsRanked(xs, rank, x)
    ensures b == m.IndexForValue(x) < |m.bucketValues| == |buckets| && b == Reached(buckets, Threshold(|xs|, p), 0)
    ensures Cumulative(buckets, b) == Below(m, xs, b) && buckets[b] == Count(m, xs, b) > 0
  {
    ThresholdIs(|xs|, p);
    hide HistogramBucketMapper.Valid, HistogramBucketMapper.IndexForValue, Buckets, Reached, Cumulative, Threshold, Count, Below,
         IsRanked;
    ReachedAtRank(m, xs, buckets, Threshold(|xs|, p), rank, x);
    BucketsLength(m, xs, buckets);
    b := m.IndexForValue(x);
    CumulativeIsBelow(m, xs, buckets, b);
    CumulativeIsBelow(m, xs, buckets, b + 1);
    BelowNext(m, xs, b);
    UnwrappedBuckets(m, xs, buckets, b);
  }

  lemma ValueAt(limits: seq<nat>, counts: seq<nat>, num: nat, p: real, b: nat, below: nat, min: nat, max: nat) returns (r: real)
    requires b < |limits| == |counts| && b == Reached(counts, Threshold(num, p), 0) && counts[b] > 0
    requires below == Cumulative(counts, b) && min <= max
    ensures Divides(limits, b, below, counts[b], num, p, r)
    ensures PercentileOf(limits, counts, num, min, max, p)
         == if r < min as real then min as real else if r > max as real then max as real else r
  {
    ThresholdIs(num, p);
    hide Reached, Cumulative, Threshold;
    var t := Threshold(num, p);
    r := Interpolated(limits, counts, t, b);
    var left := LeftPoint(limits, b);
    InterpolationShare(left as real, limits[b] as real - left as real, t, below as real, counts[b] as real);
  }

  lemma InterpolationShare(left: real, width: real, t: real, below: real, inside: real)
    requires inside > 0.0
    ensures (left + width * ((t - below) / inside) - left) * (100.0 * inside) == width * (100.0 * t - 100.0 * below)
  {
    var pos := (t - below) / inside;
    assert pos * inside == t - below;
    assert width * pos * (100.0 * inside) == width * (100.0 * (pos * inside));
  }

  /** Outside that range: the smallest sample up to 0, the largest above 100, and 0 without samples. */
  lemma PercentileAtEnds(m: HistogramBucketMapper, xs: seq<nat>, buckets: seq<nat>, p: real)
    requires m.Valid() && |xs| < U64 && Buckets(m, xs, buckets)
    ensures |m.bucketValues| == |buckets|
    ensures var r := PercentileOf(m.bucketValues, buckets, |xs|, Least(xs, m.maxBucketValue), Greatest(xs), p);
      && (xs == [] ==> r == 0.0)
      && (xs != [] && p <= 0.0 ==> r == Least(xs, m.maxBucketValue) as real)
      && (xs != [] && p > 100.0 ==> r == Greatest(xs) as real)
  {
    BucketsLength(m, xs, buckets);
    LeastIsAtMostGreatest(xs, m.maxBucketValue);
    NoSamplesNoExtremes(xs, m.maxBucketValue);
    ValidFacts(m, 0);
    hide *;
    PercentileIs(m.bucketValues, buckets, |xs|, Least(xs, m.maxBucketValue), Greatest(xs), p);
    if xs == [] || p <= 0.0 {
      LowThreshold(|xs|, p);
      FirstBucket(m, xs, buckets);
      AtLowThreshold(m.bucketValues, buckets, Threshold(|xs|, p), Least(xs, m.maxBucketValue), Greatest(xs));
    } else if p > 100.0 {
      HighThreshold(|xs|, p);
      AtHighThreshold(m, xs, buckets, Threshold(|xs|, p), Least(xs, m.maxBucketValue));
    }
  }

  lemma NoSamplesNoExtremes(xs: seq<nat>, last: nat)
    ensures xs == [] ==> Least(xs, last) == last && Greatest(xs) == 0
  {
  }

  lemma LowThreshold(n: nat, p: real)
    requires n == 0 || p <= 0.0
    ensures Threshold(n, p) <= 0.0 && (n == 0 ==> Threshold(n, p) == 0.0)
  {
    ThresholdIs(n, p);
    hide Threshold;
    NotAbove(n, p);
  }

  lemma HighThreshold(n: nat, p: real)
    requires n > 0 && p > 100.0
    ensures Threshold(n, p) > n as real
  {
    ThresholdIs(n, p);
    hide Threshold;
    AboveAll(n, p);
  }

  lemma FirstBucket(m: HistogramBucketMapper, xs: seq<nat>, buckets: seq<nat>)
    requires m.Valid() && |xs| < U64 && Buckets(m, xs, buckets)
    ensures |buckets| > 0 && (xs == [] ==> buckets[0] == 0)
  {
    hide HistogramBucketMapper.IndexForValue;
    BucketsLength(m, xs, buckets);
    NoSamples(m, 0, 0);
    UnwrappedBuckets(m, xs, buckets, 0);
  }

  lemma AtLowThreshold(limits: seq<nat>, counts: seq<nat>, t: real, min: nat, max: nat)
    requires |limits| == |counts| > 0 && t <= 0.0
    ensures min <= max ==> AtThreshold(limits, counts, t, min, max) == min as real
    ensures max == 0 && t == 0.0 && counts[0] == 0 ==> AtThreshold(limits, counts, t, min, max) == 0.0
  {
    CumulativeStarts(counts);
    CumulativeStep(counts, t, 0);
    InterpolatedLow(limits, counts, t);
    hide Interpolated, Cumulative, Reached;
  }

  lemma AtHighThreshold(m: HistogramBucketMapper, xs: seq<nat>, buckets: seq<nat>, t: real, min: nat)
    requires m.Valid() && |xs| < U64 && Buckets(m, xs, buckets) && t > |xs| as real && |m.bucketValues| == |buckets|
    ensures AtThreshold(m.bucketValues, buckets, t, min, Greatest(xs)) == Greatest(xs) as real
  {
    hide HistogramBucketMapper.Valid, HistogramBucketMapper.IndexForValue, Buckets, Cumulative, Interpolated, Greatest;
    var b := Reached(buckets, t, 0);
    if b < |buckets| {
      CumulativeIsBelow(m, xs, buckets, b + 1);
    }
  }

  lemma {:induction false} LeastIsAtMostGreatest(xs: seq<nat>, initial: nat)
    ensures xs != [] ==> Least(xs, initial) <= Greatest(xs)
  {
    if |xs| > 1 {
      LeastIsAtMostGreatest(xs[..|xs| - 1], initial);
    }
  }

  lemma NotAbove(n: nat, p: real)
    requires n == 0 || p <= 0.0
    ensures n as real * p <= 0.0 && (n == 0 ==> n as real * p == 0.0)
  {
  }

  lemma AboveAll(n: nat, p: real)
    requires n > 0 && p > 100.0
    ensures n as real * p > 100.0 * n as real
  {
  }

  /** A threshold of zero or less interpolates to at most the left end of the first bucket. */
  lemma InterpolatedLow(limits: seq<nat>, counts: seq<nat>, t: real)
    requires |limits| == |counts| > 0 && t <= 0.0 && Cumulative(counts, 0) == 0
    ensures Interpolated(limits, counts, t, 0) <= 0.0
    ensures counts[0] == 0 ==> Interpolated(limits, counts, t, 0) == 0.0
  {
    hide Cumulative;
    if counts[0] > 0 {
      var x, n := t - Cumulative(counts, 0) as real, counts[0] as real;
      var pos := x / n;
      assert pos * n == x;
      assert pos <= 0.0;
      assert limits[0] as real * pos <= 0.0;
    }
  }

  lemma {:induction false} DeviationsAreNonnegative(xs: seq<nat>, x: nat)
    ensures SumSquares(xs) - 2 * (Sum(xs) * x) + |xs| * (x * x) >= 0
  {
    if xs != [] {
      var pre, y := xs[..|xs| - 1], xs[|xs| - 1];
      var q, s, n := SumSquares(xs), Sum(xs), |xs|;
      assert q == SumSquares(pre) + y * y && s == Sum(pre) + y;
      DeviationsAreNonnegative(pre, x);
      hide *;
      DeviationStep(SumSquares(pre), Sum(pre), |pre|, x, y);
    }
  }

  lemma DeviationStep(q: nat, s: nat, n: nat, x: nat, y: nat)
    requires q - 2 * (s * x) + n * (x * x) >= 0
    ensures q + y * y - 2 * ((s + y) * x) + (n + 1) * (x * x) >= 0
  {
    SquareOfDifference(x, y);
    assert (s + y) * x == s * x + y * x;
    assert (n + 1) * (x * x) == n * (x * x) + x * x;
  }

  lemma SquareOfDifference(x: int, y: int)
    ensures y * y - 2 * (y * x) + x * x >= 0
  {
    assert (y - x) * (y - x) >= 0;
  }

  lemma CauchyStep(n: nat, q: nat, s: nat, x: nat)
    requires n * q >= s * s && q - 2 * (s * x) + n * (x * x) >= 0
    ensures (n + 1) * (q + x * x) >= (s + x) * (s + x)
  {
    assert (n + 1) * (q + x * x) == n * q + n * (x * x) + q + x * x;
    assert (s + x) * (s + x) == s * s + 2 * (s * x) + x * x;
  }

  /** The number of samples times the sum of their squares is never below the square of their sum. */
  lemma {:induction false} VarianceIsNonnegative(xs: seq<nat>)
    ensures |xs| * SumSquares(xs) >= Sum(xs) * Sum(xs)
  {
    if xs != [] {
      var pre, x := xs[..|xs| - 1], xs[|xs| - 1];
      VarianceIsNonnegative(pre);
      DeviationsAreNonnegative(pre, x);
      CauchyStep(|pre|, SumSquares(pre), Sum(pre), x);
    }
  }

  /** num * sumSquares - sum * sum in unsigned 64-bit arithmetic. */
  function Numerator(num: nat, sum: nat, sumSquares: nat): nat {
    (sumSquares * num % U64 - sum * sum % U64) % U64
  }

  lemma MulMod(a: nat, b: nat)
    ensures a % U64 * (b % U64) % U64 == a * b % U64
  {
    var p, r, q, s := a / U64, a % U64, b / U64, b % U64;
    SplitProduct(p, r, q, s, U64);
    assert a == p * U64 + r && b == q * U64 + s;
    var multiple, rest := p * b + r * q, r * s;
    assert a * b == multiple * U64 + rest;
    hide *;
    AddMultiple(multiple, rest);
  }

  lemma SplitProduct(p: nat, r: nat, q: nat, s: nat, u: nat)
    ensures (p * u + r) * (q * u + s) == (p * (q * u + s) + r * q) * u + r * s
  {
    var b := q * u + s;
    assert (p * u + r) * b == p * u * b + r * b;
    assert p * u * b == p * b * u;
    assert r * b == r * q * u + r * s by { assert r * (q * u) == r * q * u; }
    assert (p * b + r * q) * u == p * b * u + r * q * u;
  }

  lemma AddMultiple(multiple: nat, rest: nat)
    ensures (multiple * U64 + rest) % U64 == rest % U64
  {
  }

  lemma SubMod(a: nat, b: nat)
    ensures (a % U64 - b % U64) % U64 == (a - b) % U64
  {
  }

  /** The wrapped counters give the true numerator exactly when that fits in 64 bits, which it does unless it is too large. */
  lemma NumeratorIsExact(xs: seq<nat>)
    ensures var n := |xs| * SumSquares(xs) - Sum(xs) * Sum(xs);
      && n >= 0
      && Numerator(|xs| % U64, Sum(xs) % U64, SumSquares(xs) % U64) == n % U64
      && (Numerator(|xs| % U64, Sum(xs) % U64, SumSquares(xs) % U64) == n <==> n < U64)
  {
    VarianceIsNonnegative(xs);
    hide *;
    NumeratorWraps(|xs|, Sum(xs), SumSquares(xs));
  }

  lemma NumeratorWraps(n: nat, s: nat, q: nat)
    requires n * q >= s * s
    ensures Numerator(n % U64, s % U64, q % U64) == (n * q - s * s) % U64
    ensures Numerator(n % U64, s % U64, q % U64) == n * q - s * s <==> n * q - s * s < U64
  {
    var a, b := q * n, s * s;
    assert n * q == a;
    assert q % U64 * (n % U64) % U64 == a % U64 by { MulMod(q, n); }
    assert s % U64 * (s % U64) % U64 == b % U64 by { MulMod(s, s); }
    assert Numerator(n % U64, s % U64, q % U64) == (a % U64 - b % U64) % U64;
    hide *;
    SubMod(a, b);
    FitsUnchanged(a - b);
  }

  /** The wrapped square of the number of samples is exact for fewer than 2^32 samples only. */
  lemma DenominatorIsExact(n: nat)
    ensures n % U64 * (n % U64) % U64 == n * n <==> n < 0x1_0000_0000
  {
    var q := n * n;
    assert n % U64 * (n % U64) % U64 == q % U64 by { MulMod(n, n); }
    assert q < U64 <==> n < 0x1_0000_0000 by { SquareFits(n); }
    FitsUnchanged(q);
  }

  lemma FitsUnchanged(n: nat)
    ensures n % U64 == n <==> n < U64
  {
  }

  lemma SquareFits(n: nat)
    ensures n * n < U64 <==> n < 0x1_0000_0000
  {
    if n < 0x1_0000_0000 {
      OrderedProducts(n, 0xFFFF_FFFF, n);
    } else {
      OrderedProducts(0x1_0000_0000, n, n);
    }
  }
}
