/** grisu2_gen_digits: the shortest run of leading digits of a fixed-point number that stays within delta below it. */
module GrisuDigits {
  import opened Arithmetic
  import opened FloatingPoint
  import opened Decimal
  import opened CountDigits
  import DecimalFormatter

  /** 10^k in the fixed-point units of one, or one itself for the digits behind the point ... */
  function Unit(k: int, one: nat): nat {
    if k >= 0 then Pow10(k) * one else one
  }

  /** ... which are compared after scaling by a power of ten instead. */
  function Scale(k: int): nat {
    if k >= 0 then 1 else Pow10(-k)
  }

  /** What is left of su below the digit of weight 10^k, scaled. */
  function Rest(su: nat, one: nat, k: int): nat
    requires one > 0
  {
    su * Scale(k) % Unit(k, one)
  }

  /** The exit condition of the two loops after the digit of weight 10^k. */
  predicate StopsAt(su: nat, delta: nat, one: nat, k: int)
    requires one > 0
  {
    if k >= 0 then Rest(su, one, k) <= delta else Rest(su, one, k) < delta * Scale(k)
  }

  /** m * 10^k lies in the interval from su - delta, excluded, to su, included. */
  predicate Inside(m: nat, su: nat, delta: nat, one: nat, k: int) {
    (su - delta) * Scale(k) < m * Unit(k, one) <= su * Scale(k)
  }

  /** The digits at which the generation stops denote a number within delta below su. */
  lemma StopIsInInterval(su: nat, delta: nat, one: nat, k: int)
    requires one > 0 && StopsAt(su, delta, one, k)
    ensures var d := su * Scale(k) / Unit(k, one);
      (su - delta) * Scale(k) <= d * Unit(k, one) <= su * Scale(k)
  {
    DivBounds(su * Scale(k), Unit(k, one));
    assert (su - delta) * Scale(k) == su * Scale(k) - delta * Scale(k);
  }

  lemma MultipleBelow(m: nat, a: nat, u: nat)
    requires u > 0 && m * u <= a
    ensures m * u <= a - a % u
  {
    DivBounds(a, u);
    if m > a / u {
      OrderedProducts(a / u + 1, m, u);
    }
  }

  /** While the generation does not stop, no number with so few digits lies in the interval. */
  lemma NothingInside(su: nat, delta: nat, one: nat, k: int, m: nat)
    requires one > 0 && m > 0
    requires !StopsAt(su, delta, one, k) || su * Scale(k) < Unit(k, one)
    ensures !Inside(m, su, delta, one, k)
  {
    assert (su - delta) * Scale(k) == su * Scale(k) - delta * Scale(k);
    if Inside(m, su, delta, one, k) {
      MultipleBelow(m, su * Scale(k), Unit(k, one));
      OrderedProducts(1, m, Unit(k, one));
    }
  }

  /** The digits of a number as the buffer shows them, which is empty for zero. */
  function Shown(v: nat): string
    ensures v > 0 ==> AreDigits(Digits(v)) && Shown(v) == Text(Digits(v))
  {
    if v == 0 then "" else assert AreDigits(Digits(v)) by { DigitsDenote(v); } Text(Digits(v))
  }

  lemma ShowDigit(v: nat, d: nat)
    requires d < 10
    ensures Shown(10 * v + d) == if v == 0 && d == 0 then "" else Shown(v) + [DigitChar(d)]
  {
    if v > 0 {
      assert Digits(10 * v + d) == Digits(v) + [d];
      DigitsDenote(v);
    }
  }

  lemma ShownLength(v: nat)
    ensures Shown(v) == "" <==> v == 0
  {
  }

  method Append(buffer: array<char>, size: nat, digit: nat, ghost v: nat) returns (newSize: nat)
    requires digit < 10 && size < buffer.Length && buffer[..size] == Shown(v)
    modifies buffer
    ensures newSize <= size + 1 && newSize <= buffer.Length && buffer[..newSize] == Shown(10 * v + digit)
  {
    hide Shown, DigitChar;
    ShowDigit(v, digit);
    ShownLength(v);
    newSize := size;
    if digit != 0 || size != 0 {
      buffer[size] := DigitChar(digit);
      newSize := size + 1;
    }
  }

  /** The divisors of the switch statement. */
  function Divisor(exp: nat): (d: nat)
    requires 1 <= exp <= 10
    ensures d == Pow10(exp - 1)
  {
    SmallPowersOfTen();
    match exp
    case 10 => 1_000_000_000
    case 9 => 100_000_000
    case 8 => 10_000_000
    case 7 => 1_000_000
    case 6 => 100_000
    case 5 => 10_000
    case 4 => 1_000
    case 3 => 100
    case 2 => 10
    case 1 => 1
  }

  lemma HighProducts(one: nat, v: nat, hi: nat, lo: nat, p: nat)
    requires lo < one && hi < p
    ensures (v * p + hi) * one + lo == v * (p * one) + (hi * one + lo)
    ensures hi * one + lo < p * one
  {
    OrderedProducts(hi + 1, p, one);
    assert (v * p + hi) * one == v * (p * one) + hi * one;
  }

  /** The high part written so far as v, the high part hi still to come, and the low part. */
  lemma HighPart(su: nat, one: nat, v: nat, hi: nat, lo: nat, exp: nat)
    requires lo < one && hi < Pow10(exp) && su == (v * Pow10(exp) + hi) * one + lo
    ensures hi * one + lo == Rest(su, one, exp)
    ensures v == su * Scale(exp) / Unit(exp, one)
  {
    hide Pow10;
    HighProducts(one, v, hi, lo, Pow10(exp));
    QuotientIs(su, Pow10(exp) * one, v, hi * one + lo);
  }

  lemma LowPart(su: nat, one: nat, v: nat, lo: nat, k: int)
    requires k <= 0 && lo < one && su * Pow10(-k) == v * one + lo
    ensures lo == Rest(su, one, k) && v == su * Scale(k) / Unit(k, one)
  {
    QuotientIs(su * Pow10(-k), one, v, lo);
    if k == 0 {
      assert Unit(0, one) == one;
    }
  }

  /** One more high digit. */
  lemma HighDigit(h: nat, v: nat, hi: nat, exp: nat)
    requires exp > 0 && hi < Pow10(exp) && h == v * Pow10(exp) + hi
    ensures hi / Pow10(exp - 1) < 10 && hi % Pow10(exp - 1) < Pow10(exp - 1)
    ensures h == (10 * v + hi / Pow10(exp - 1)) * Pow10(exp - 1) + hi % Pow10(exp - 1)
  {
    var p := Pow10(exp - 1);
    assert Pow10(exp) == 10 * p;
    hide Pow10;
    DivBounds(hi, p);
    if hi / p >= 10 {
      OrderedProducts(10, hi / p, p);
    }
    assert (10 * v + hi / p) * p == v * (10 * p) + hi / p * p;
  }

  /** One more low digit. */
  lemma LowDigit(su: nat, one: nat, v: nat, lo: nat, k: int)
    requires k <= 0 && lo < one && su * Pow10(-k) == v * one + lo
    ensures 10 * lo / one < 10
    ensures su * Pow10(-(k - 1)) == (10 * v + 10 * lo / one) * one + 10 * lo % one
  {
    assert Pow10(-(k - 1)) == 10 * Pow10(-k);
    hide Pow10;
    DivBounds(10 * lo, one);
    if 10 * lo / one >= 10 {
      OrderedProducts(10, 10 * lo / one, one);
    }
    assert su * (10 * Pow10(-k)) == 10 * (su * Pow10(-k));
    assert (10 * v + 10 * lo / one) * one == 10 * (v * one) + 10 * lo / one * one;
  }

  /** No multiple of 10^k is close enough: the generation goes on, or 10^k is already too large. */
  predicate Open(su: nat, delta: nat, one: nat, k: int)
    requires one > 0
  {
    !StopsAt(su, delta, one, k) || su * Scale(k) < Unit(k, one)
  }

  ghost predicate AllOpen(su: nat, delta: nat, one: nat, from: int)
    requires one > 0
  {
    forall k :: from <= k ==> Open(su, delta, one, k)
  }

  /** What is known where the generation stops: v are all digits down to k, and the first ones that will do. */
  ghost predicate Stopped(su: nat, delta: nat, one: nat, v: nat, k: int)
    requires one > 0
  {
    && StopsAt(su, delta, one, k)
    && v == su * Scale(k) / Unit(k, one)
    && AllOpen(su, delta, one, k + 1)
  }

  /** The state of the first loop: exp digits of the integral part are still in hi. */
  ghost predicate InHigh(su: nat, delta: nat, one: nat, v: nat, hi: nat, lo: nat, exp: nat)
    requires one > 0
  {
    && lo < one && hi < Pow10(exp) && su == (v * Pow10(exp) + hi) * one + lo
    && AllOpen(su, delta, one, exp)
  }

  /** The state of the second loop, with lo and delta scaled by a power of ten. */
  ghost predicate InLow(su: nat, delta0: nat, one: nat, v: nat, lo: nat, delta: nat, k: int)
    requires one > 0
  {
    && k <= 0 && lo < one && su * Pow10(-k) == v * one + lo
    && delta == delta0 * Pow10(-k) && 0 < delta <= lo
    && AllOpen(su, delta0, one, k)
  }

  lemma StartHigh(su: nat, delta: nat, one: nat)
    requires one > 0
    ensures InHigh(su, delta, one, 0, su / one, su % one, |Digits(su / one)|)
  {
    var count, h := |Digits(su / one)|, su / one;
    DigitsDenote(h);
    DivBounds(su, one);
    HighProducts(one, 0, h, su % one, Pow10(count));
    forall k | count <= k
      ensures Open(su, delta, one, k)
    {
      Pow10Grows(count, k);
      OrderedProducts(Pow10(count), Pow10(k), one);
    }
  }

  function Remainder(hi: nat, lo: nat, one: nat): nat {
    hi * one + lo
  }

  lemma StepHigh(su: nat, delta: nat, one: nat, v: nat, hi: nat, lo: nat, exp: nat)
    requires one > 0 && exp > 0 && InHigh(su, delta, one, v, hi, lo, exp)
    ensures var p := Pow10(exp - 1);
      && hi / p < 10 && Remainder(hi % p, lo, one) <= su
      && if Remainder(hi % p, lo, one) <= delta then Stopped(su, delta, one, 10 * v + hi / p, exp - 1)
         else InHigh(su, delta, one, 10 * v + hi / p, hi % p, lo, exp - 1)
  {
    hide Pow10, Unit, Scale, Digits;
    var p := Pow10(exp - 1);
    HighDigit(v * Pow10(exp) + hi, v, hi, exp);
    HighPart(su, one, 10 * v + hi / p, hi % p, lo, exp - 1);
    HighProducts(one, 10 * v + hi / p, hi % p, lo, p);
  }

  lemma StartLow(su: nat, delta: nat, one: nat, v: nat, lo: nat)
    requires one > 0 && InHigh(su, delta, one, v, 0, lo, 0) && delta > 0 && delta < lo
    ensures InLow(su, delta, one, v, lo, delta, 0)
  {
    hide AllOpen;
  }

  /** The next digit of a fraction, and what is left of it. */
  function LowDigitOf(lo: nat, one: nat): nat
    requires one > 0
  {
    10 * lo / one
  }

  function LowRest(lo: nat, one: nat): nat
    requires one > 0
  {
    10 * lo % one
  }

  lemma StepLow(su: nat, delta0: nat, one: nat, v: nat, lo: nat, delta: nat, k: int)
    requires one > 0 && InLow(su, delta0, one, v, lo, delta, k)
    ensures LowDigitOf(lo, one) < 10
    ensures if LowRest(lo, one) < 10 * delta then Stopped(su, delta0, one, 10 * v + LowDigitOf(lo, one), k - 1)
            else InLow(su, delta0, one, 10 * v + LowDigitOf(lo, one), LowRest(lo, one), 10 * delta, k - 1)
  {
    assert Pow10(-(k - 1)) == 10 * Pow10(-k);
    LowDigit(su, one, v, lo, k);
    LowPart(su, one, 10 * v + 10 * lo / one, 10 * lo % one, k - 1);
    assert delta0 * (10 * Pow10(-k)) == 10 * delta;
    hide Pow10, Unit, Digits;
  }

  /** At most nineteen digits behind the point, because delta grows tenfold with each. */
  lemma FewLowDigits(su: nat, delta0: nat, one: nat, v: nat, lo: nat, delta: nat, k: int)
    requires 0 < one <= 0x1000_0000_0000_0000 && InLow(su, delta0, one, v, lo, delta, k)
    ensures k >= -18 && 10 * lo < U64 && 10 * delta < U64
  {
    assert delta0 > 0;
    OrderedProducts(1, delta0, Pow10(-k));
    if k < -18 {
      Pow10Grows(19, -k);
      LargePowersOfTen();
    }
  }

  lemma OneBounds(f: nat, shift: nat)
    requires f < U64 && 32 <= shift <= 60
    ensures W <= Pow2(shift) <= 0x1000_0000_0000_0000 && f / Pow2(shift) < W
  {
    Pow2Grows(32, shift);
    Pow2Grows(shift, 60);
    SmallPowersOfTwo();
    LargePowersOfTwo();
    Pow2Up(29);
    Pow2Up(59);
    hide Pow2;
    DivBounds(f, Pow2(shift));
    if f / Pow2(shift) >= W {
      OrderedProducts(W, f / Pow2(shift), Pow2(shift));
    }
  }

  lemma HighDigitCount(hi: nat)
    requires hi < W
    ensures hi < Pow2(32) && 1 <= |Digits(hi)| <= 10
    ensures Estimate(BitLength(SetLowBit(hi))) < |ZERO_OR_POWERS_OF_10_32|
    ensures CountDigitsClz(hi, 32, ZERO_OR_POWERS_OF_10_32) == |Digits(hi)|
  {
    assert Pow2(32) == W by { SmallPowersOfTwo(); Pow2Up(29); }
    hide Pow2, Digits, Estimate, SetLowBit, CountDigitsClz;
    ClzCountsDigits(hi, 32);
    DecimalFormatter.LgIsDigitCount(hi);
  }

  /** The loop over the digits of the integral part; done means that it returned from the middle. */
  method HighDigits(su: nat, delta: nat, one: nat, buffer: array<char>, startHi: nat, lo: nat, startExp: nat)
    returns (size: nat, exp: nat, done: bool, ghost v: nat)
    requires 0 < one && su < U64 && delta < U64 && 1 <= startExp <= 10 && 29 <= buffer.Length
    requires InHigh(su, delta, one, 0, startHi, lo, startExp)
    modifies buffer
    ensures size + exp <= 10 && buffer[..size] == Shown(v)
    ensures done ==> Stopped(su, delta, one, v, exp)
    ensures !done ==> exp == 0 && delta < lo && (delta > 0 ==> InLow(su, delta, one, v, lo, delta, 0))
  {
    hide Pow10, Shown, Stopped, InHigh, InLow, Remainder;
    var hi := startHi;
    size, v, exp := 0, 0, startExp;
    NothingShown();
    while exp > 0
      invariant 0 <= exp <= startExp && size + exp <= 10
      invariant exp == 0 ==> Remainder(hi, lo, one) > delta
      invariant InHigh(su, delta, one, v, hi, lo, exp)
      invariant buffer[..size] == Shown(v)
    {
      StepHigh(su, delta, one, v, hi, lo, exp);
      var divisor := Divisor(exp);
      var digit := hi / divisor;
      hi := hi % divisor;
      size := Append(buffer, size, digit, v);
      v := 10 * v + digit;
      exp := exp - 1;
      var remainder := Remainder(hi, lo, one);
      assert remainder < U64;
      if remainder <= delta {
        return size, exp, true, v;
      }
    }
    HighDone(su, delta, one, v, hi, lo);
    done := false;
  }

  lemma NothingShown()
    ensures Shown(0) == ""
  {
  }

  lemma HighDone(su: nat, delta: nat, one: nat, v: nat, hi: nat, lo: nat)
    requires one > 0 && InHigh(su, delta, one, v, hi, lo, 0) && Remainder(hi, lo, one) > delta
    ensures delta < lo
    ensures delta > 0 ==> InLow(su, delta, one, v, lo, delta, 0)
  {
    assert Pow10(0) == 1 && hi == 0;
    if delta > 0 {
      StartLow(su, delta, one, v, lo);
    }
  }

  /** The loop over the digits of the fraction. */
  method LowDigits(su: nat, delta0: nat, one: nat, buffer: array<char>, startSize: nat, startLo: nat, ghost startV: nat)
    returns (size: nat, exp: int, ghost v: nat)
    requires 0 < one <= 0x1000_0000_0000_0000 && su < U64 && startSize <= 10 && 29 <= buffer.Length
    requires InLow(su, delta0, one, startV, startLo, delta0, 0) && buffer[..startSize] == Shown(startV)
    modifies buffer
    ensures size <= 29 && buffer[..size] == Shown(v)
    ensures Stopped(su, delta0, one, v, exp)
  {
    hide Pow10, Shown, Stopped, InLow;
    var lo: nat, delta: nat := startLo, delta0;
    size, v, exp := startSize, startV, 0;
    while true
      invariant -19 <= exp <= 0 && size + exp <= 10
      invariant InLow(su, delta0, one, v, lo, delta, exp)
      invariant buffer[..size] == Shown(v)
      decreases exp + 20
    {
      FewLowDigits(su, delta0, one, v, lo, delta, exp);
      StepLow(su, delta0, one, v, lo, delta, exp);
      lo := 10 * lo;
      delta := 10 * delta;
      var digit := lo / one;
      size := Append(buffer, size, digit, v);
      v := 10 * v + digit;
      lo := lo % one;
      exp := exp - 1;
      if lo < delta {
        return;
      }
    }
  }

  /**
    grisu2_gen_digits, which never overflows 64 bits and writes at most 29 characters; it does not use
    scaledValue.  TerminatesIff shows that it runs for ever on the inputs left out.
   */
  method GenDigits(scaledValue: Fp, scaledUpper: Fp, delta: nat, buffer: array<char>, decExp: int)
    returns (size: nat, newExp: int, ghost v: nat)
    requires scaledUpper.f < U64 && -60 <= scaledUpper.e <= -32
    requires delta < U64 && 29 <= buffer.Length
    requires delta > 0 || scaledUpper.f % Pow2(-scaledUpper.e) == 0
    modifies buffer
    ensures size <= 29 && buffer[..size] == Shown(v)
    ensures Stopped(scaledUpper.f, delta, Pow2(-scaledUpper.e), v, newExp - decExp)
  {
    hide *;
    var su, one := scaledUpper.f, Pow2(-scaledUpper.e);
    OneBounds(su, -scaledUpper.e);
    var hi, lo := su / one, su % one;
    HighDigitCount(hi);
    StartHigh(su, delta, one);
    var count := CountDigitsClz(hi, 32, ZERO_OR_POWERS_OF_10_32);
    var exp: int, done: bool;
    size, exp, done, v := HighDigits(su, delta, one, buffer, hi, lo, count);
    if !done {
      size, exp, v := LowDigits(su, delta, one, buffer, size, lo, v);
    }
    newExp := decExp + exp;
  }

  lemma StopsFarRight(su: nat, delta: nat, one: nat)
    requires 0 < one <= 0x1000_0000_0000_0000 && delta > 0
    ensures StopsAt(su, delta, one, -19)
  {
    LargePowersOfTen();
    hide Pow10;
    OrderedProducts(1, delta, Pow10(19));
  }

  lemma ZeroRest(su: nat, one: nat, p: nat)
    requires one > 0 && p > 0 && su % (p * one) == 0
    ensures su % one == 0
  {
    DivBounds(su, p * one);
    var q := su / (p * one);
    assert q * (p * one) == (q * p) * one;
    QuotientIs(su, one, q * p, 0);
  }

  /** The second loop has no exit when delta is zero: the generation terminates exactly if delta or the fraction allow it. */
  lemma TerminatesIff(su: nat, delta: nat, one: nat)
    requires 0 < one <= 0x1000_0000_0000_0000
    ensures (exists k :: StopsAt(su, delta, one, k)) <==> delta > 0 || su % one == 0
  {
    hide StopsAt;
    if delta > 0 {
      StopsFarRight(su, delta, one);
    } else {
      if su % one == 0 {
        StopsAtZero(su, one);
      }
      forall k | StopsAt(su, 0, one, k)
        ensures su % one == 0
      {
        StopsNowhere(su, one, k);
      }
    }
  }

  lemma StopsAtZero(su: nat, one: nat)
    requires one > 0 && su % one == 0
    ensures StopsAt(su, 0, one, 0)
  {
    assert Unit(0, one) == one;
  }

  lemma StopsNowhere(su: nat, one: nat, k: int)
    requires one > 0 && StopsAt(su, 0, one, k)
    ensures su % one == 0
  {
    if k >= 0 {
      ZeroRest(su, one, Pow10(k));
    }
  }

  /** Where the generation stops the digits are in the interval, and no number of fewer digits is. */
  lemma DigitsAreShortest(su: nat, delta: nat, one: nat, v: nat, k: int)
    requires one > 0 && Stopped(su, delta, one, v, k)
    ensures (su - delta) * Scale(k) <= v * Unit(k, one) <= su * Scale(k)
    ensures forall j, m: nat :: k < j && m > 0 ==> !Inside(m, su, delta, one, j)
  {
    hide Scale, Unit, StopsAt, Inside, Open;
    StopIsInInterval(su, delta, one, k);
    forall j, m: nat | k < j && m > 0
      ensures !Inside(m, su, delta, one, j)
    {
      assert Open(su, delta, one, j);
      OpenIsEmpty(su, delta, one, j, m);
    }
  }

  lemma OpenIsEmpty(su: nat, delta: nat, one: nat, k: int, m: nat)
    requires one > 0 && m > 0 && Open(su, delta, one, k)
    ensures !Inside(m, su, delta, one, k)
  {
    NothingInside(su, delta, one, k, m);
  }
}
