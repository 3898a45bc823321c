/** The three versions of count_digits all return the number of decimal digits. */
module CountDigits {
  import opened Decimal

  const ZERO_OR_POWERS_OF_10_64: seq<nat> := [
    0,
    10, 100, 1_000, 10_000, 100_000, 1_000_000, 10_000_000, 100_000_000, 1_000_000_000,
    10_000_000_000, 100_000_000_000, 1_000_000_000_000, 10_000_000_000_000, 100_000_000_000_000,
    1_000_000_000_000_000, 10_000_000_000_000_000, 100_000_000_000_000_000, 1_000_000_000_000_000_000,
    10_000_000_000_000_000_000]

  const ZERO_OR_POWERS_OF_10_32: seq<nat> := [
    0, 10, 100, 1_000, 10_000, 100_000, 1_000_000, 10_000_000, 100_000_000, 1_000_000_000]

  lemma PowersInTable(t: nat)
    requires t <= 19
    ensures ZERO_OR_POWERS_OF_10_64[t] == if t == 0 then 0 else Pow10(t)
    ensures t <= 9 ==> ZERO_OR_POWERS_OF_10_32[t] == ZERO_OR_POWERS_OF_10_64[t]
  {
  }

  /** The width minus the count of leading zeros: the position of the highest set bit, counted from one. */
  function BitLength(n: nat): (b: nat)
    requires n > 0
    ensures b > 0 && Pow2(b - 1) <= n < Pow2(b)
  {
    if n == 1 then 1 else 1 + BitLength(n / 2)
  }

  /** n | 1 */
  function SetLowBit(n: nat): nat {
    if n % 2 == 0 then n + 1 else n
  }

  /** The bit length b estimates the digit count by b * 1233 / 4096, an approximation of log10 2. */
  function Estimate(b: nat): nat {
    b * 1233 / 4096
  }

  lemma BitLengthBound(n: nat, width: nat)
    requires 0 < n < Pow2(width)
    ensures BitLength(n) <= width
  {
    if BitLength(n) > width {
      Pow2Grows(width, BitLength(n) - 1);
    }
  }

  /** One stretch of bit lengths lo..hi with the same estimate t. */
  lemma Stretch(b: nat, t: nat, lo: nat, hi: nat)
    requires 1 <= lo <= b <= hi && (t == 0 || Pow10(t - 1) <= Pow2(lo - 1)) && Pow2(hi) <= Pow10(t + 1)
    requires 4096 * t <= 1233 * lo && 1233 * hi < 4096 * (t + 1)
    ensures Estimate(b) == t
    ensures (t == 0 || Pow10(t - 1) <= Pow2(b - 1)) && Pow2(b) <= Pow10(t + 1)
  {
    Pow2Grows(lo - 1, b - 1);
    Pow2Grows(b, hi);
  }

  lemma Pow2Up(n: nat)
    ensures Pow2(n + 1) == 2 * Pow2(n) && Pow2(n + 3) == 8 * Pow2(n) && Pow2(n + 4) == 16 * Pow2(n)
  {
    assert Pow2(n + 2) == 2 * Pow2(n + 1);
  }

  lemma SmallPowersOfTwo()
    ensures Pow2(3) == 8
    ensures Pow2(6) == 64
    ensures Pow2(9) == 512
    ensures Pow2(13) == 8192
    ensures Pow2(16) == 65536
    ensures Pow2(19) == 524288
    ensures Pow2(23) == 8388608
    ensures Pow2(26) == 67108864
    ensures Pow2(29) == 536870912
    ensures Pow2(33) == 8589934592
  {
    Pow2Up(0);
    Pow2Up(3);
    Pow2Up(6);
    Pow2Up(9);
    Pow2Up(13);
    Pow2Up(16);
    Pow2Up(19);
    Pow2Up(23);
    Pow2Up(26);
    Pow2Up(29);
  }

  lemma LargePowersOfTwo()
    ensures Pow2(36) == 68719476736
    ensures Pow2(39) == 549755813888
    ensures Pow2(43) == 8796093022208
    ensures Pow2(46) == 70368744177664
    ensures Pow2(49) == 562949953421312
    ensures Pow2(53) == 9007199254740992
    ensures Pow2(56) == 72057594037927936
    ensures Pow2(59) == 576460752303423488
    ensures Pow2(63) == 9223372036854775808
    ensures Pow2(64) == 18446744073709551616
  {
    SmallPowersOfTwo();
    Pow2Up(33);
    Pow2Up(36);
    Pow2Up(39);
    Pow2Up(43);
    Pow2Up(46);
    Pow2Up(49);
    Pow2Up(53);
    Pow2Up(56);
    Pow2Up(59);
    Pow2Up(63);
  }

  lemma SmallPowersOfTen()
    ensures Pow10(0) == 1
    ensures Pow10(1) == 10
    ensures Pow10(2) == 100
    ensures Pow10(3) == 1_000
    ensures Pow10(4) == 10_000
    ensures Pow10(5) == 100_000
    ensures Pow10(6) == 1_000_000
    ensures Pow10(7) == 10_000_000
    ensures Pow10(8) == 100_000_000
    ensures Pow10(9) == 1_000_000_000
    ensures Pow10(10) == 10_000_000_000
  {
  }

  lemma LargePowersOfTen()
    ensures Pow10(9) == 1_000_000_000
    ensures Pow10(10) == 10_000_000_000
    ensures Pow10(11) == 100_000_000_000
    ensures Pow10(12) == 1_000_000_000_000
    ensures Pow10(13) == 10_000_000_000_000
    ensures Pow10(14) == 100_000_000_000_000
    ensures Pow10(15) == 1_000_000_000_000_000
    ensures Pow10(16) == 10_000_000_000_000_000
    ensures Pow10(17) == 100_000_000_000_000_000
    ensures Pow10(18) == 1_000_000_000_000_000_000
    ensures Pow10(19) == 10_000_000_000_000_000_000
    ensures Pow10(20) == 100_000_000_000_000_000_000
  {
    SmallPowersOfTen();
  }

  lemma EstimateIsCloseBelow34(b: nat)
    requires 1 <= b <= 33
    ensures Estimate(b) <= 19
    ensures Estimate(b) == 0 || Pow10(Estimate(b) - 1) <= Pow2(b - 1)
    ensures Pow2(b) <= Pow10(Estimate(b) + 1)
  {
    hide Pow2, Pow10, Estimate;
    SmallPowersOfTwo();
    SmallPowersOfTen();
    if b <= 3 { Stretch(b, 0, 1, 3); }
    else if b <= 6 { Stretch(b, 1, 4, 6); }
    else if b <= 9 { Stretch(b, 2, 7, 9); }
    else if b <= 13 { Stretch(b, 3, 10, 13); }
    else if b <= 16 { Stretch(b, 4, 14, 16); }
    else if b <= 19 { Stretch(b, 5, 17, 19); }
    else if b <= 23 { Stretch(b, 6, 20, 23); }
    else if b <= 26 { Stretch(b, 7, 24, 26); }
    else if b <= 29 { Stretch(b, 8, 27, 29); }
    else { Stretch(b, 9, 30, 33); }
  }

  lemma EstimateIsCloseAbove33(b: nat)
    requires 34 <= b <= 64
    ensures Estimate(b) <= 19
    ensures Estimate(b) == 0 || Pow10(Estimate(b) - 1) <= Pow2(b - 1)
    ensures Pow2(b) <= Pow10(Estimate(b) + 1)
  {
    hide Pow2, Pow10, Estimate;
    SmallPowersOfTwo();
    LargePowersOfTwo();
    LargePowersOfTen();
    if b <= 36 { Stretch(b, 10, 34, 36); }
    else if b <= 39 { Stretch(b, 11, 37, 39); }
    else if b <= 43 { Stretch(b, 12, 40, 43); }
    else if b <= 46 { Stretch(b, 13, 44, 46); }
    else if b <= 49 { Stretch(b, 14, 47, 49); }
    else if b <= 53 { Stretch(b, 15, 50, 53); }
    else if b <= 56 { Stretch(b, 16, 54, 56); }
    else if b <= 59 { Stretch(b, 17, 57, 59); }
    else if b <= 63 { Stretch(b, 18, 60, 63); }
    else { Stretch(b, 19, 64, 64); }
  }

  /** For 1 <= b <= 64 the estimate is off by at most one, and only ever too small. */
  lemma EstimateIsClose(b: nat)
    requires 1 <= b <= 64
    ensures Estimate(b) <= 19
    ensures Estimate(b) == 0 || Pow10(Estimate(b) - 1) <= Pow2(b - 1)
    ensures Pow2(b) <= Pow10(Estimate(b) + 1)
  {
    if b <= 33 {
      EstimateIsCloseBelow34(b);
    } else {
      EstimateIsCloseAbove33(b);
    }
  }

  /** n | 1 has the bit length of n, and that of one for zero, so the bounds carry over. */
  lemma LowBitKeepsLength(n: nat)
    ensures n > 0 ==> Pow2(BitLength(SetLowBit(n)) - 1) <= n
    ensures n < Pow2(BitLength(SetLowBit(n)))
    ensures n == 0 ==> BitLength(SetLowBit(n)) == 1
  {
    var b := BitLength(SetLowBit(n));
    if n > 0 && n % 2 == 0 && b > 1 {
      assert Pow2(b - 1) == 2 * Pow2(b - 2);
    }
  }

  /** The bit-trick version: one multiplication, one shift, one table lookup, one comparison. */
  function CountDigitsClz(n: nat, width: nat, table: seq<nat>): int
    requires n < Pow2(width) && 0 < width
    requires Estimate(BitLength(SetLowBit(n))) < |table|
  {
    var t := Estimate(BitLength(SetLowBit(n)));
    t - (if n < table[t] then 1 else 0) + 1
  }

  lemma EstimateBound(b: nat)
    ensures b <= 32 ==> Estimate(b) <= 9
    ensures b <= 64 ==> Estimate(b) <= 19
  {
  }

  lemma LowBitBound(n: nat, half: nat)
    requires n < 2 * half
    ensures 0 < SetLowBit(n) < 2 * half
  {
  }

  lemma ClzStaysInTable(n: nat, width: nat)
    requires n < Pow2(width) && (width == 32 || width == 64)
    ensures BitLength(SetLowBit(n)) <= width
    ensures Estimate(BitLength(SetLowBit(n))) <= (if width == 64 then 19 else 9)
  {
    hide Estimate, SetLowBit;
    LowBitBound(n, Pow2(width - 1));
    BitLengthBound(SetLowBit(n), width);
    EstimateBound(BitLength(SetLowBit(n)));
  }

  lemma ClzCountsDigits(n: nat, width: nat)
    requires n < Pow2(width) && (width == 32 || width == 64)
    ensures var table := if width == 64 then ZERO_OR_POWERS_OF_10_64 else ZERO_OR_POWERS_OF_10_32;
      && Estimate(BitLength(SetLowBit(n))) < |table|
      && CountDigitsClz(n, width, table) == |Digits(n)|
  {
    hide Pow2, Pow10, Digits, Estimate, BitLength, SetLowBit;
    ClzStaysInTable(n, width);
    var b := BitLength(SetLowBit(n));
    EstimateIsClose(b);
    LowBitKeepsLength(n);
    PowersInTable(Estimate(b));
    BoundsCountDigits(n, b, Estimate(b));
  }

  /** The estimate is the digit count or one less, and the comparison with the power of ten tells which. */
  lemma BoundsCountDigits(n: nat, b: nat, t: nat)
    requires b > 0 && n < Pow2(b) && (n > 0 ==> Pow2(b - 1) <= n) && (n == 0 ==> b == 1)
    requires (t == 0 || Pow10(t - 1) <= Pow2(b - 1)) && Pow2(b) <= Pow10(t + 1)
    ensures |Digits(n)| == t - (if n < (if t == 0 then 0 else Pow10(t)) then 1 else 0) + 1
  {
    if t == 0 {
      assert Pow10(1) == 10;
      DigitCount(n, 1);
    } else if n < Pow10(t) {
      ZeroOrAbove(n, b, t);
      DigitCount(n, t);
    } else {
      DigitCount(n, t + 1);
    }
  }

  lemma ZeroOrAbove(n: nat, b: nat, t: nat)
    requires t > 0 && b > 0 && Pow10(t - 1) <= Pow2(b - 1)
    requires (n > 0 ==> Pow2(b - 1) <= n) && (n == 0 ==> b == 1)
    ensures t == 1 || Pow10(t - 1) <= n
  {
    assert Pow2(0) == 1 && Pow10(1) == 10;
    if t > 1 {
      Pow10Grows(1, t - 1);
    }
  }

  lemma FourDigitsLess(n: nat)
    requires n >= 10_000
    ensures |Digits(n)| == |Digits(n / 10_000)| + 4
  {
    assert n / 10 / 10 / 10 / 10 == n / 10_000;
    assert |Digits(n)| == |Digits(n / 10)| + 1;
    assert |Digits(n / 10)| == |Digits(n / 10 / 10)| + 1;
    assert |Digits(n / 10 / 10)| == |Digits(n / 10 / 10 / 10)| + 1;
    assert |Digits(n / 10 / 10 / 10)| == |Digits(n / 10 / 10 / 10 / 10)| + 1;
  }

  /** The portable version: four digits per division. */
  method CountDigitsLoop(value: nat) returns (count: nat)
    ensures count == |Digits(value)|
  {
    var n := value;
    count := 1;
    while true
      invariant |Digits(value)| == |Digits(n)| + count - 1
      decreases n
    {
      if n < 10 { DigitCount(n, 1); return count; }
      if n < 100 { DigitCount(n, 2); return count + 1; }
      if n < 1000 { DigitCount(n, 3); return count + 2; }
      if n < 10_000 { DigitCount(n, 4); return count + 3; }
      FourDigitsLess(n);
      n := n / 10_000;
      count := count + 4;
    }
  }
}
