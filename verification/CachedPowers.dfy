/** get_cached_power: the table of cached powers of ten and the choice of an entry by its binary exponent. */
module CachedPowers {
  import opened Arithmetic
  import opened Decimal
  import opened FloatingPoint
  import opened RealPowers

  const COUNT: nat := 87
  const FIRST_DEC_EXP: int := -348
  const DEC_EXP_STEP: nat := 8

  /** POW10_SIGNIFICANDS and POW10_EXPONENTS: the normalized approximations of 10^-348, 10^-340, ..., 10^340. */
  function Cached(i: nat): Fp
    requires i < COUNT
  {
    match i
    case 0 => Fp(0xfa8fd5a0081c0288, -1220) case 1 => Fp(0xbaaee17fa23ebf76, -1193)
    case 2 => Fp(0x8b16fb203055ac76, -1166) case 3 => Fp(0xcf42894a5dce35ea, -1140)
    case 4 => Fp(0x9a6bb0aa55653b2d, -1113) case 5 => Fp(0xe61acf033d1a45df, -1087)
    case 6 => Fp(0xab70fe17c79ac6ca, -1060) case 7 => Fp(0xff77b1fcbebcdc4f, -1034)
    case 8 => Fp(0xbe5691ef416bd60c, -1007) case 9 => Fp(0x8dd01fad907ffc3c, -980)
    case 10 => Fp(0xd3515c2831559a83, -954) case 11 => Fp(0x9d71ac8fada6c9b5, -927)
    case 12 => Fp(0xea9c227723ee8bcb, -901) case 13 => Fp(0xaecc49914078536d, -874)
    case 14 => Fp(0x823c12795db6ce57, -847) case 15 => Fp(0xc21094364dfb5637, -821)
    case 16 => Fp(0x9096ea6f3848984f, -794) case 17 => Fp(0xd77485cb25823ac7, -768)
    case 18 => Fp(0xa086cfcd97bf97f4, -741) case 19 => Fp(0xef340a98172aace5, -715)
    case 20 => Fp(0xb23867fb2a35b28e, -688) case 21 => Fp(0x84c8d4dfd2c63f3b, -661)
    case 22 => Fp(0xc5dd44271ad3cdba, -635) case 23 => Fp(0x936b9fcebb25c996, -608)
    case 24 => Fp(0xdbac6c247d62a584, -582) case 25 => Fp(0xa3ab66580d5fdaf6, -555)
    case 26 => Fp(0xf3e2f893dec3f126, -529) case 27 => Fp(0xb5b5ada8aaff80b8, -502)
    case 28 => Fp(0x87625f056c7c4a8b, -475) case 29 => Fp(0xc9bcff6034c13053, -449)
    case 30 => Fp(0x964e858c91ba2655, -422) case 31 => Fp(0xdff9772470297ebd, -396)
    case 32 => Fp(0xa6dfbd9fb8e5b88f, -369) case 33 => Fp(0xf8a95fcf88747d94, -343)
    case 34 => Fp(0xb94470938fa89bcf, -316) case 35 => Fp(0x8a08f0f8bf0f156b, -289)
    case 36 => Fp(0xcdb02555653131b6, -263) case 37 => Fp(0x993fe2c6d07b7fac, -236)
    case 38 => Fp(0xe45c10c42a2b3b06, -210) case 39 => Fp(0xaa242499697392d3, -183)
    case 40 => Fp(0xfd87b5f28300ca0e, -157) case 41 => Fp(0xbce5086492111aeb, -130)
    case 42 => Fp(0x8cbccc096f5088cc, -103) case 43 => Fp(0xd1b71758e219652c, -77)
    case 44 => Fp(0x9c40000000000000, -50) case 45 => Fp(0xe8d4a51000000000, -24)
    case 46 => Fp(0xad78ebc5ac620000, 3) case 47 => Fp(0x813f3978f8940984, 30)
    case 48 => Fp(0xc097ce7bc90715b3, 56) case 49 => Fp(0x8f7e32ce7bea5c70, 83)
    case 50 => Fp(0xd5d238a4abe98068, 109) case 51 => Fp(0x9f4f2726179a2245, 136)
    case 52 => Fp(0xed63a231d4c4fb27, 162) case 53 => Fp(0xb0de65388cc8ada8, 189)
    case 54 => Fp(0x83c7088e1aab65db, 216) case 55 => Fp(0xc45d1df942711d9a, 242)
    case 56 => Fp(0x924d692ca61be758, 269) case 57 => Fp(0xda01ee641a708dea, 295)
    case 58 => Fp(0xa26da3999aef774a, 322) case 59 => Fp(0xf209787bb47d6b85, 348)
    case 60 => Fp(0xb454e4a179dd1877, 375) case 61 => Fp(0x865b86925b9bc5c2, 402)
    case 62 => Fp(0xc83553c5c8965d3d, 428) case 63 => Fp(0x952ab45cfa97a0b3, 455)
    case 64 => Fp(0xde469fbd99a05fe3, 481) case 65 => Fp(0xa59bc234db398c25, 508)
    case 66 => Fp(0xf6c69a72a3989f5c, 534) case 67 => Fp(0xb7dcbf5354e9bece, 561)
    case 68 => Fp(0x88fcf317f22241e2, 588) case 69 => Fp(0xcc20ce9bd35c78a5, 614)
    case 70 => Fp(0x98165af37b2153df, 641) case 71 => Fp(0xe2a0b5dc971f303a, 667)
    case 72 => Fp(0xa8d9d1535ce3b396, 694) case 73 => Fp(0xfb9b7cd9a4a7443c, 720)
    case 74 => Fp(0xbb764c4ca7a44410, 747) case 75 => Fp(0x8bab8eefb6409c1a, 774)
    case 76 => Fp(0xd01fef10a657842c, 800) case 77 => Fp(0x9b10a4e5e9913129, 827)
    case 78 => Fp(0xe7109bfba19c0c9d, 853) case 79 => Fp(0xac2820d9623bf429, 880)
    case 80 => Fp(0x80444b5e7aa7cf85, 907) case 81 => Fp(0xbf21e44003acdd2d, 933)
    case 82 => Fp(0x8e679c2f5e44ff8f, 960) case 83 => Fp(0xd433179d9c8cb841, 986)
    case 84 => Fp(0x9e19db92b4e31ba9, 1013) case 85 => Fp(0xeb96bf6ebadf77d9, 1039)
    case 86 => Fp(0xaf87023b9bf0ee6b, 1066)
  }

  lemma NormalizedFrom0(i: nat)
    requires i < 44
    ensures HALF64 <= Cached(i).f < U64
  {
  }

  lemma NormalizedFrom44(i: nat)
    requires 44 <= i < COUNT
    ensures HALF64 <= Cached(i).f < U64
  {
  }

  lemma CachedIsNormalized(i: nat)
    requires i < COUNT
    ensures HALF64 <= Cached(i).f < U64
  {
    hide Cached;
    if i < 44 { NormalizedFrom0(i); } else { NormalizedFrom44(i); }
  }

  function DecimalExponent(i: int): int {
    FIRST_DEC_EXP + DEC_EXP_STEP * i
  }

  /** The 32 bits that would follow the significand, as a signed correction; only the proof uses them. */
  function Correction(i: nat): int
    requires i < COUNT
  {
    match i
    case 0 => 389204074 case 1 => 1568259312 case 2 => 1278987088 case 3 => 1376144557
    case 4 => 1202861001 case 5 => 1874404487 case 6 => 1841128202 case 7 => 636020892
    case 8 => 600610924 case 9 => -1371691047 case 10 => 224025413 case 11 => 1870086083
    case 12 => 1180571049 case 13 => 1492838903 case 14 => 1992637705 case 15 => -1738992132
    case 16 => 1072747208 case 17 => 2103653011 case 18 => -2132237297 case 19 => -2030335631
    case 20 => -375496294 case 21 => 703388148 case 22 => 1089466850 case 23 => -894366247
    case 24 => -549062841 case 25 => -1052876591 case 26 => 1518984100 case 27 => 226597266
    case 28 => 289873111 case 29 => -58084460 case 30 => 980027385 case 31 => 1501068844
    case 32 => -884159152 case 33 => 1973701732 case 34 => -133635057 case 35 => 462331595
    case 36 => 932377619 case 37 => -448354300 case 38 => -1934058882 case 39 => -572191790
    case 40 => -1949655698 case 41 => -1997227235 case 42 => -113277001 case 43 => -742170349
    case 44 => 0 case 45 => 0 case 46 => 0 case 47 => 1073741824
    case 48 => 1268715520 case 49 => -461242332 case 50 => 1923387462 case 51 => 30892610
    case 52 => 1286056616 case 53 => 992322911 case 54 => 2032560071 case 55 => 1000722621
    case 56 => 1497114150 case 57 => -401707192 case 58 => -474063309 case 59 => -1066955682
    case 60 => 700104262 case 61 => 193602451 case 62 => 1871872661 case 63 => -577480076
    case 64 => 1875533711 case 65 => 1140504963 case 66 => -1968352098 case 67 => 202501485
    case 68 => 1142942948 case 69 => 837550990 case 70 => -1015907789 case 71 => 776253029
    case 72 => 2132294055 case 73 => 379076847 case 74 => -1653794092 case 75 => 449874359
    case 76 => 757822826 case 77 => -897781068 case 78 => 214241895 case 79 => 1415792123
    case 80 => 2038485348 case 81 => -532215196 case 82 => 1460603371 case 83 => 1604716179
    case 84 => 1812439746 case 85 => -467903534 case 86 => -342905476
  }

  /** The significand of 96 bits. */
  function Extended(i: nat): int
    requires i < COUNT
  {
    Cached(i).f * W + Correction(i)
  }

  /** 10^8 / 2^8 */
  const FIVE_TO_THE_8: int := 390625

  /** Consecutive entries are 10^8 apart, up to less than two units of the 96-bit significands. */
  predicate StepOk(i: nat)
    requires i + 1 < COUNT
  {
    var d := if Cached(i + 1).e == Cached(i).e + 26 then 0x4_0000 else 0x8_0000;
    && (Cached(i + 1).e == Cached(i).e + 26 || Cached(i + 1).e == Cached(i).e + 27)
    && -FIVE_TO_THE_8 - d <= Extended(i) * FIVE_TO_THE_8 - Extended(i + 1) * d <= FIVE_TO_THE_8 + d
  }

  /** The binary exponent is the one that 0.30102999566398114, which stands for 1 / log2(10), predicts, with 0.0001 to spare. */
  predicate ExponentOk(i: nat)
    requires i < COUNT
  {
    var e, k := Cached(i).e + 63, DecimalExponent(i);
    && e * 30102999566398114 + 10_000_000_000_000 <= k * 100_000_000_000_000_000
    && k * 100_000_000_000_000_000 + 10_000_000_000_000 <= (e + 1) * 30102999566398114
  }

  predicate EntryOk(i: nat)
    requires i < COUNT
  {
    && ExponentOk(i)
    && (i + 1 < COUNT ==> StepOk(i))
    && -0x7FFF_0000 < Correction(i) < 0x7FFF_0000
  }

  lemma EntriesFrom0(i: nat)
    requires 0 <= i < 10
    ensures EntryOk(i)
  {
  }

  lemma EntriesFrom10(i: nat)
    requires 10 <= i < 20
    ensures EntryOk(i)
  {
  }

  lemma EntriesFrom20(i: nat)
    requires 20 <= i < 30
    ensures EntryOk(i)
  {
  }

  lemma EntriesFrom30(i: nat)
    requires 30 <= i < 40
    ensures EntryOk(i)
  {
  }

  lemma EntriesFrom40(i: nat)
    requires 40 <= i < 50
    ensures EntryOk(i)
  {
  }

  lemma EntriesFrom50(i: nat)
    requires 50 <= i < 60
    ensures EntryOk(i)
  {
  }

  lemma EntriesFrom60(i: nat)
    requires 60 <= i < 70
    ensures EntryOk(i)
  {
  }

  lemma EntriesFrom70(i: nat)
    requires 70 <= i < 80
    ensures EntryOk(i)
  {
  }

  lemma EntriesFrom80(i: nat)
    requires 80 <= i < 87
    ensures EntryOk(i)
  {
  }

  lemma EntriesAreOk(i: nat)
    requires i < COUNT
    ensures EntryOk(i)
  {
    hide EntryOk;
    if i < 10 { EntriesFrom0(i); }
    else if i < 20 { EntriesFrom10(i); }
    else if i < 30 { EntriesFrom20(i); }
    else if i < 40 { EntriesFrom30(i); }
    else if i < 50 { EntriesFrom40(i); }
    else if i < 60 { EntriesFrom50(i); }
    else if i < 70 { EntriesFrom60(i); }
    else if i < 80 { EntriesFrom70(i); }
    else { EntriesFrom80(i); }
  }

  function Ceiling(n: int, d: int): int
    requires d > 0
  {
    -((-n) / d)
  }

  /** The index computed from the smallest decimal exponent wanted. */
  function IndexFrom(ceiling: int): int {
    (ceiling - FIRST_DEC_EXP - 1) / DEC_EXP_STEP + 1
  }

  /** The index computed from the wanted binary exponent, without rounding the product. */
  function CachedIndex(minExponent: int): int {
    IndexFrom(Ceiling((minExponent + SIGNIFICAND_SIZE - 1) * 30102999566398114, 100_000_000_000_000_000))
  }

  lemma IndexBrackets(minExponent: int)
    ensures var n, i := (minExponent + 63) * 30102999566398114, CachedIndex(minExponent);
      DecimalExponent(i - 1) * 100_000_000_000_000_000 < n <= DecimalExponent(i) * 100_000_000_000_000_000
  {
  }

  lemma IndexInTable(minExponent: int)
    requires -1220 < minExponent <= 1066
    ensures 1 <= CachedIndex(minExponent) < COUNT
  {
    hide CachedIndex;
    IndexBrackets(minExponent);
  }

  lemma ExponentIsOk(i: nat)
    requires i < COUNT
    ensures ExponentOk(i)
    ensures i > 0 ==> Cached(i).e - Cached(i - 1).e <= 27
  {
    hide Cached, ExponentOk, Extended, Correction;
    EntriesAreOk(i);
    if i > 0 {
      EntriesAreOk(i - 1);
    }
  }

  /** The power found is the first one in the table whose exponent is large enough, and at most 26 larger. */
  lemma CachedIndexIsFirst(minExponent: int)
    requires -1220 < minExponent <= 1066
    ensures var i := CachedIndex(minExponent);
      && 1 <= i < COUNT
      && Cached(i - 1).e < minExponent <= Cached(i).e <= minExponent + 26
  {
    hide Cached, CachedIndex;
    var i := CachedIndex(minExponent);
    IndexBrackets(minExponent);
    IndexInTable(minExponent);
    ExponentIsOk(i - 1);
    ExponentIsOk(i);
  }

  /** y is x rounded to 53 significant bits, in whatever direction up to half a unit. */
  predicate RoundedFrom(y: real, x: real) {
    -(if x < 0.0 then -x else x) <= (y - x) * 9007199254740992.0 <= if x < 0.0 then -x else x
  }

  function CeilingOf(y: real): int {
    -(-y).Floor
  }

  lemma ProductError(n: int, c: real, d: real)
    requires -2000 <= n <= 2000 && -d <= c - 0.30102999566398114 <= d
    ensures -2000.0 * d <= n as real * c - n as real * 0.30102999566398114 <= 2000.0 * d
    ensures d < 0.1 ==> -2000.0 < n as real * c < 2000.0
  {
    var x := c - 0.30102999566398114;
    assert n as real * c - n as real * 0.30102999566398114 == n as real * x;
    if x >= 0.0 {
      BoundedProduct(n as real, x, d);
    } else {
      BoundedProduct(-(n as real), -x, d);
    }
  }

  lemma BoundedProduct(n: real, x: real, d: real)
    requires -2000.0 <= n <= 2000.0 && 0.0 <= x <= d
    ensures -2000.0 * d <= n * x <= 2000.0 * d
  {
    assert n * x <= 2000.0 * x && -2000.0 * x <= n * x;
  }

  /** The stored constant and the stored product are off by less than 0.0001 together. */
  lemma RoundedProduct(n: int, c: real, y: real)
    requires -2000 <= n <= 2000
    requires RoundedFrom(c, 0.30102999566398114) && RoundedFrom(y, n as real * c)
    ensures -0.0001 < y - n as real * 0.30102999566398114 < 0.0001
  {
    ProductError(n, c, 0.00000001);
    var x := n as real * c;
    hide RoundedFrom;
    RoundedIsNear(y, x);
  }

  lemma RoundedIsNear(y: real, x: real)
    requires RoundedFrom(y, x) && -2000.0 < x < 2000.0
    ensures -0.00001 < y - x < 0.00001
  {
  }

  lemma IndexOfNear(n: int, i: nat, y: real)
    requires 0 < i < COUNT
    requires DecimalExponent(i - 1) * 100_000_000_000_000_000 + 10_000_000_000_000 <= n * 30102999566398114
    requires n * 30102999566398114 + 10_000_000_000_000 <= DecimalExponent(i) * 100_000_000_000_000_000
    requires -0.0001 < y - n as real * 0.30102999566398114 < 0.0001
    ensures IndexFrom(CeilingOf(y)) == i
  {
    var k := DecimalExponent(i);
    assert n as real * 0.30102999566398114 * 100000000000000000.0 == (n * 30102999566398114) as real;
    assert (k - 8) as real < y < k as real;
    assert k - 8 < CeilingOf(y) <= k;
  }

  /** The exact product is at least 0.0001 away from where the index changes. */
  lemma FarFromBrackets(minExponent: int)
    requires -1220 < minExponent <= 1066
    ensures var n, i := minExponent + 63, CachedIndex(minExponent);
      && 0 < i < COUNT
      && DecimalExponent(i - 1) * 100_000_000_000_000_000 + 10_000_000_000_000 <= n * 30102999566398114
      && n * 30102999566398114 + 10_000_000_000_000 <= DecimalExponent(i) * 100_000_000_000_000_000
  {
    hide Cached, CachedIndex, DecimalExponent;
    var i := CachedIndex(minExponent);
    CachedIndexIsFirst(minExponent);
    ExponentIsOk(i - 1);
    ExponentIsOk(i);
  }

  /**
    The program multiplies doubles.  Whichever way the constant and the product are rounded, the index is the
    one of the exact product.
   */
  lemma RoundedIndexIsExact(minExponent: int, c: real, y: real)
    requires -1220 < minExponent <= 1066
    requires RoundedFrom(c, 0.30102999566398114) && RoundedFrom(y, (minExponent + 63) as real * c)
    ensures IndexFrom(CeilingOf(y)) == CachedIndex(minExponent)
  {
    var n, i := minExponent + 63, CachedIndex(minExponent);
    RoundedProduct(n, c, y);
    hide *;
    FarFromBrackets(minExponent);
    IndexOfNear(n, i, y);
  }

  lemma {:induction false} ExponentsIncrease(i: nat, j: nat)
    requires i <= j < COUNT
    ensures i < j ==> Cached(i).e < Cached(j).e
    decreases j - i
  {
    hide Cached, ExponentOk;
    if i < j {
      ExponentsIncrease(i, j - 1);
      NextExponent(j - 1);
    }
  }

  lemma NextExponent(i: nat)
    requires i + 1 < COUNT
    ensures Cached(i).e < Cached(i + 1).e
  {
    hide Cached, ExponentOk, Extended, Correction;
    EntriesAreOk(i);
  }

  /** The promise of an exponent at most 3 above the wanted one is kept exactly when the table has such an entry. */
  lemma AtMostThreeAboveIff(minExponent: int)
    requires -1220 < minExponent <= 1066
    ensures 1 <= CachedIndex(minExponent) < COUNT
    ensures Cached(CachedIndex(minExponent)).e <= minExponent + 3
       <==> exists j: nat :: j < COUNT && minExponent <= Cached(j).e <= minExponent + 3
  {
    hide Cached, CachedIndex;
    CachedIndexIsFirst(minExponent);
    var i := CachedIndex(minExponent);
    forall j: nat | j < COUNT && minExponent <= Cached(j).e <= minExponent + 3 ensures Cached(i).e <= Cached(j).e {
      if j < i {
        ExponentsIncrease(j, i - 1);
      } else {
        ExponentsIncrease(i, j);
      }
    }
  }

  /** The bits of the double 2^972. */
  const MISSED_BITS: nat := 1995 * IMPLICIT_BIT

  lemma PowersNearTen(s: nat)
    ensures s < 10 ==> Pow2(s) <= 512
    ensures s > 10 ==> Pow2(s) >= 2048
  {
    CountDigits.SmallPowersOfTwo();
    DoublePower(9);
    DoublePower(10);
    if s < 10 {
      Pow2Grows(s, 9);
    } else if s > 10 {
      Pow2Grows(11, s);
    }
  }

  lemma NormalizedExponent(f: nat, s: nat)
    requires f == (2 * IMPLICIT_BIT + 1) * Pow2(s) && HALF64 <= f < U64
    ensures s == 10
  {
    PowersNearTen(s);
    FarFromNormalized(Pow2(s));
    hide Pow2;
  }

  lemma FarFromNormalized(p: nat)
    ensures p <= 512 ==> (2 * IMPLICIT_BIT + 1) * p < HALF64
    ensures p >= 2048 ==> (2 * IMPLICIT_BIT + 1) * p >= U64
  {
  }

  /** For the double 2^972 the normalized upper boundary asks for -1033, and the power found is 26 above that. */
  lemma AtMostThreeAboveFails(upper: Fp)
    requires Aligned(upper, UpperBoundary(FromDouble(MISSED_BITS))) && HALF64 <= upper.f < U64
    ensures var minExponent := -60 - (upper.e + SIGNIFICAND_SIZE);
      && minExponent == -1033 && CachedIndex(minExponent) == 8 && Cached(8).e == minExponent + 26
  {
    hide Pow2, Cached;
    assert UpperBoundary(FromDouble(MISSED_BITS)) == Fp(2 * IMPLICIT_BIT + 1, 919);
    NormalizedExponent(upper.f, 919 - upper.e);
    Entry8();
  }

  lemma Entry8()
    ensures Cached(8).e == -1007
  {
  }

  /** get_cached_power, which also yields the decimal exponent. */
  function GetCachedPower(minExponent: int): (Fp, int)
    requires 1 <= CachedIndex(minExponent) < COUNT
  {
    var index := CachedIndex(minExponent);
    (Cached(index), FIRST_DEC_EXP + index * DEC_EXP_STEP)
  }

  /** The power is normalized, and its exponent is at least the wanted one and at most 26 larger. */
  lemma CachedPowerInRange(minExponent: int)
    requires -1220 < minExponent <= 1066
    ensures 1 <= CachedIndex(minExponent) < COUNT
    ensures var (c, k) := GetCachedPower(minExponent);
      && HALF64 <= c.f < U64 && minExponent <= c.e <= minExponent + 26
      && c == Cached(CachedIndex(minExponent)) && k == DecimalExponent(CachedIndex(minExponent))
  {
    hide Cached, CachedIndex;
    CachedIndexIsFirst(minExponent);
    CachedIsNormalized(CachedIndex(minExponent));
  }

  /** 10^k scaled so that the significand has 96 bits. */
  ghost function Exact(i: nat): real
    requires i < COUNT
  {
    Power(10.0, DecimalExponent(i)) * Power(2.0, 32 - Cached(i).e)
  }

  /** 2^90 */
  const PRECISION: real := 1237940039285380274899124224.0

  /** The 96-bit significand is within n units of its 91st bit of the exact one. */
  ghost predicate Close(exact: real, extended: real, n: real) {
    -(n * exact) <= (exact - extended) * PRECISION <= n * exact
  }

  lemma EighthPowers()
    ensures Power(10.0, 8) == 100000000.0
    ensures Power(2.0, 26) == 67108864.0 && Power(2.0, 27) == 134217728.0
  {
    PowerOfTen(8);
    PowerOfTwo(26);
    PowerOfTwo(27);
    CountDigits.SmallPowersOfTen();
    CountDigits.SmallPowersOfTwo();
    DoublePower(26);
  }

  lemma Rescale(p: real, q: real, a: real, b: real)
    ensures p * a * q * b == p * (q * b) * a
  {
  }

  /** Exactly, too, consecutive entries are 10^8 apart. */
  lemma ExactStep(i: nat)
    requires i + 1 < COUNT
    ensures Exact(i + 1) * Power(2.0, Cached(i + 1).e - Cached(i).e) == Exact(i) * Power(10.0, 8)
  {
    hide Power, Cached;
    var k, f, gap := DecimalExponent(i), 32 - Cached(i + 1).e, Cached(i + 1).e - Cached(i).e;
    PowerAdds(10.0, k, 8);
    PowerAdds(2.0, f, gap);
    assert DecimalExponent(i + 1) == k + 8;
    assert f + gap == 32 - Cached(i).e;
    Rescale(Power(10.0, k), Power(2.0, f), Power(10.0, 8), Power(2.0, gap));
  }

  lemma AtMost44(n: real, t: real)
    requires 0.0 <= n <= 44.0 && t > 0.0
    ensures 0.0 <= n * t <= 44.0 * t
  {
  }

  lemma MulThrough(n: real, t: real, d: real, s: real, m: real)
    requires t * d == s * m
    ensures n * t * d == n * s * m
  {
    assert n * (t * d) == n * (s * m);
  }

  lemma Expand(t: real, a: real, s: real, b: real, d: real, m: real, u: real)
    requires t * d == s * m
    ensures (t - a) * u * d == (s - b) * u * m - (a * d - b * m) * u
  {
    assert (t - a) * u * d == (t * d) * u - a * d * u;
    assert (s - b) * u * m == (s * m) * u - b * m * u;
  }

  lemma FarFromZero(s: real, b: real, n: real)
    requires s > 0.0 && 0.0 <= n <= 43.0 && b >= 32.0 * PRECISION - 2147483648.0 && Close(s, b, n)
    ensures s >= 31.0 * PRECISION
  {
    AtMost44(n, s);
  }

  lemma SwapFactors(x: real, y: real, z: real)
    ensures x * y * z == x * z * y
  {
  }

  lemma AtMostVia(x: real, y: real, z: real)
    requires x <= y && y <= z
    ensures x <= z
  {
  }

  lemma RoundingBound(s: real, d: real, m: real, u: real, z: real)
    requires u > 0.0 && 262144.0 <= d <= 524288.0 && 262144.0 <= m <= 524288.0
    requires s >= 31.0 * u && -d - m <= z <= d + m
    ensures -(s * m) <= z * u <= s * m
  {
    assert (d + m) * u <= s * m by {
      LessProducts(31.0 * u, s, m);
      LessProducts(d + m, 31.0 * m, u);
      SwapFactors(31.0, m, u);
      AtMostVia((d + m) * u, 31.0 * m * u, s * m);
    }
    LessProducts(z, d + m, u);
    LessProducts(-d - m, z, u);
    assert (-d - m) * u == -((d + m) * u);
  }

  lemma ErrorBound(y: real, ns: real, m: real)
    requires m > 0.0 && -ns <= y <= ns
    ensures -(ns * m) <= y * m <= ns * m
  {
    LessProducts(y, ns, m);
    LessProducts(-ns, y, m);
  }

  lemma Conclude(x: real, nt: real, t: real, d: real, ns: real, s: real, y: real, z: real)
    requires d > 0.0 && x * d == y - z && nt * d == ns && t * d == s
    requires -ns <= y <= ns && -s <= z <= s
    ensures -(nt + t) <= x <= nt + t
  {
    assert (nt + t) * d == ns + s;
    assert -(nt + t) * d == -ns - s;
    LessProducts(x, nt + t, d);
    LessProducts(-(nt + t), x, d);
  }

  /** Closeness carries over to a neighbour at the cost of one more unit: here t * d == s * m exactly, a * d == b * m nearly. */
  lemma CloseNext(t: real, a: real, s: real, b: real, n: real, d: real, m: real)
    requires t > 0.0 && s > 0.0 && 0.0 <= n <= 43.0 && b >= 32.0 * PRECISION - 2147483648.0
    requires t * d == s * m && Close(s, b, n)
    requires 262144.0 <= d <= 524288.0 && 262144.0 <= m <= 524288.0
    requires -d - m <= a * d - b * m <= d + m
    ensures Close(t, a, n + 1.0)
  {
    FarFromZero(s, b, n);
    var u := PRECISION;
    var z, y, x, ns, nt := a * d - b * m, (s - b) * u, (t - a) * u, n * s, n * t;
    assert x * d == y * m - z * u by { Expand(t, a, s, b, d, m, u); }
    assert nt * d == ns * m by { MulThrough(n, t, d, s, m); }
    assert -ns <= y <= ns;
    assert -nt - t <= x <= nt + t by {
      RoundingBound(s, d, m, u, z);
      ErrorBound(y, ns, m);
      Conclude(x, nt, t, d, ns * m, s * m, y * m, z * u);
    }
    assert (n + 1.0) * t == nt + t;
  }

  /** The power of two that takes the place of 10^8 between two entries, divided by 2^8. */
  ghost function Divider(i: nat): real
    requires i + 1 < COUNT
  {
    if Cached(i + 1).e == Cached(i).e + 26 then 262144.0 else 524288.0
  }

  lemma ExactStepInReals(i: nat)
    requires i + 1 < COUNT
    ensures Exact(i) > 0.0 && Exact(i + 1) * Divider(i) == Exact(i) * 390625.0
  {
    hide Cached, Power, Correction, Extended, ExponentOk;
    EntriesAreOk(i);
    EighthPowers();
    ExactIsPositive(i);
    hide Exact;
    ExactStep(i);
  }

  lemma ExactIsPositive(i: nat)
    requires i < COUNT
    ensures Exact(i) > 0.0
  {
    hide Cached;
  }

  lemma ExtendedStepInReals(i: nat)
    requires i + 1 < COUNT
    ensures var d := Divider(i);
      -d - 390625.0 <= Extended(i + 1) as real * d - Extended(i) as real * 390625.0 <= d + 390625.0
  {
    hide Cached, Correction, Extended, ExponentOk;
    EntriesAreOk(i);
    var a, b := Extended(i), Extended(i + 1);
    assert (a * 390625) as real == a as real * 390625.0;
    if Cached(i + 1).e == Cached(i).e + 26 {
      assert (b * 0x4_0000) as real == b as real * 262144.0;
    } else {
      assert (b * 0x8_0000) as real == b as real * 524288.0;
    }
  }

  lemma ExtendedIsLarge(i: nat)
    requires i < COUNT
    ensures 32.0 * PRECISION - 2147483648.0 <= Extended(i) as real <= 64.0 * PRECISION + 2147483648.0
  {
    hide Cached, Correction, ExponentOk, StepOk;
    EntriesAreOk(i);
    CachedIsNormalized(i);
  }

  lemma CloseUp(i: nat, n: real)
    requires i + 1 < COUNT && 0.0 <= n <= 43.0 && Close(Exact(i), Extended(i) as real, n)
    ensures Close(Exact(i + 1), Extended(i + 1) as real, n + 1.0)
  {
    hide Cached, Extended, Exact, Close;
    ExactStepInReals(i);
    ExactIsPositive(i + 1);
    ExtendedStepInReals(i);
    ExtendedIsLarge(i);
    CloseNext(Exact(i + 1), Extended(i + 1) as real, Exact(i), Extended(i) as real, n, Divider(i), 390625.0);
  }

  lemma CloseDown(i: nat, n: real)
    requires i + 1 < COUNT && 0.0 <= n <= 43.0 && Close(Exact(i + 1), Extended(i + 1) as real, n)
    ensures Close(Exact(i), Extended(i) as real, n + 1.0)
  {
    hide Cached, Extended, Exact, Close;
    ExactStepInReals(i);
    ExactIsPositive(i + 1);
    ExtendedStepInReals(i);
    ExtendedIsLarge(i + 1);
    CloseNext(Exact(i), Extended(i) as real, Exact(i + 1), Extended(i + 1) as real, n, 390625.0, Divider(i));
  }

  lemma Power82()
    ensures Power(10.0, 4) == 10000.0 && Power(2.0, 82) == 4835703278458516698824704.0
  {
    PowerOfTen(4);
    PowerOfTwo(82);
    CountDigits.SmallPowersOfTen();
    hide Power, Decimal.Pow10;
    Decimal.Pow2Adds(63, 19);
    CountDigits.LargePowersOfTwo();
    CountDigits.SmallPowersOfTwo();
    hide Decimal.Pow2;
  }

  lemma Entry44()
    ensures Cached(44) == Fp(0x9c40000000000000, -50) && Correction(44) == 0
  {
  }

  /** 10^4 has an exact entry, from which all others are reached. */
  lemma CloseAt44()
    ensures Close(Exact(44), Extended(44) as real, 0.0)
  {
    hide Power, Cached, Correction;
    Power82();
    Entry44();
  }

  lemma {:induction false} AllClose(i: nat)
    requires i < COUNT
    ensures Close(Exact(i), Extended(i) as real, if i < 44 then (44 - i) as real else (i - 44) as real)
    decreases if i < 44 then 44 - i else i - 44
  {
    hide Exact, Extended, Close;
    if i < 44 {
      AllClose(i + 1);
      CloseDown(i, (44 - i - 1) as real);
    } else if i > 44 {
      AllClose(i - 1);
      CloseUp(i - 1, (i - 1 - 44) as real);
    } else {
      CloseAt44();
    }
  }

  lemma SmallError(t: real, a: real)
    requires t > 0.0 && -(44.0 * t) <= (t - a) * PRECISION <= 44.0 * t && a <= 64.0 * PRECISION + 2147483648.0
    ensures -65536.0 <= t - a <= 65536.0
  {
    assert t * PRECISION <= 44.0 * t + a * PRECISION;
    assert t <= 65.0 * PRECISION;
  }

  lemma NearInteger(t: real, a: real, f: real, n: real)
    requires t > 0.0 && 0.0 <= n <= 44.0 && Close(t, a, n) && a <= 64.0 * PRECISION + 2147483648.0
    requires -0x7FFF_0000 as real <= a - f * 4294967296.0 <= 0x7FFF_0000 as real
    ensures (f - 0.5) * 4294967296.0 <= t <= (f + 0.5) * 4294967296.0
  {
    AtMost44(n, t);
    SmallError(t, a);
  }

  lemma ExtendedIsNear(i: nat)
    requires i < COUNT
    ensures -0x7FFF_0000 as real <= Extended(i) as real - Cached(i).f as real * 4294967296.0 <= 0x7FFF_0000 as real
  {
    hide Cached, Correction, ExponentOk, StepOk;
    EntriesAreOk(i);
    assert (Cached(i).f * W) as real == Cached(i).f as real * 4294967296.0;
  }

  lemma ExactUnscaled(i: nat)
    requires i < COUNT
    ensures Exact(i) * Power(2.0, Cached(i).e - 32) == Power(10.0, DecimalExponent(i))
    ensures Power(2.0, Cached(i).e) == 4294967296.0 * Power(2.0, Cached(i).e - 32)
  {
    hide Power, Cached;
    var e := Cached(i).e;
    PowerAdds(2.0, 32 - e, e - 32);
    PowerAdds(2.0, e - 32, 32);
    PowerOfTwo(32);
    Power32();
    assert 32 - e + (e - 32) == 0 && e - 32 + 32 == e;
    PowerZero(2.0);
    Regroup(Power(10.0, DecimalExponent(i)), Power(2.0, 32 - e), Exact(i), Power(2.0, e - 32));
  }

  lemma Power32()
    ensures Decimal.Pow2(32) == 4294967296
  {
    CountDigits.SmallPowersOfTwo();
    CountDigits.Pow2Up(29);
  }

  lemma ScaleBounds(lo: real, t: real, hi: real, s: real)
    requires s > 0.0 && lo * 4294967296.0 <= t <= hi * 4294967296.0
    ensures lo * (4294967296.0 * s) <= t * s <= hi * (4294967296.0 * s)
  {
    LessProducts(lo * 4294967296.0, t, s);
    LessProducts(t, hi * 4294967296.0, s);
  }

  /** Every cached power is within half a unit in the last place of the power of ten it stands for. */
  lemma WithinHalfUlp(i: nat)
    requires i < COUNT
    ensures var c, p := Cached(i), Power(10.0, DecimalExponent(i));
      (c.f as real - 0.5) * Power(2.0, c.e) <= p <= (c.f as real + 0.5) * Power(2.0, c.e)
  {
    hide Cached, Extended, Exact, Close, Power;
    AllClose(i);
    ExactIsPositive(i);
    ExtendedIsLarge(i);
    ExtendedIsNear(i);
    NearInteger(Exact(i), Extended(i) as real, Cached(i).f as real, if i < 44 then (44 - i) as real else (i - 44) as real);
    ExactUnscaled(i);
    ScaleBounds(Cached(i).f as real - 0.5, Exact(i), Cached(i).f as real + 0.5, Power(2.0, Cached(i).e - 32));
  }
}
