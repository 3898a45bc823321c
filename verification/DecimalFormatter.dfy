/** lg and decimal_formatter: 32-bit numbers printed by fixed-point multiplication, two digits at a time. */
module DecimalFormatter {
  import opened Arithmetic
  import opened Decimal
  import opened CountDigits

  /** The twenty characters of the table DIGITS that start with the given tens digit. */
  function Row(tens: nat): (row: string)
    requires tens < 10
    ensures |row| == 20
  {
    match tens
    case 0 => "00010203040506070809"
    case 1 => "10111213141516171819"
    case 2 => "20212223242526272829"
    case 3 => "30313233343536373839"
    case 4 => "40414243444546474849"
    case 5 => "50515253545556575859"
    case 6 => "60616263646566676869"
    case 7 => "70717273747576777879"
    case 8 => "80818283848586878889"
    case 9 => "90919293949596979899"
  }

  function Rows(n: nat): (rows: string)
    requires n <= 10
    ensures |rows| == 20 * n
  {
    if n == 0 then "" else Rows(n - 1) + Row(n - 1)
  }

  const DIGITS: string := Rows(10)

  /** A tens digit paired with each units digit in turn. */
  function Paired(tens: char): string {
    [tens, '0', tens, '1', tens, '2', tens, '3', tens, '4', tens, '5', tens, '6', tens, '7', tens, '8', tens, '9']
  }

  lemma RowIsPaired(tens: nat)
    requires tens < 10
    ensures Row(tens) == Paired(DigitChar(tens))
  {
  }

  lemma PairedAt(tens: char, units: nat)
    requires units < 10
    ensures Paired(tens)[2 * units] == tens && Paired(tens)[2 * units + 1] == DigitChar(units)
  {
  }

  lemma {:induction false} RowInTable(n: nat, tens: nat)
    requires tens < n <= 10
    ensures Rows(n)[20 * tens..20 * tens + 20] == Row(tens)
  {
    hide Row;
    if tens < n - 1 {
      RowInTable(n - 1, tens);
    }
  }

  /** The two characters of DIGITS at 2 * index are the two decimal digits of index. */
  lemma DigitPair(index: nat)
    requires index < 100
    ensures |DIGITS| == 200
    ensures DIGITS[2 * index] == DigitChar(index / 10) && DIGITS[2 * index + 1] == DigitChar(index % 10)
  {
    hide Row, Rows, Paired;
    var tens, units := index / 10, index % 10;
    RowIsPaired(tens);
    PairedAt(DigitChar(tens), units);
    RowInTable(10, tens);
    assert DIGITS[20 * tens..20 * tens + 20][2 * units] == DIGITS[2 * index];
    assert DIGITS[20 * tens..20 * tens + 20][2 * units + 1] == DIGITS[2 * index + 1];
  }

  /** floor(log10(n)), and 0 for 0, by the comparisons of lg. */
  function Lg(n: nat): (g: nat)
    ensures g <= 9
  {
    if n < 100 then if n < 10 then 0 else 1
    else if n < 1_000_000 then
      if n < 10_000 then if n < 1000 then 2 else 3 else if n < 100_000 then 4 else 5
    else if n < 100_000_000 then if n < 10_000_000 then 6 else 7
    else if n < 1_000_000_000 then 8 else 9
  }

  lemma LgIsDigitCount(n: nat)
    requires n < W
    ensures |Digits(n)| == Lg(n) + 1
  {
    SmallPowersOfTen();
    hide Pow10;
    DigitCount(n, Lg(n) + 1);
  }

  /** The shift a of on<N>, with n = N - 1. */
  function Shift(n: nat): nat {
    n / 5 * n * 53 / 16
  }

  /** The reciprocal of 10^n, scaled by 2^(32 + a) and rounded up. */
  function Reciprocal(n: nat): int {
    Pow2(32 + Shift(n)) / Pow10(n) + 1 - n / 9
  }

  /** The 32.32 fixed-point value of u / 10^n that the digits are taken from. */
  function Scaled(n: nat, u: nat): int {
    Reciprocal(n) * u / Pow2(Shift(n)) + n / 5 * 4
  }

  lemma MorePowersOfTwo()
    ensures Pow2(0) == 1 && Pow2(32) == W
    ensures Pow2(48) == 281474976710656
    ensures Pow2(51) == 2251799813685248
    ensures Pow2(55) == 36028797018963968
    ensures Pow2(58) == 288230376151711744
  {
    SmallPowersOfTwo();
    LargePowersOfTwo();
    Pow2Up(29);
    Pow2Up(48);
    Pow2Up(52);
    Pow2Up(51);
    Pow2Up(55);
    Pow2Up(58);
  }

  lemma ReciprocalValues()
    ensures Shift(1) == 0 && Reciprocal(1) == 429496730
    ensures Shift(2) == 0 && Reciprocal(2) == 42949673
    ensures Shift(3) == 0 && Reciprocal(3) == 4294968
    ensures Shift(4) == 0 && Reciprocal(4) == 429497
    ensures Shift(5) == 16 && Reciprocal(5) == 2814749768
    ensures Shift(6) == 19 && Reciprocal(6) == 2251799814
    ensures Shift(7) == 23 && Reciprocal(7) == 3602879702
    ensures Shift(8) == 26 && Reciprocal(8) == 2882303762
  {
    MorePowersOfTwo();
    SmallPowersOfTen();
    hide Pow2, Pow10;
  }

  /** The scaled value exceeds u / 10^n by less than 10^-n in units of W, and nothing overflows 64 bits. */
  lemma ScaledError(n: nat, u: nat)
    requires 1 <= n <= 8 && u < W && u < Pow10(n + 2)
    ensures 0 <= Reciprocal(n) * u < W * W
    ensures 0 <= Scaled(n, u) < 100 * W
    ensures 0 <= Scaled(n, u) * Pow10(n) - u * W < W
  {
    ReciprocalValues();
    MorePowersOfTwo();
    SmallPowersOfTwo();
    SmallPowersOfTen();
    hide Pow2, Pow10, Reciprocal, Shift;
  }

  /** The last d decimal digits of n, with leading zeros. */
  function Padded(n: nat, d: nat): (ds: seq<nat>)
    ensures |ds| == d && AreDigits(ds)
  {
    if d == 0 then [] else Padded(n / 10, d - 1) + [n % 10]
  }

  lemma {:induction false} PaddedOfValue(ds: seq<nat>)
    requires AreDigits(ds)
    ensures Padded(Value(ds), |ds|) == ds
  {
    if ds != [] {
      var n := Value(ds);
      PaddedOfValue(ds[..|ds| - 1]);
      assert n / 10 == Value(ds[..|ds| - 1]) && n % 10 == ds[|ds| - 1];
    }
  }

  lemma PaddedToLength(n: nat)
    ensures Padded(n, |Digits(n)|) == Digits(n)
  {
    DigitsDenote(n);
    PaddedOfValue(Digits(n));
  }

  /** Two quotients that differ leave a gap of at least W * p, too much for any remainders. */
  lemma TopProducts(q: int, k: int, f: nat, p: nat, s: nat)
    requires p > 0 && f < W && s < p && 0 <= W * (q * p) + f * p - (k * p + s) * W < W
    ensures q == k
  {
    OrderedProducts(f, W - 1, p);
    ProductGap(q, k, p);
    ProductGap(k, q, p);
  }

  lemma ProductGap(a: int, b: int, p: nat)
    ensures a < b ==> a * p + p <= b * p
  {
    if a < b {
      OrderedProducts(a + 1, b, p);
      assert (a + 1) * p == a * p + p;
    }
  }

  /** Taking the integer part of a fixed-point value whose error is below one unit is exact and keeps the error. */
  lemma TopPart(t: nat, p: nat, r: nat)
    requires p > 0 && 0 <= t * p - r * W < W
    ensures t / W == r / p
    ensures (t % W) * p - (r % p) * W == t * p - r * W
  {
    var q, k, f, s := t / W, r / p, t % W, r % p;
    assert t * p == W * (q * p) + f * p by { assert t == q * W + f; }
    assert r == k * p + s;
    TopProducts(q, k, f, p, s);
  }

  /** The fixed-point fraction t stands for the digits of r that are still to be written, below p. */
  predicate Fraction(t: nat, p: nat, r: nat) {
    t < W && r < p && 0 <= t * p - r * W < W
  }

  lemma FirstPair(n: nat, u: nat)
    requires 1 <= n <= 8 && u < W && u < Pow10(n + 2)
    ensures 0 <= Reciprocal(n) * u < W * W
    ensures 0 <= Scaled(n, u) && Scaled(n, u) / W == u / Pow10(n) < 100
    ensures Fraction(Scaled(n, u) % W, Pow10(n), u % Pow10(n))
  {
    hide Scaled, Reciprocal;
    ScaledError(n, u);
    TopPart(Scaled(n, u), Pow10(n), u);
  }

  /** Multiplying the fraction by the scale of the next digits moves exactly those digits above the point. */
  lemma NextDigits(t: nat, scale: nat, p: nat, r: nat)
    requires 0 < scale <= 100 && p > 0 && Fraction(t, scale * p, r)
    ensures scale * t < 100 * W
    ensures scale * t / W == r / p < scale
    ensures Fraction(scale * t % W, p, r % p)
  {
    assert scale * t * p == t * (scale * p);
    TopPart(scale * t, p, r);
    QuotientBelow(r, p, scale);
    OrderedProducts(t + 1, W, scale);
    hide *;
    assert (t + 1) * scale == scale * t + scale;
  }

  lemma QuotientBelow(r: nat, p: nat, scale: nat)
    requires p > 0 && r < scale * p
    ensures r / p < scale
  {
    DivBounds(r, p);
    ProductGap(r / p, scale, p);
    if r / p >= scale {
      OrderedProducts(scale, r / p, p);
    }
  }

  lemma ValuePair(ds: seq<nat>, pair: nat)
    requires AreDigits(ds) && pair < 100
    ensures AreDigits(ds + [pair / 10, pair % 10])
    ensures Value(ds + [pair / 10, pair % 10]) == 100 * Value(ds) + pair
  {
    ValueSnoc(ds, pair / 10);
    ValueSnoc(ds + [pair / 10], pair % 10);
    assert ds + [pair / 10, pair % 10] == ds + [pair / 10] + [pair % 10];
  }

  /** The value of the digits written plus the part still to come is kept when digits move from one to the other. */
  lemma ValueKept(v: nat, scale: nat, p: nat, r: nat)
    requires p > 0
    ensures (scale * v + r / p) * p + r % p == v * (scale * p) + r
  {
    assert (scale * v + r / p) * p == v * (scale * p) + r / p * p;
  }

  lemma Hundredth(k: nat)
    ensures Pow10(k + 2) == 100 * Pow10(k)
  {
    assert Pow10(k + 2) == 10 * Pow10(k + 1);
  }

  lemma NothingPrinted(before: string, at: nat)
    requires at <= |before|
    ensures Printed(before, before, at, [])
  {
  }

  lemma AllPrinted(before: string, after: string, at: nat, ds: seq<nat>, u: nat)
    requires Printed(before, after, at, ds) && Value(ds) == u
    ensures after == Overwrite(before, at, Text(Padded(u, |ds|)))
  {
    PrintedIsText(before, after, at, ds);
    PaddedOfValue(ds);
  }

  /** The digits ds are written, and the fraction t stands for the k digits of u that are not. */
  ghost predicate Pending(ds: seq<nat>, t: nat, k: nat, r: nat, u: nat) {
    AreDigits(ds) && Fraction(t, Pow10(k), r) && Value(ds) * Pow10(k) + r == u
  }

  /** One step of the loop: t becomes the next pair and its fraction. */
  lemma NextPair(ds: seq<nat>, t: nat, k: nat, r: nat, u: nat)
    requires Pending(ds, t, k + 2, r, u)
    ensures 100 * t / W < 100
    ensures var pair := 100 * t / W; Pending(ds + [pair / 10, pair % 10], 100 * t % W, k, r % Pow10(k), u)
  {
    hide Fraction, Value;
    Hundredth(k);
    NextDigits(t, 100, Pow10(k), r);
    ValuePair(ds, 100 * t / W);
    ValueKept(Value(ds), 100, Pow10(k), r);
  }

  /** The step after the loop, for an even N. */
  lemma LastDigit(ds: seq<nat>, t: nat, r: nat, u: nat)
    requires Pending(ds, t, 1, r, u)
    ensures 10 * t / W < 10 && Value(ds + [10 * t / W]) == u
  {
    SmallPowersOfTen();
    hide Fraction, Value, Pow10;
    NextDigits(t, 10, 1, r);
    ValueSnoc(ds, 10 * t / W);
  }

  lemma NothingLeft(ds: seq<nat>, t: nat, r: nat, u: nat)
    requires Pending(ds, t, 0, r, u)
    ensures Value(ds) == u
  {
  }

  lemma FirstDigits(n: nat, u: nat)
    requires 1 <= n <= 8 && u < W && u < Pow10(n + 2)
    ensures 0 <= Reciprocal(n) * u < W * W
    ensures 0 <= Scaled(n, u) && Scaled(n, u) / W < 100
    ensures var t := Scaled(n, u); Pending([t / W / 10, t / W % 10], t % W, n, u % Pow10(n), u)
  {
    hide Scaled, Reciprocal, Fraction, Value, Pow10;
    FirstPair(n, u);
    PairValue(Scaled(n, u) / W);
  }

  lemma EmptyValue()
    ensures Value([]) == 0
  {
  }

  lemma PairValue(pair: nat)
    requires pair < 100
    ensures Value([pair / 10, pair % 10]) == pair
  {
    ValuePair([], pair);
    assert [] + [pair / 10, pair % 10] == [pair / 10, pair % 10];
  }

  /** s with its characters from at on replaced by those of t. */
  function Overwrite(s: string, at: nat, t: string): (r: string)
    requires at + |t| <= |s|
    ensures |r| == |s|
  {
    s[..at] + t + s[at + |t|..]
  }

  /** After the digits ds have been written at the given place, and nothing else. */
  ghost predicate Printed(before: string, after: string, at: nat, ds: seq<nat>) {
    && AreDigits(ds)
    && at + |ds| <= |before| == |after|
    && (forall i :: 0 <= i < |ds| ==> after[at + i] == DigitChar(ds[i]))
    && after[..at] == before[..at]
    && after[at + |ds|..] == before[at + |ds|..]
  }

  lemma PrintedIsText(before: string, after: string, at: nat, ds: seq<nat>)
    requires Printed(before, after, at, ds)
    ensures after == Overwrite(before, at, Text(ds))
  {
    assert after[at..at + |ds|] == Text(ds);
    assert after == after[..at] + after[at..at + |ds|] + after[at + |ds|..];
  }

  lemma PrintDigit(before: string, after: string, at: nat, ds: seq<nat>, d: nat)
    requires Printed(before, after, at, ds) && d < 10 && at + |ds| < |after|
    ensures Printed(before, after[at + |ds| := DigitChar(d)], at, ds + [d])
  {
    var next := after[at + |ds| := DigitChar(d)];
    assert next[..at] == before[..at];
    assert next[at + |ds| + 1..] == after[at + |ds|..][1..];
  }

  /** Writes the digits of a number at its position in the buffer, and moves on behind them. */
  class DecimalFormatter {
    const buffer: array<char>
    var position: nat

    constructor (b: array<char>)
      ensures buffer == b && position == 0
    {
      buffer := b;
      position := 0;
    }

    method WriteDigit(at: nat, d: nat, ghost before: string, ghost ds: seq<nat>)
      requires d < 10 && position + at < buffer.Length
      requires at == |ds| && Printed(before, buffer[..], position, ds)
      modifies buffer
      ensures Printed(before, buffer[..], position, ds + [d])
    {
      hide Printed;
      PrintDigit(before, buffer[..], position, ds, d);
      ghost var was := buffer[..];
      buffer[position + at] := '0' + d as char;
      assert buffer[..] == was[position + at := DigitChar(d)];
    }

    method WritePair(at: nat, index: nat, ghost before: string, ghost ds: seq<nat>)
      requires index < 100 && position + at + 2 <= buffer.Length
      requires at == |ds| && Printed(before, buffer[..], position, ds)
      modifies buffer
      ensures Printed(before, buffer[..], position, ds + [index / 10, index % 10])
    {
      hide Printed, DigitChar, Rows;
      DigitPair(index);
      PrintDigit(before, buffer[..], position, ds, index / 10);
      ghost var first := buffer[..][position + at := DigitChar(index / 10)];
      PrintDigit(before, first, position, ds + [index / 10], index % 10);
      buffer[position + at] := DIGITS[2 * index];
      assert buffer[..] == first;
      buffer[position + at + 1] := DIGITS[2 * index + 1];
      assert buffer[..] == first[position + at + 1 := DigitChar(index % 10)];
      assert ds + [index / 10, index % 10] == ds + [index / 10] + [index % 10];
    }

    /** on<N>: exactly the digits of u, for any u of at most N + 1 digits. */
    method On(N: nat, u: nat)
      requires N <= 9 && u < W && u < Pow10(N + 1) && position + N + 1 <= buffer.Length
      modifies this`position, buffer
      ensures position == old(position) + N + 1
      ensures buffer[..] == Overwrite(old(buffer[..]), old(position), Text(Padded(u, N + 1)))
    {
      hide Pow10, Scaled, Reciprocal, DigitChar, Rows, Printed, Pending, Padded, Text, Overwrite, Value;
      SmallPowersOfTen();
      ghost var before, ds: seq<nat> := buffer[..], [];
      NothingPrinted(before, position);
      if N == 0 {
        WriteDigit(0, u, before, []);
        ValueSnoc([], u);
        ds := [] + [u];
        assert Value([]) == 0 by { EmptyValue(); }
      } else if N == 1 {
        WritePair(0, u, before, []);
        PairValue(u);
        ds := [] + [u / 10, u % 10];
        assert ds == [u / 10, u % 10];
      } else {
        var n := N - 1;
        FirstDigits(n, u);
        var t: nat := Scaled(n, u);
        WritePair(0, t / W, before, []);
        ds := [] + [t / W / 10, t / W % 10];
        assert ds == [t / W / 10, t / W % 10];
        ghost var r: nat := u % Pow10(n);
        var i := 2;
        while i < N
          invariant 2 <= i <= N + 1 && i % 2 == 0
          invariant |ds| == i && Printed(before, buffer[..], position, ds)
          invariant Pending(ds, t % W, N + 1 - i, r, u)
          modifies buffer
        {
          NextPair(ds, t % W, N - 1 - i, r, u);
          t := 100 * (t % W);
          WritePair(i, t / W, before, ds);
          ds := ds + [t / W / 10, t / W % 10];
          r := r % Pow10(N - 1 - i);
          i := i + 2;
        }
        if N % 2 == 0 {
          LastDigit(ds, t % W, r, u);
          var d := 10 * (t % W) / W;
          WriteDigit(N, d, before, ds);
          ds := ds + [d];
        } else {
          NothingLeft(ds, t % W, r, u);
        }
      }
      AllPrinted(before, buffer[..], position, ds, u);
      position := position + N + 1;
    }

    /** lg(u, decimal_formatter(buffer)): the digits of any 32-bit u, and nothing else, are written. */
    method Format(u: nat)
      requires u < W && position + |Digits(u)| <= buffer.Length
      modifies this`position, buffer
      ensures position == old(position) + |Digits(u)|
      ensures AreDigits(Digits(u)) && buffer[..] == Overwrite(old(buffer[..]), old(position), Text(Digits(u)))
    {
      hide Digits, Padded, Lg, Text, Overwrite, Pow10;
      LgIsDigitCount(u);
      DigitsDenote(u);
      PaddedToLength(u);
      On(Lg(u), u);
    }
  }
}
