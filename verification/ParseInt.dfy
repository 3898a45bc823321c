/** parse_nonnegative_int: decimal digits read with an overflow check that itself never overflows. */
module ParseInt {
  import opened Decimal

  const INT_MAX: nat := 0x7FFF_FFFF

  predicate IsDigit(c: char) {
    '0' <= c <= '9'
  }

  function DigitOf(c: char): (d: nat)
    requires IsDigit(c)
    ensures d < 10
  {
    (c - '0') as nat
  }

  /** The digits at the beginning of s, up to the first character that is none. */
  function DigitRun(s: string): (ds: seq<nat>)
    ensures |ds| <= |s| && AreDigits(ds)
  {
    if s == [] || !IsDigit(s[0]) then [] else [DigitOf(s[0])] + DigitRun(s[1..])
  }

  lemma {:induction false} ValueConcat(a: seq<nat>, b: seq<nat>)
    ensures Value(a + b) == Value(a) * Pow10(|b|) + Value(b)
  {
    if b == [] {
      assert a + b == a;
    } else {
      assert (a + b)[..|a + b| - 1] == a + b[..|b| - 1];
      ValueConcat(a, b[..|b| - 1]);
      assert Value(a) * Pow10(|b|) == 10 * (Value(a) * Pow10(|b| - 1));
    }
  }

  lemma {:induction false} RunOfText(ds: seq<nat>, rest: string)
    requires AreDigits(ds) && (rest == [] || !IsDigit(rest[0]))
    ensures DigitRun(Text(ds) + rest) == ds
  {
    if ds == [] {
      assert Text(ds) + rest == rest;
    } else {
      assert (Text(ds) + rest)[1..] == Text(ds[1..]) + rest;
      RunOfText(ds[1..], rest);
    }
  }

  /** What formatting a number produces is read back as that number, whatever follows it. */
  lemma FormattedIsParsed(n: nat, rest: string)
    requires rest == [] || !IsDigit(rest[0])
    ensures AreDigits(Digits(n)) && Value(DigitRun(Text(Digits(n)) + rest)) == n
  {
    DigitsDenote(n);
    RunOfText(Digits(n), rest);
  }

  /** The number denoted when value has been read and s is still to come. */
  ghost function Total(value: nat, s: string): nat {
    value * Pow10(|DigitRun(s)|) + Value(DigitRun(s))
  }

  lemma MulDistributes(v: nat, d: nat, p: nat)
    ensures (v * 10 + d) * p == v * (10 * p) + d * p
  {
  }

  lemma DigitRead(value: nat, s: string)
    requires s != [] && IsDigit(s[0])
    ensures Total(value, s) == Total(value * 10 + DigitOf(s[0]), s[1..])
    ensures |DigitRun(s)| == 1 + |DigitRun(s[1..])|
  {
    var d, run := DigitOf(s[0]), DigitRun(s[1..]);
    RunFirst(s);
    hide *;
    TotalIs(value, s);
    TotalIs(value * 10 + d, s[1..]);
    ValueConcat([d], run);
    OneDigit(d, |run|);
    MulDistributes(value, d, Pow10(|run|));
  }

  lemma RunFirst(s: string)
    requires s != [] && IsDigit(s[0])
    ensures DigitRun(s) == [DigitOf(s[0])] + DigitRun(s[1..])
  {
  }

  lemma TotalIs(value: nat, s: string)
    ensures Total(value, s) == value * Pow10(|DigitRun(s)|) + Value(DigitRun(s))
  {
  }

  lemma OneDigit(d: nat, n: nat)
    ensures Value([d]) == d && Pow10(n + 1) == 10 * Pow10(n)
  {
    assert [d][..0] == [];
  }

  lemma NoDigitLeft(value: nat, s: string)
    requires s == [] || !IsDigit(s[0])
    ensures Total(value, s) == value && DigitRun(s) == []
  {
  }

  lemma OnlyGrows(value: nat, s: string)
    requires s != [] && IsDigit(s[0])
    ensures Total(value, s) >= 10 * value
  {
    var p := Pow10(|DigitRun(s[1..])|);
    assert Pow10(|DigitRun(s)|) == 10 * p;
    hide *;
    assert value * (10 * p) >= 10 * value;
  }

  /** The range [begin, end) as an unsigned integer; the range starts with a digit. */
  method ParseNonnegativeInt(s: string, begin: nat) returns (value: nat, next: nat, tooBig: bool)
    requires begin < |s| && IsDigit(s[begin])
    ensures tooBig <==> Value(DigitRun(s[begin..])) > INT_MAX
    ensures !tooBig ==> value == Value(DigitRun(s[begin..])) && next == begin + |DigitRun(s[begin..])|
    ensures begin < next <= |s| && value < 0x1_0000_0000
  {
    hide DigitRun, Value, Total;
    ghost var run := DigitRun(s[begin..]);
    Unread(s[begin..]);
    value, next := 0, begin;
    var big := INT_MAX / 10;
    var more := true;
    while more
      invariant begin <= next <= |s| && value < 0x1_0000_0000 && (value > 0 ==> begin < next)
      invariant next == begin ==> more
      invariant more <==> next < |s| && IsDigit(s[next])
      invariant Total(value, s[next..]) == Value(run)
      invariant next + |DigitRun(s[next..])| == begin + |run|
      decreases |s| - next
    {
      if value > big {
        OnlyGrows(value, s[next..]);
        value := INT_MAX + 1;
        break;
      }
      DigitRead(value, s[next..]);
      assert s[next..][1..] == s[next + 1..];
      value := value * 10 + DigitOf(s[next]);
      next := next + 1;
      more := next < |s| && IsDigit(s[next]);
    }
    if !more {
      NoDigitLeft(value, s[next..]);
    }
    tooBig := value > INT_MAX;
  }

  lemma Unread(s: string)
    ensures Total(0, s) == Value(DigitRun(s))
  {
  }
}
