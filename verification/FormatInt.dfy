/** Integers printed backwards with thousands separators, and parsed with an overflow check. */
module FormatInt {
  import opened Arithmetic
  import opened Decimal
  import opened CountDigits
  import opened DecimalFormatter

  /** The digits in groups of three, counted from the right, with sep between the groups. */
  function Grouped(ds: seq<nat>, sep: string): string
    requires AreDigits(ds)
  {
    if |ds| <= 3 then Text(ds)
    else Grouped(ds[..|ds| - 3], sep) + sep + Text(ds[|ds| - 3..])
  }

  lemma PrefixIsDigits(ds: seq<nat>, n: nat)
    requires AreDigits(ds) && n <= |ds|
    ensures AreDigits(ds[..n]) && AreDigits(ds[n..])
  {
  }

  lemma TextLength(ds: seq<nat>)
    requires AreDigits(ds)
    ensures |Text(ds)| == |ds|
  {
  }

  lemma OneMore(s: nat, k: nat)
    ensures s * (k + 1) == s * k + s
  {
  }

  /** The cells that on_num reserves: one per digit and (d - 1) / 3 separators. */
  lemma {:induction false} GroupedLength(ds: seq<nat>, sep: string)
    requires AreDigits(ds) && ds != []
    ensures |Grouped(ds, sep)| == |ds| + |sep| * ((|ds| - 1) / 3)
  {
    hide AreDigits, Text;
    if |ds| > 3 {
      PrefixIsDigits(ds, |ds| - 3);
      GroupedLength(ds[..|ds| - 3], sep);
      TextLength(ds[|ds| - 3..]);
      assert (|ds| - 1) / 3 == (|ds| - 4) / 3 + 1;
      OneMore(|sep|, (|ds| - 4) / 3);
    } else {
      TextLength(ds);
      assert (|ds| - 1) / 3 == 0;
    }
  }

  /** Where the digit with k digits to its right stands. */
  function Place(ds: seq<nat>, sep: string, k: nat): int
    requires AreDigits(ds)
  {
    |Grouped(ds, sep)| - 1 - k - |sep| * (k / 3)
  }

  lemma TextAt(ds: seq<nat>, i: nat)
    requires AreDigits(ds) && i < |ds|
    ensures |Text(ds)| == |ds| && Text(ds)[i] == DigitChar(ds[i])
  {
  }

  /** The character at the place, and after a group of three the separator to its right. */
  predicate Stands(g: string, sep: string, k: nat, at: int, c: char) {
    && 0 <= at < |g| && g[at] == c
    && (k > 0 && k % 3 == 0 ==> at + 1 + |sep| <= |g| && g[at + 1..at + 1 + |sep|] == sep)
  }

  lemma StandsInFirst(high: string, sep: string, low: string, k: nat, at: int, c: char)
    requires k >= 3 && Stands(high, sep, k - 3, at, c) && (k == 3 ==> at == |high| - 1)
    ensures Stands(high + sep + low, sep, k, at, c)
  {
    var g := high + sep + low;
    assert g[at] == high[at];
    if k == 3 {
      assert g[at + 1..at + 1 + |sep|] == sep;
    } else if k % 3 == 0 {
      assert g[at + 1..at + 1 + |sep|] == high[at + 1..at + 1 + |sep|];
    }
  }

  lemma StandsInLast(high: string, sep: string, low: string, k: nat)
    requires k < |low| <= 3
    ensures Stands(high + sep + low, sep, k, |high + sep + low| - 1 - k, low[|low| - 1 - k])
  {
  }

  lemma StandsAlone(text: string, sep: string, k: nat)
    requires k < |text| <= 3
    ensures Stands(text, sep, k, |text| - 1 - k, text[|text| - 1 - k])
  {
  }

  lemma PlaceInLast(ds: seq<nat>, sep: string, k: nat)
    requires AreDigits(ds) && k < 3
    ensures Place(ds, sep, k) == |Grouped(ds, sep)| - 1 - k
  {
    assert |sep| * (k / 3) == 0;
  }

  lemma PlaceInFirst(ds: seq<nat>, sep: string, k: nat)
    requires AreDigits(ds) && 3 <= k < |ds| && AreDigits(ds[..|ds| - 3])
    ensures Place(ds, sep, k) == Place(ds[..|ds| - 3], sep, k - 3)
    ensures k == 3 ==> Place(ds, sep, k) == |Grouped(ds[..|ds| - 3], sep)| - 1
  {
    hide AreDigits;
    PrefixIsDigits(ds, |ds| - 3);
    TextLength(ds[|ds| - 3..]);
    assert k / 3 == (k - 3) / 3 + 1;
    OneMore(|sep|, (k - 3) / 3);
    if k == 3 {
      assert |sep| * ((k - 3) / 3) == 0;
    }
  }

  lemma GroupedMore(ds: seq<nat>, sep: string)
    requires AreDigits(ds) && |ds| > 3
    ensures AreDigits(ds[..|ds| - 3]) && AreDigits(ds[|ds| - 3..]) && |Text(ds[|ds| - 3..])| == 3
    ensures Grouped(ds, sep) == Grouped(ds[..|ds| - 3], sep) + sep + Text(ds[|ds| - 3..])
  {
    PrefixIsDigits(ds, |ds| - 3);
    TextLength(ds[|ds| - 3..]);
  }

  lemma GroupedFew(ds: seq<nat>, sep: string)
    requires AreDigits(ds) && |ds| <= 3
    ensures Grouped(ds, sep) == Text(ds) && |Text(ds)| == |ds|
  {
    TextLength(ds);
  }

  lemma LastTextAt(ds: seq<nat>, k: nat)
    requires k < 3 < |ds| && AreDigits(ds) && AreDigits(ds[|ds| - 3..])
    ensures |Text(ds[|ds| - 3..])| == 3 && Text(ds[|ds| - 3..])[2 - k] == DigitChar(ds[|ds| - 1 - k])
  {
    TextAt(ds[|ds| - 3..], 2 - k);
  }

  lemma BelowTen(ds: seq<nat>, i: nat)
    requires AreDigits(ds) && i < |ds|
    ensures ds[i] < 10
  {
  }

  lemma DigitInLast(ds: seq<nat>, sep: string, k: nat)
    requires AreDigits(ds) && k < 3 && k < |ds|
    ensures Stands(Grouped(ds, sep), sep, k, Place(ds, sep, k), DigitChar(ds[|ds| - 1 - k]))
  {
    hide AreDigits, Text, Place, Stands, Grouped;
    PlaceInLast(ds, sep, k);
    BelowTen(ds, |ds| - 1 - k);
    if |ds| <= 3 {
      GroupedFew(ds, sep);
      TextAt(ds, |ds| - 1 - k);
      StandsAlone(Text(ds), sep, k);
    } else {
      GroupedMore(ds, sep);
      LastTextAt(ds, k);
      StandsInLast(Grouped(ds[..|ds| - 3], sep), sep, Text(ds[|ds| - 3..]), k);
    }
  }

  /** The digit with k digits to its right has k / 3 separators there, one of them next to it if k is a multiple of three. */
  lemma {:induction false} DigitIsAt(ds: seq<nat>, sep: string, k: nat)
    requires AreDigits(ds) && k < |ds|
    ensures Stands(Grouped(ds, sep), sep, k, Place(ds, sep, k), DigitChar(ds[|ds| - 1 - k]))
  {
    hide AreDigits, Text, Place, Stands, Grouped;
    if k < 3 {
      DigitInLast(ds, sep, k);
    } else {
      BelowTen(ds, |ds| - 1 - k);
      GroupedMore(ds, sep);
      PlaceInFirst(ds, sep, k);
      var high := ds[..|ds| - 3];
      DigitIsAt(high, sep, k - 3);
      StandsInFirst(Grouped(high, sep), sep, Text(ds[|ds| - 3..]), k, Place(high, sep, k - 3), DigitChar(ds[|ds| - 1 - k]));
    }
  }

  /** text without the character c */
  function Strip(text: string, c: char): string {
    if text == [] then []
    else Strip(text[..|text| - 1], c) + if text[|text| - 1] == c then [] else [text[|text| - 1]]
  }

  lemma {:induction false} StripAppend(a: string, b: string, c: char)
    ensures Strip(a + b, c) == Strip(a, c) + Strip(b, c)
  {
    if b == [] {
      assert a + b == a;
    } else {
      assert (a + b)[..|a + b| - 1] == a + b[..|b| - 1];
      StripAppend(a, b[..|b| - 1], c);
    }
  }

  lemma {:induction false} StripKeeps(text: string, c: char)
    ensures |Strip(text, c)| <= |text|
    ensures Strip(text, c) == text <==> c !in text
  {
    if text != [] {
      StripKeeps(text[..|text| - 1], c);
      assert text == text[..|text| - 1] + [text[|text| - 1]];
    }
  }

  lemma TextAppend(a: seq<nat>, b: seq<nat>)
    requires AreDigits(a) && AreDigits(b)
    ensures AreDigits(a + b) && Text(a + b) == Text(a) + Text(b)
  {
  }

  lemma StripOne(c: char)
    ensures Strip([c], c) == []
  {
    assert [c][..0] == [];
  }

  lemma StripGroup(group: string, text: string, low: string, c: char)
    requires Strip(group, c) == Strip(text, c)
    ensures Strip(group + [c] + low, c) == Strip(text + low, c)
  {
    hide Strip;
    StripAppend(group + [c], low, c);
    StripAppend(group, [c], c);
    StripOne(c);
    StripAppend(text, low, c);
  }

  lemma {:induction false} StripGroups(ds: seq<nat>, c: char)
    requires AreDigits(ds)
    ensures Strip(Grouped(ds, [c]), c) == Strip(Text(ds), c)
  {
    hide Strip, Text;
    if |ds| > 3 {
      var high, low := ds[..|ds| - 3], ds[|ds| - 3..];
      StripGroups(high, c);
      StripGroup(Grouped(high, [c]), Text(high), Text(low), c);
      TextAppend(high, low);
      assert ds == high + low;
    }
  }

  /** Taking the separators out gives the digits back, exactly when the separator is none of them. */
  lemma StrippingRecoversDigits(ds: seq<nat>, c: char)
    requires AreDigits(ds)
    ensures Strip(Grouped(ds, [c]), c) == Text(ds) <==> c !in Text(ds)
  {
    StripGroups(ds, c);
    StripKeeps(Text(ds), c);
  }

  /** What has been written once the digits of tail are, each third one followed to its left by a separator. */
  function Written(tail: seq<nat>, sep: string): string
    requires AreDigits(tail)
  {
    if tail == [] then []
    else (if |tail| % 3 == 0 then sep else []) + [DigitChar(tail[0])] + Written(tail[1..], sep)
  }

  lemma {:induction false} WrittenLength(tail: seq<nat>, sep: string)
    requires AreDigits(tail)
    ensures |Written(tail, sep)| == |tail| + |sep| * (|tail| / 3)
  {
    if tail != [] {
      WrittenLength(tail[1..], sep);
      var k := (|tail| - 1) / 3;
      assert |tail| / 3 == if |tail| % 3 == 0 then k + 1 else k;
      assert |sep| * (k + 1) == |sep| * k + |sep|;
    }
  }

  lemma LastGroup(low: seq<nat>, sep: string)
    requires AreDigits(low) && |low| == 3
    ensures Written(low, sep) == sep + Text(low)
  {
    assert Written(low[1..][1..], sep) == [DigitChar(low[2])] + Written([], sep);
    assert Text(low) == [DigitChar(low[0])] + [DigitChar(low[1])] + [DigitChar(low[2])];
  }

  /** Another group at the right end leaves the separators on the left where they are. */
  lemma {:induction false} WrittenAppend(high: seq<nat>, low: seq<nat>, sep: string)
    requires AreDigits(high) && AreDigits(low) && |low| == 3
    ensures AreDigits(high + low) && Written(high + low, sep) == Written(high, sep) + sep + Text(low)
  {
    hide *;
    DigitsConcat(high, low);
    if high == [] {
      LastGroup(low, sep);
      EmptyWritten(sep);
      assert high + low == low;
    } else {
      PrefixIsDigits(high, 1);
      WrittenAppend(high[1..], low, sep);
      TailOfConcat(high, low);
      WrittenFirst(high, sep);
      WrittenFirst(high + low, sep);
      Assoc((if |high| % 3 == 0 then sep else []) + [DigitChar(high[0])], Written(high[1..], sep), sep, Text(low));
    }
  }

  lemma DigitsConcat(high: seq<nat>, low: seq<nat>)
    requires AreDigits(high) && AreDigits(low)
    ensures AreDigits(high + low)
  {
  }

  lemma TailOfConcat(high: seq<nat>, low: seq<nat>)
    requires high != [] && |low| == 3
    ensures (high + low)[1..] == high[1..] + low && (high + low)[0] == high[0] && |high + low| % 3 == |high| % 3
  {
  }

  lemma Assoc(a: string, b: string, c: string, d: string)
    ensures a + (b + c + d) == a + b + c + d
  {
  }

  lemma EmptyWritten(sep: string)
    ensures AreDigits([]) && Written([], sep) == []
  {
  }

  lemma WrittenFirst(tail: seq<nat>, sep: string)
    requires AreDigits(tail) && tail != []
    ensures tail[0] < 10 && AreDigits(tail[1..])
    ensures Written(tail, sep) == (if |tail| % 3 == 0 then sep else []) + [DigitChar(tail[0])] + Written(tail[1..], sep)
  {
  }

  lemma {:induction false} WrittenIsGrouped(ds: seq<nat>, sep: string)
    requires AreDigits(ds) && ds != []
    ensures Grouped(ds, sep) == [DigitChar(ds[0])] + Written(ds[1..], sep)
  {
    hide Text, Written;
    if |ds| > 3 {
      var high, low := ds[..|ds| - 3], ds[|ds| - 3..];
      WrittenIsGrouped(high, sep);
      WrittenAppend(high[1..], low, sep);
      assert ds[1..] == high[1..] + low;
    } else {
      ShortGroup(ds, sep);
    }
  }

  lemma ShortGroup(ds: seq<nat>, sep: string)
    requires AreDigits(ds) && 1 <= |ds| <= 3
    ensures Text(ds) == [DigitChar(ds[0])] + Written(ds[1..], sep)
  {
    if |ds| == 3 {
      assert Written(ds[1..][1..], sep) == [DigitChar(ds[2])] + Written([], sep);
    }
  }

  lemma Room(tail: seq<nat>, ds: seq<nat>, sep: string)
    requires AreDigits(tail) && AreDigits(ds) && |tail| < |ds|
    ensures |Written(tail, sep)| + 1 <= |Grouped(ds, sep)|
  {
    hide Written, Grouped;
    WrittenLength(tail, sep);
    GroupedLength(ds, sep);
    OrderedProducts(|tail| / 3, (|ds| - 1) / 3, |sep|);
  }

  /** Writing to the left of what has been written. */
  lemma OverwriteLeft(s: string, at: nat, more: string, t: string)
    requires |more| <= at && at + |t| <= |s|
    ensures Overwrite(Overwrite(s, at, t), at - |more|, more) == Overwrite(s, at - |more|, more + t)
  {
  }

  /** The functor that writes sep to the left of each third digit; no_thousands_sep is the one with an empty sep. */
  class AddThousandsSep {
    const sep: string
    var digitIndex: nat

    constructor (s: string)
      ensures sep == s && digitIndex == 0
    {
      sep := s;
      digitIndex := 0;
    }

    method Call(buffer: array<char>, at: nat) returns (next: nat)
      requires at <= buffer.Length && ((digitIndex + 1) % 3 == 0 ==> |sep| <= at)
      modifies this`digitIndex, buffer
      ensures digitIndex == old(digitIndex) + 1
      ensures next == if digitIndex % 3 == 0 then at - |sep| else at
      ensures buffer[..] == Overwrite(old(buffer[..]), next, if digitIndex % 3 == 0 then sep else [])
    {
      digitIndex := digitIndex + 1;
      if digitIndex % 3 != 0 {
        return at;
      }
      next := at - |sep|;
      forall i | 0 <= i < |sep| {
        buffer[next + i] := sep[i];
      }
    }
  }

  method PutLeft(buffer: array<char>, at: nat, c: char, ghost before: string, ghost t: string) returns (next: nat)
    requires 1 <= at && at + |t| <= |before| == buffer.Length && buffer[..] == Overwrite(before, at, t)
    modifies buffer
    ensures next == at - 1 && buffer[..] == Overwrite(before, next, [c] + t)
  {
    next := at - 1;
    buffer[next] := c;
  }

  /** One digit and the call of the functor after it. */
  method PutDigit(buffer: array<char>, at: nat, c: char, ghost d: nat,
                  thousandsSep: AddThousandsSep, ghost before: string, ghost tail: seq<nat>) returns (next: nat)
    requires d < 10 && c == DigitChar(d) && AreDigits(tail) && thousandsSep.digitIndex == |tail|
    requires |Written([d] + tail, thousandsSep.sep)| - |Written(tail, thousandsSep.sep)| <= at
    requires at + |Written(tail, thousandsSep.sep)| <= |before| == buffer.Length
    requires buffer[..] == Overwrite(before, at, Written(tail, thousandsSep.sep))
    modifies buffer, thousandsSep`digitIndex
    ensures thousandsSep.digitIndex == |tail| + 1
    ensures next + |Written([d] + tail, thousandsSep.sep)| == at + |Written(tail, thousandsSep.sep)|
    ensures buffer[..] == Overwrite(before, next, Written([d] + tail, thousandsSep.sep))
  {
    hide Overwrite, DigitChar;
    ghost var sep, w := thousandsSep.sep, Written(tail, thousandsSep.sep);
    assert ([d] + tail)[1..] == tail;
    assert Written([d] + tail, sep) == (if (|tail| + 1) % 3 == 0 then sep else []) + [DigitChar(d)] + w;
    next := PutLeft(buffer, at, c, before, w);
    ghost var more := if (|tail| + 1) % 3 == 0 then sep else [];
    next := thousandsSep.Call(buffer, next);
    OverwriteLeft(before, at - 1, more, [DigitChar(d)] + w);
    assert more + ([DigitChar(d)] + w) == Written([d] + tail, sep);
  }

  /** There is room for every digit but the first with its separator, and for the first without one. */
  lemma RoomForDigit(value: nat, v: nat, tail: seq<nat>, sep: string)
    requires AreDigits(tail) && Digits(value) == Digits(v) + tail
    ensures AreDigits(Digits(value)) && |Written(tail, sep)| + 1 <= |Grouped(Digits(value), sep)|
    ensures AreDigits([v % 10] + tail)
    ensures v >= 10 ==> Digits(value) == Digits(v / 10) + ([v % 10] + tail)
    ensures v >= 10 ==> |Written([v % 10] + tail, sep)| + 1 <= |Grouped(Digits(value), sep)|
  {
    hide Written, Grouped;
    DigitsDenote(value);
    Room(tail, Digits(value), sep);
    if v >= 10 {
      assert Digits(v / 10) + [v % 10] + tail == Digits(v / 10) + ([v % 10] + tail);
      Room([v % 10] + tail, Digits(value), sep);
    }
  }

  lemma FirstDigit(value: nat, v: nat, tail: seq<nat>, sep: string)
    requires v < 10 && AreDigits(tail) && Digits(value) == Digits(v) + tail
    ensures AreDigits(Digits(value)) && Grouped(Digits(value), sep) == [DigitChar(v)] + Written(tail, sep)
  {
    hide Written, Grouped;
    DigitsDenote(value);
    assert Digits(value)[1..] == tail;
    WrittenIsGrouped(Digits(value), sep);
  }

  /** The digits of num below those of value, tail, have been written, from at to end. */
  ghost predicate Partly(num: nat, value: nat, tail: seq<nat>, sep: string, before: string, now: string, at: nat, end: nat) {
    && AreDigits(tail) && Digits(num) == Digits(value) + tail && AreDigits(Digits(num))
    && at + |Written(tail, sep)| == end <= |before| && |Grouped(Digits(num), sep)| <= end
    && now == Overwrite(before, at, Written(tail, sep))
  }

  lemma NothingPartly(num: nat, sep: string, before: string, end: nat)
    requires AreDigits(Digits(num)) && |Grouped(Digits(num), sep)| <= end <= |before|
    ensures AreDigits([]) && Partly(num, num, [], sep, before, before, end, end)
  {
    hide Digits, Grouped, Written, Overwrite;
    NothingWritten(before, end, sep);
    assert Digits(num) + [] == Digits(num);
  }

  /** The last digit of value, c, goes to the left of what is written. */
  method Advance(buffer: array<char>, at: nat, c: char, thousandsSep: AddThousandsSep, ghost num: nat, ghost value: nat,
                 ghost tail: seq<nat>, ghost before: string, ghost end: nat) returns (next: nat)
    requires Partly(num, value, tail, thousandsSep.sep, before, buffer[..], at, end)
    requires value >= 10 && c == DigitChar(value % 10) && thousandsSep.digitIndex == |tail|
    modifies buffer, thousandsSep`digitIndex
    ensures thousandsSep.digitIndex == |tail| + 1
    ensures Partly(num, value / 10, [value % 10] + tail, thousandsSep.sep, before, buffer[..], next, end)
  {
    hide Digits, Written, Grouped, Overwrite, DigitChar, AreDigits;
    RoomForDigit(num, value, tail, thousandsSep.sep);
    next := PutDigit(buffer, at, c, value % 10, thousandsSep, before, tail);
  }

  /** The first digit is written without a call of the functor. */
  method Complete(buffer: array<char>, at: nat, c: char, ghost num: nat, ghost value: nat,
                  ghost tail: seq<nat>, ghost sep: string, ghost before: string, ghost end: nat)
    requires Partly(num, value, tail, sep, before, buffer[..], at, end) && value < 10 && c == DigitChar(value)
    modifies buffer
    ensures AreDigits(Digits(num)) && |Grouped(Digits(num), sep)| <= end
    ensures end <= |before| && buffer[..] == Overwrite(before, end - |Grouped(Digits(num), sep)|, Grouped(Digits(num), sep))
  {
    hide Digits, Written, Grouped, Overwrite, DigitChar, AreDigits;
    FirstDigit(num, value, tail, sep);
    var _ := PutLeft(buffer, at, c, before, Written(tail, sep));
  }

  lemma TwoDigits(value: nat)
    ensures value % 100 % 10 == value % 10 && value % 100 / 10 == value / 10 % 10 && value / 10 / 10 == value / 100
    ensures value < 100 ==> value / 10 < 10
  {
  }

  /** The pointer overload of format_decimal: two digits per division, from the right. */
  method FormatDecimal(buffer: array<char>, start: nat, num: nat, numDigits: nat, thousandsSep: AddThousandsSep)
    returns (end: nat)
    requires thousandsSep.digitIndex == 0
    requires AreDigits(Digits(num)) && numDigits == |Grouped(Digits(num), thousandsSep.sep)|
    requires start + numDigits <= buffer.Length
    modifies buffer, thousandsSep`digitIndex
    ensures end == start + numDigits
    ensures buffer[..] == Overwrite(old(buffer[..]), start, Grouped(Digits(num), thousandsSep.sep))
  {
    hide Digits, Grouped, Overwrite, Rows, Partly, AreDigits, DigitChar;
    ghost var before, sep := buffer[..], thousandsSep.sep;
    ghost var tail: seq<nat> := [];
    var value: nat, at: nat := num, start + numDigits;
    end := at;
    NothingPartly(num, sep, before, end);
    while value >= 100
      invariant thousandsSep.digitIndex == |tail|
      invariant Partly(num, value, tail, sep, before, buffer[..], at, end)
    {
      var index := value % 100 * 2;
      DigitPair(value % 100);
      TwoDigits(value);
      at := Advance(buffer, at, DIGITS[index + 1], thousandsSep, num, value, tail, before, end);
      tail := [value % 10] + tail;
      at := Advance(buffer, at, DIGITS[index], thousandsSep, num, value / 10, tail, before, end);
      tail := [value / 10 % 10] + tail;
      value := value / 100;
    }
    if value < 10 {
      Complete(buffer, at, DigitChar(value), num, value, tail, sep, before, end);
    } else {
      var index := value * 2;
      DigitPair(value);
      TwoDigits(value);
      at := Advance(buffer, at, DIGITS[index + 1], thousandsSep, num, value, tail, before, end);
      Complete(buffer, at, DIGITS[index], num, value / 10, [value % 10] + tail, sep, before, end);
    }
  }

  lemma NothingWritten(s: string, at: nat, sep: string)
    requires at <= |s|
    ensures AreDigits([]) && Written([], sep) == [] && Overwrite(s, at, []) == s
  {
  }

  /** on_num: the digits of a 64-bit value in a buffer of exactly the size computed beforehand. */
  method OnNum(absValue: nat, sep: char) returns (buffer: array<char>)
    requires absValue < Pow2(64)
    ensures AreDigits(Digits(absValue)) && buffer[..] == Grouped(Digits(absValue), [sep])
  {
    hide Pow2, Digits, Grouped, BitLength, SetLowBit, Estimate;
    ClzCountsDigits(absValue, 64);
    DigitsDenote(absValue);
    GroupedLength(Digits(absValue), [sep]);
    var numDigits := CountDigitsClz(absValue, 64, ZERO_OR_POWERS_OF_10_64);
    var size := numDigits + 1 * ((numDigits - 1) / 3);
    buffer := new char[size];
    var thousandsSep := new AddThousandsSep([sep]);
    var _ := FormatDecimal(buffer, 0, absValue, size, thousandsSep);
  }
}
