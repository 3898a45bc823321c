/**
  The in-memory table: a byte vector of reserved capacity that every key and
  value is copied into, and an index of views into it, ordered by the bytes of
  the keys as std::map<string_view, string_view> is.
 */
module Memfiles {
  import opened Updates

  // ------------------------------------------------------ the order of keys

  /** Byte-wise lexicographic order, a proper prefix coming first. */
  predicate Less(a: Bytes, b: Bytes) {
    if b == [] then false
    else if a == [] then true
    else if a[0] != b[0] then a[0] < b[0]
    else Less(a[1..], b[1..])
  }

  lemma {:induction false} LessIsTransitive(a: Bytes, b: Bytes, c: Bytes)
    requires Less(a, b) && Less(b, c)
    ensures Less(a, c)
  {
    if a != [] && a[0] == b[0] == c[0] {
      LessIsTransitive(a[1..], b[1..], c[1..]);
    }
  }

  /** Exactly one of: smaller, equal, larger. */
  lemma {:induction false} LessIsTotal(a: Bytes, b: Bytes)
    ensures a == b ==> !Less(a, b)
    ensures Less(a, b) ==> !Less(b, a)
    ensures a == b || Less(a, b) || Less(b, a)
  {
    if a != [] && b != [] && a[0] == b[0] {
      LessIsTotal(a[1..], b[1..]);
      assert a == [a[0]] + a[1..] && b == [b[0]] + b[1..];
    }
  }

  /** The keys agree on their first n bytes; behind these one ends before the other, or its next byte is smaller. */
  predicate SmallerAt(a: Bytes, b: Bytes, n: nat) {
    && n <= |a| && n < |b| && a[..n] == b[..n]
    && (n == |a| || a[n] < b[n])
  }

  lemma {:induction false} LessIsLexicographic(a: Bytes, b: Bytes)
    ensures Less(a, b) <==> exists n: nat :: SmallerAt(a, b, n)
  {
    if a != [] && b != [] && a[0] == b[0] {
      LessIsLexicographic(a[1..], b[1..]);
      if n: nat :| SmallerAt(a[1..], b[1..], n) {
        assert a[..n + 1] == [a[0]] + a[1..][..n] && b[..n + 1] == [b[0]] + b[1..][..n];
        assert SmallerAt(a, b, n + 1);
      }
      if n: nat :| SmallerAt(a, b, n) {
        assert n > 0 && a[1..][..n - 1] == a[..n][1..] && b[1..][..n - 1] == b[..n][1..];
        assert SmallerAt(a[1..], b[1..], n - 1);
      }
    } else {
      if Less(a, b) {
        assert SmallerAt(a, b, 0);
      }
      forall n: nat | SmallerAt(a, b, n) ensures Less(a, b) {
        if n > 0 {
          assert a[..n][0] == b[..n][0];
        }
      }
    }
  }

  // --------------------------------------------------------------- the index

  /** A string_view into the arena. */
  datatype View = View(start: nat, length: nat)

  datatype Entry = Entry(key: View, value: View)

  predicate Inside(v: View, size: nat) {
    v.start + v.length <= size
  }

  function Slice(arena: Bytes, v: View): Bytes
    requires Inside(v, |arena|)
  {
    arena[v.start..v.start + v.length]
  }

  predicate EntriesInside(index: seq<Entry>, size: nat) {
    forall i :: 0 <= i < |index| ==> Inside(index[i].key, size) && Inside(index[i].value, size)
  }

  /** What the index decodes to: keys and values in index order. */
  function Pairs(arena: Bytes, index: seq<Entry>): (pairs: seq<Update>)
    requires EntriesInside(index, |arena|)
    ensures |pairs| == |index|
    ensures forall i :: 0 <= i < |index| ==> pairs[i] == Update(Slice(arena, index[i].key), Slice(arena, index[i].value))
  {
    seq(|index|, i requires 0 <= i < |index| => Update(Slice(arena, index[i].key), Slice(arena, index[i].value)))
  }

  predicate Sorted(pairs: seq<Update>) {
    forall i, j :: 0 <= i < j < |pairs| ==> Less(pairs[i].key, pairs[j].key)
  }

  ghost predicate HasKey(pairs: seq<Update>, key: Bytes) {
    exists i :: 0 <= i < |pairs| && pairs[i].key == key
  }

  /** The pairs are in key order, without repeated keys, and are exactly the entries of the map. */
  ghost predicate Represents(pairs: seq<Update>, m: KvMap) {
    && Sorted(pairs)
    && (forall i :: 0 <= i < |pairs| ==> pairs[i].key in m && m[pairs[i].key] == pairs[i].value)
    && (forall k :: k in m ==> HasKey(pairs, k))
  }

  /** Where a key is, or where it has to go. */
  predicate Position(pairs: seq<Update>, key: Bytes, pos: nat, found: bool) {
    && pos <= |pairs|
    && (forall i :: 0 <= i < pos ==> Less(pairs[i].key, key))
    && (found ==> pos < |pairs| && pairs[pos].key == key)
    && (!found ==> forall i :: pos <= i < |pairs| ==> Less(key, pairs[i].key))
  }

  lemma BelowProbe(pairs: seq<Update>, mid: nat, key: Bytes)
    requires Sorted(pairs) && mid < |pairs| && Less(pairs[mid].key, key)
    ensures forall i :: 0 <= i <= mid ==> Less(pairs[i].key, key)
  {
    forall i | 0 <= i < mid ensures Less(pairs[i].key, key) {
      LessIsTransitive(pairs[i].key, pairs[mid].key, key);
    }
  }

  lemma AboveProbe(pairs: seq<Update>, mid: nat, key: Bytes)
    requires Sorted(pairs) && mid < |pairs| && !Less(pairs[mid].key, key)
    ensures Less(key, pairs[mid].key) || pairs[mid].key == key
    ensures forall i :: mid < i < |pairs| ==> Less(key, pairs[i].key)
  {
    LessIsTotal(pairs[mid].key, key);
    forall i | mid < i < |pairs| ensures Less(key, pairs[i].key) {
      if pairs[mid].key != key {
        LessIsTransitive(key, pairs[mid].key, pairs[i].key);
      }
    }
  }

  lemma PositionTellsMembership(pairs: seq<Update>, m: KvMap, key: Bytes, pos: nat, found: bool)
    requires Represents(pairs, m) && Position(pairs, key, pos, found)
    ensures found <==> key in m
  {
    LessIsTotal(key, key);
  }

  /** A new value for an existing key replaces the value of its entry. */
  lemma AfterReplace(pairs: seq<Update>, m: KvMap, pos: nat, value: Bytes)
    requires Represents(pairs, m) && pos < |pairs|
    ensures Represents(pairs[pos := Update(pairs[pos].key, value)], m[pairs[pos].key := value])
  {
    var after := pairs[pos := Update(pairs[pos].key, value)];
    forall i | 0 <= i < |pairs| && i != pos ensures pairs[i].key != pairs[pos].key {
      LessIsTotal(pairs[i].key, pairs[pos].key);
    }
    forall k | k in m ensures HasKey(after, k) {
      assert HasKey(pairs, k);
      var i :| 0 <= i < |pairs| && pairs[i].key == k;
      assert after[i].key == k;
    }
  }

  lemma AfterInsert(pairs: seq<Update>, m: KvMap, pos: nat, u: Update)
    requires Represents(pairs, m) && Position(pairs, u.key, pos, false)
    ensures Represents(pairs[..pos] + [u] + pairs[pos..], m[u.key := u.value])
  {
    var after := pairs[..pos] + [u] + pairs[pos..];
    PositionTellsMembership(pairs, m, u.key, pos, false);
    InsertKeepsSorted(pairs, pos, u);
    assert after[pos] == u;
    forall k | k in m ensures HasKey(after, k) {
      assert HasKey(pairs, k);
      var i :| 0 <= i < |pairs| && pairs[i].key == k;
      assert after[if i < pos then i else i + 1] == pairs[i];
    }
  }

  lemma {:induction false} RebuiltKeys(pairs: seq<Update>, n: nat)
    requires Sorted(pairs) && n <= |pairs|
    ensures forall i :: 0 <= i < n ==> pairs[i].key in ApplyBatch(map[], pairs[..n])
    ensures forall i :: 0 <= i < n ==> ApplyBatch(map[], pairs[..n])[pairs[i].key] == pairs[i].value
    ensures forall k :: k in ApplyBatch(map[], pairs[..n]) ==> HasKey(pairs, k)
  {
    if n > 0 {
      RebuiltKeys(pairs, n - 1);
      assert pairs[..n][..n - 1] == pairs[..n - 1];
      forall i | 0 <= i < n - 1 ensures pairs[i].key != pairs[n - 1].key {
        LessIsTotal(pairs[i].key, pairs[n - 1].key);
      }
      assert HasKey(pairs, pairs[n - 1].key);
    }
  }

  lemma PairsRebuild(pairs: seq<Update>, m: KvMap)
    requires Represents(pairs, m)
    ensures ApplyBatch(map[], pairs) == m
  {
    RebuiltKeys(pairs, |pairs|);
    assert pairs[..|pairs|] == pairs;
    var r := ApplyBatch(map[], pairs);
    forall k | k in m ensures k in r && r[k] == m[k] {
      assert HasKey(pairs, k);
      var i :| 0 <= i < |pairs| && pairs[i].key == k;
    }
    forall k | k in r ensures k in m {
      assert HasKey(pairs, k);
      var i :| 0 <= i < |pairs| && pairs[i].key == k;
    }
  }

  lemma InsertKeepsSorted(pairs: seq<Update>, pos: nat, u: Update)
    requires Sorted(pairs) && Position(pairs, u.key, pos, false)
    ensures Sorted(pairs[..pos] + [u] + pairs[pos..])
  {
  }

  /** A view handed out earlier decodes to the same bytes however much is appended. */
  lemma ViewsSurvive(before: Bytes, after: Bytes, v: View)
    requires before <= after && Inside(v, |before|)
    ensures Inside(v, |after|) && Slice(after, v) == Slice(before, v)
  {
  }

  lemma PairsSurvive(before: Bytes, after: Bytes, index: seq<Entry>)
    requires before <= after && EntriesInside(index, |before|)
    ensures EntriesInside(index, |after|) && Pairs(after, index) == Pairs(before, index)
  {
    forall i | 0 <= i < |index|
      ensures Inside(index[i].key, |after|) && Inside(index[i].value, |after|)
      ensures Slice(after, index[i].key) == Slice(before, index[i].key)
      ensures Slice(after, index[i].value) == Slice(before, index[i].value)
    {
      ViewsSurvive(before, after, index[i].key);
      ViewsSurvive(before, after, index[i].value);
    }
  }

  lemma ReplacedEntry(before: Bytes, after: Bytes, index: seq<Entry>, pos: nat, v: View, value: Bytes)
    requires EntriesInside(index, |before|) && pos < |index|
    requires after == before + value && v == View(|before|, |value|)
    ensures var changed := index[pos := index[pos].(value := v)];
      && EntriesInside(changed, |after|)
      && Pairs(after, changed) == Pairs(before, index)[pos := Update(Pairs(before, index)[pos].key, value)]
  {
    PairsSurvive(before, after, index);
    assert Slice(after, v) == value;
  }

  lemma InsertedEntry(before: Bytes, after: Bytes, index: seq<Entry>, pos: nat, e: Entry, u: Update)
    requires EntriesInside(index, |before|) && pos <= |index|
    requires after == before + u.key + u.value
    requires e.key == View(|before|, |u.key|) && e.value == View(|before| + |u.key|, |u.value|)
    ensures var changed := index[..pos] + [e] + index[pos..];
      && EntriesInside(changed, |after|)
      && Pairs(after, changed) == Pairs(before, index)[..pos] + [u] + Pairs(before, index)[pos..]
  {
    PairsSurvive(before, after, index);
    assert Slice(after, e.key) == u.key;
    assert Slice(after, e.value) == u.value;
  }

  // ------------------------------------------------------------- the memfile

  datatype Lookup = Missing | Present(value: Bytes)

  class Memfile {
    const redoId: nat
    const capacity: nat
    var buffer: Bytes
    var index: seq<Entry>
    /** The plain map this memfile stands for. */
    ghost var contents: KvMap

    /** Within the reserved capacity the vector never moves, so views are offsets into it. */
    ghost predicate Valid()
      reads this
    {
      |buffer| <= capacity && EntriesInside(index, |buffer|) && Represents(Pairs(buffer, index), contents)
    }

    constructor (redoId: nat, capacity: nat)
      ensures Valid() && contents == map[] && buffer == []
      ensures this.redoId == redoId && this.capacity == capacity
    {
      this.redoId := redoId;
      this.capacity := capacity;
      buffer := [];
      index := [];
      contents := map[];
    }

    /** Whether the sum of all keys and values of the batch still fits. */
    method HasRoomFor(batch: Batch) returns (room: bool)
      ensures room <==> |buffer| + BatchBytes(batch) <= capacity
      ensures room <==> |buffer + Payload(batch)| <= capacity
    {
      var sum := 0;
      for i := 0 to |batch|
        invariant sum == BatchBytes(batch[..i])
      {
        assert batch[..i + 1][..i] == batch[..i];
        sum := sum + |batch[i].key| + |batch[i].value|;
      }
      assert batch[..|batch|] == batch;
      BatchBytesIsPayload(batch);
      room := |buffer| + sum <= capacity;
    }

    method Find(key: Bytes) returns (pos: nat, found: bool)
      requires Valid()
      ensures Position(Pairs(buffer, index), key, pos, found)
    {
      ghost var pairs := Pairs(buffer, index);
      assert Sorted(pairs);
      hide Represents, Sorted, Pairs, Less;
      pos := 0;
      var hi := |index|;
      while pos < hi
        invariant 0 <= pos <= hi <= |pairs|
        invariant forall i :: 0 <= i < pos ==> Less(pairs[i].key, key)
        invariant forall i :: hi <= i < |pairs| ==> Less(key, pairs[i].key) || (i == hi && pairs[i].key == key)
      {
        var mid := (pos + hi) / 2;
        if Less(Slice(buffer, index[mid].key), key) {
          BelowProbe(pairs, mid, key);
          pos := mid + 1;
        } else {
          AboveProbe(pairs, mid, key);
          hi := mid;
        }
      }
      found := pos < |index| && Slice(buffer, index[pos].key) == key;
    }

    method Read(key: Bytes) returns (r: Lookup)
      requires Valid()
      ensures r == if key in contents then Present(contents[key]) else Missing
    {
      var pos, found := Find(key);
      PositionTellsMembership(Pairs(buffer, index), contents, key, pos, found);
      r := if found then Present(Slice(buffer, index[pos].value)) else Missing;
    }

    /** The entries in key order, as the dumper writes them; writing them one by one rebuilds the map. */
    method Values() returns (pairs: seq<Update>)
      requires Valid()
      ensures Sorted(pairs) && ApplyBatch(map[], pairs) == contents
    {
      pairs := Pairs(buffer, index);
      PairsRebuild(pairs, contents);
    }

    /** Whether Add would get to its end; the program does not ask. */
    method CanAdd(batch: Batch) returns (ok: bool)
      requires Valid()
      ensures ok <==> |buffer| + ClonedBytes(contents, batch) <= capacity
    {
      var pairs := Values();
      ok := |buffer| + ClonedBytes(ApplyBatch(map[], pairs), batch) <= capacity;
    }

    /**
      Copies the bytes behind everything stored so far; nothing stored before moves or changes.  When the
      reserved capacity is exceeded the vector would move, so the model stops short of the copy.
     */
    method Clone(v: Bytes) returns (fits: bool, view: View)
      modifies this`buffer
      ensures fits <==> old(|buffer|) + |v| <= capacity
      ensures fits ==> buffer == old(buffer) + v && view == View(old(|buffer|), |v|)
      ensures !fits ==> buffer == old(buffer)
    {
      fits, view := |buffer| + |v| <= capacity, View(|buffer|, |v|);
      if fits {
        buffer := buffer + v;
      }
    }

    method AddOne(u: Update) returns (fits: bool)
      requires Valid()
      modifies this
      ensures Valid() && old(buffer) <= buffer
      ensures fits <==> old(|buffer|) + |u.value| + (if u.key in old(contents) then 0 else |u.key|) <= capacity
      ensures contents == if fits then old(contents)[u.key := u.value] else old(contents)
      ensures fits ==> |buffer| == old(|buffer|) + |u.value| + (if u.key in old(contents) then 0 else |u.key|)
    {
      ghost var pairs := Pairs(buffer, index);
      var pos, found := Find(u.key);
      PositionTellsMembership(pairs, contents, u.key, pos, found);
      hide Represents;
      var v: View;
      if found {
        AfterReplace(pairs, contents, pos, u.value);
        fits, v := Clone(u.value);
        if fits {
          ReplacedEntry(old(buffer), buffer, index, pos, v, u.value);
          index := index[pos := index[pos].(value := v)];
          contents := contents[u.key := u.value];
        }
      } else {
        AfterInsert(pairs, contents, pos, u);
        var k: View;
        fits, k := Clone(u.key);
        if fits {
          fits, v := Clone(u.value);
        }
        if fits {
          InsertedEntry(old(buffer), buffer, index, pos, Entry(k, v), u);
          index := index[..pos] + [Entry(k, v)] + index[pos..];
          contents := contents[u.key := u.value];
        } else {
          PairsSurvive(old(buffer), buffer, index);
        }
      }
    }

    /**
      Applies the updates in order, up to the first that outgrows the reserved capacity, if any: the first
      `done` ones.  All fit exactly when the bytes to copy do (which HasRoomFor guarantees); then the buffer is
      never reallocated and every view handed out earlier keeps its bytes.
     */
    method Add(batch: Batch) returns (done: nat)
      requires Valid()
      modifies this
      ensures Valid() && old(buffer) <= buffer
      ensures done <= |batch| && contents == ApplyBatch(old(contents), batch[..done])
      ensures done == |batch| <==> old(|buffer|) + ClonedBytes(old(contents), batch) <= capacity
      ensures done < |batch| ==> old(|buffer|) + ClonedBytes(old(contents), batch[..done + 1]) > capacity
      ensures done == |batch| ==> |buffer| == old(|buffer|) + ClonedBytes(old(contents), batch)
      ensures done == |batch| ==> contents == ApplyBatch(old(contents), batch)
    {
      assert |buffer| <= capacity;
      hide ApplyBatch, ClonedBytes, Valid;
      NoUpdate(contents, batch);
      done := 0;
      var fits := true;
      while done < |batch| && fits
        invariant done <= |batch| && Valid() && contents == ApplyBatch(old(contents), batch[..done])
        invariant fits ==> |buffer| == old(|buffer|) + ClonedBytes(old(contents), batch[..done]) <= capacity
        invariant !fits ==> done < |batch| && old(|buffer|) + ClonedBytes(old(contents), batch[..done + 1]) > capacity
        invariant old(buffer) <= buffer
        decreases |batch| - done, fits
      {
        NextUpdate(old(contents), batch, done);
        fits := AddOne(batch[done]);
        if fits {
          done := done + 1;
        }
      }
      assert batch[..|batch|] == batch;
      if !fits {
        ClonedGrows(old(contents), batch, done + 1);
      }
    }
  }

  lemma NoUpdate(m: KvMap, batch: Batch)
    ensures ApplyBatch(m, batch[..0]) == m && ClonedBytes(m, batch[..0]) == 0
  {
  }

  lemma NextUpdate(m: KvMap, batch: Batch, i: nat)
    requires i < |batch|
    ensures var was, u := ApplyBatch(m, batch[..i]), batch[i];
      && ApplyBatch(m, batch[..i + 1]) == was[u.key := u.value]
      && ClonedBytes(m, batch[..i + 1]) == ClonedBytes(m, batch[..i]) + |u.value| + (if u.key in was then 0 else |u.key|)
  {
    assert batch[..i + 1][..i] == batch[..i];
  }

  lemma {:induction false} ClonedGrows(m: KvMap, batch: Batch, i: nat)
    requires i <= |batch|
    ensures ClonedBytes(m, batch[..i]) <= ClonedBytes(m, batch)
    decreases |batch|
  {
    if i < |batch| {
      assert batch[..|batch| - 1][..i] == batch[..i];
      ClonedGrows(m, batch[..|batch| - 1], i);
    } else {
      assert batch[..i] == batch;
    }
  }
}
