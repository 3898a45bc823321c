/** rotating_file_sink: messages go to a base file, which is renamed to make room for the next one. */
module RotatingFileSink {

  /** The messages in a file, in the order they were written. */
  type File = seq<string>

  /** File 0 is the base file; a file with a larger index was renamed more often and is older. */
  type Files = map<nat, File>

  datatype Slot = Vacant | Holds(file: File)

  function Lookup(files: Files, i: nat): Slot {
    if i in files then Holds(files[i]) else Vacant
  }

  function Size(file: File): nat {
    if file == [] then 0 else Size(file[..|file| - 1]) + |file[|file| - 1]|
  }

  function Content(files: Files, i: nat): File {
    if i in files then files[i] else []
  }

  /** The messages of the files from index hi down to index lo, oldest first. */
  function Span(files: Files, hi: nat, lo: nat): seq<string>
    decreases hi
  {
    if hi < lo then []
    else if hi == lo then Content(files, hi)
    else Content(files, hi) + Span(files, hi - 1, lo)
  }

  /** Within the limit, or not divisible. */
  predicate Fits(file: File, maxSize: nat) {
    Size(file) <= maxSize || |file| == 1
  }

  // --------------------------------------------------------------- rotation

  /** Whether renaming number `try` (0 or 1) of a rotation succeeds on this target. */
  type Outcomes = (nat, nat) -> bool

  predicate Renames(works: Outcomes, target: nat) {
    works(target, 0) || works(target, 1)
  }

  /** Every file with an index below n can be renamed to the next one. */
  predicate AllRename(files: Files, n: nat, works: Outcomes) {
    forall i :: 0 <= i < n && i in files ==> Renames(works, i + 1)
  }

  /** So a rotation succeeds unless some existing file fails both times. */
  lemma RotatesUnlessTwice(files: Files, n: nat, works: Outcomes)
    ensures AllRename(files, n, works) <==> !exists i :: 0 <= i < n && i in files && !works(i + 1, 0) && !works(i + 1, 1)
  {
    if !AllRename(files, n, works) {
      var i :| 0 <= i < n && i in files && !Renames(works, i + 1);
      assert !works(i + 1, 0) && !works(i + 1, 1);
    }
  }

  /** What is at index j once the targets n, n - 1, ... down to i + 1 are done. */
  function Shifted(files: Files, n: nat, i: nat, j: nat): Slot {
    if i >= n || j < i || j > n then Lookup(files, j)
    else if j == i then Vacant
    else if j - 1 in files then Holds(files[j - 1])
    else if j == n then Lookup(files, n)
    else Vacant
  }

  /** What is at index j after a rotation that got to its end: a new base file before the shifted ones. */
  function Rotated(files: Files, n: nat, j: nat): Slot {
    if j == 0 then Holds([]) else Shifted(files, n, 0, j)
  }

  /** What is there after one that gave up at this target, which was deleted for nothing: the base file is truncated. */
  function GivenUp(files: Files, n: nat, target: nat, j: nat): Slot {
    if j == 0 then Holds([]) else if j == target then Vacant else Shifted(files, n, target, j)
  }

  /** The oldest file gives way exactly when the one before it exists, or when there is only the base file. */
  function Lost(files: Files, n: nat): File {
    if n == 0 || n - 1 in files then Content(files, n) else []
  }

  /** The file i - 1 becomes the file i, which is there no more. */
  function Renamed(files: Files, i: nat): Files
    requires i > 0 && i - 1 in files
  {
    (files - {i - 1})[i := files[i - 1]]
  }

  lemma {:induction false} SpanMoves(files: Files, after: Files, hi: nat)
    requires forall j :: 1 <= j <= hi ==> Content(after, j) == Content(files, j - 1)
    ensures hi > 0 ==> Span(after, hi, 1) == Span(files, hi - 1, 0)
    decreases hi
  {
    if hi > 1 {
      SpanMoves(files, after, hi - 1);
    }
  }

  lemma {:induction false} SpanToBase(files: Files, hi: nat)
    ensures Span(files, hi, 0) == (if hi > 0 then Span(files, hi, 1) else []) + Content(files, 0)
    decreases hi
  {
    if hi > 1 {
      SpanToBase(files, hi - 1);
    }
  }

  /** What the contents are after a rotation. */
  lemma RotatedContents(files: Files, after: Files, n: nat)
    requires forall j: nat :: Lookup(after, j) == Rotated(files, n, j)
    ensures Content(after, 0) == []
    ensures forall j :: 1 <= j < n ==> Content(after, j) == Content(files, j - 1)
    ensures n > 0 ==> Content(after, n) == Content(files, if n - 1 in files then n - 1 else n)
  {
    assert Lookup(after, 0) == Holds([]);
    assert Lookup(after, n) == Rotated(files, n, n);
    forall j | 1 <= j < n ensures Content(after, j) == Content(files, j - 1) {
      assert Lookup(after, j) == Rotated(files, n, j);
    }
  }

  /** A successful rotation loses exactly the messages of the oldest file, if it has to give way, and keeps the order. */
  lemma RotationLosesOldest(files: Files, after: Files, n: nat)
    requires forall j: nat :: Lookup(after, j) == Rotated(files, n, j)
    ensures Span(files, n, 0) == Lost(files, n) + Span(after, n, 0)
  {
    RotatedContents(files, after, n);
    hide Rotated, Shifted, Lookup;
    SpanToBase(after, n);
    if n > 0 {
      if n - 1 in files {
        SpanMoves(files, after, n);
      } else if n > 1 {
        SpanMoves(files, after, n - 1);
      }
    }
  }

  /** The files above the failed target have moved, those below it have not. */
  lemma GivenUpContents(files: Files, after: Files, n: nat, target: nat)
    requires 0 < target <= n && target - 1 in files
    requires forall j: nat :: Lookup(after, j) == GivenUp(files, n, target, j)
    ensures Content(after, 0) == [] && Content(after, target) == []
    ensures forall j :: 1 <= j < target ==> Content(after, j) == Content(files, j)
    ensures forall j :: target < j < n ==> Content(after, j) == Content(files, j - 1)
    ensures target < n ==> Content(after, n) == Content(files, if n - 1 in files then n - 1 else n)
  {
    assert Lookup(after, 0) == Holds([]);
    assert Lookup(after, target) == Vacant;
    assert Lookup(after, n) == GivenUp(files, n, target, n);
    forall j | 1 <= j < target ensures Content(after, j) == Content(files, j) {
      assert Lookup(after, j) == GivenUp(files, n, target, j);
    }
    forall j | target < j < n ensures Content(after, j) == Content(files, j - 1) {
      assert Lookup(after, j) == GivenUp(files, n, target, j);
    }
  }

  lemma {:induction false} SpanSame(files: Files, after: Files, hi: nat, lo: nat)
    requires forall j :: lo <= j <= hi ==> Content(after, j) == Content(files, j)
    ensures Span(after, hi, lo) == Span(files, hi, lo)
    decreases hi
  {
    if hi > lo {
      SpanSame(files, after, hi - 1, lo);
    }
  }

  /** Files that moved up by one, down to index lo + 1. */
  lemma {:induction false} SpanMovesFrom(files: Files, after: Files, hi: nat, lo: nat)
    requires lo < hi && forall j :: lo < j <= hi ==> Content(after, j) == Content(files, j - 1)
    ensures Span(after, hi, lo + 1) == Span(files, hi - 1, lo)
    decreases hi
  {
    if hi > lo + 1 {
      SpanMovesFrom(files, after, hi - 1, lo);
    }
  }

  lemma SpanTop(files: Files, hi: nat, lo: nat)
    requires lo <= hi
    ensures Span(files, hi, lo) == Content(files, hi) + if lo < hi then Span(files, hi - 1, lo) else []
  {
  }

  lemma {:induction false} SpanSplit(files: Files, hi: nat, mid: nat, lo: nat)
    requires lo < mid <= hi
    ensures Span(files, hi, lo) == Span(files, hi, mid) + Span(files, mid - 1, lo)
    decreases hi
  {
    hide *;
    SpanTop(files, hi, lo);
    SpanTop(files, hi, mid);
    if hi > mid {
      SpanSplit(files, hi - 1, mid, lo);
    }
  }

  /** The files from index hi down to index 1. */
  function Numbered(files: Files, hi: nat): seq<string> {
    if hi > 0 then Span(files, hi, 1) else []
  }

  lemma NumberedSplit(files: Files, n: nat, target: nat)
    requires 0 < target <= n
    ensures Numbered(files, n) == Span(files, n, target) + Numbered(files, target - 1)
  {
    hide Span;
    if target > 1 {
      SpanSplit(files, n, target, 1);
    }
  }

  /**
    A rotation that gives up loses exactly the messages of the oldest file, as a successful one does, and
    those of the base file, the newest; the order of all others stays.
   */
  lemma GivingUpLosesBase(files: Files, after: Files, n: nat, target: nat)
    requires 0 < target <= n && target - 1 in files
    requires forall j: nat :: Lookup(after, j) == GivenUp(files, n, target, j)
    ensures Span(files, n, 0) == Lost(files, n) + Span(after, n, 0) + Content(files, 0)
  {
    GivenUpContents(files, after, n, target);
    UpperPart(files, after, n, target);
    LowerPart(files, after, target);
    hide *;
    SpanToBase(files, n);
    SpanToBase(after, n);
    NumberedSplit(files, n, target);
    NumberedSplit(after, n, target);
    NumberedIs(files, n);
    NumberedIs(after, n);
    NothingBehind(Numbered(after, n));
    Regrouped(Lost(files, n), Span(after, n, target), Numbered(files, target - 1), Content(files, 0));
  }

  lemma NumberedIs(files: Files, n: nat)
    requires n > 0
    ensures Numbered(files, n) == Span(files, n, 1)
  {
  }

  lemma LowerPart(files: Files, after: Files, target: nat)
    requires target > 0 && forall j :: 1 <= j < target ==> Content(after, j) == Content(files, j)
    ensures Numbered(after, target - 1) == Numbered(files, target - 1)
  {
    hide Span, Content;
    if target > 1 {
      SpanSame(files, after, target - 1, 1);
    }
  }

  /** From the failed target upwards, when the oldest file had to give way ... */
  lemma UpperMoved(files: Files, after: Files, n: nat, target: nat)
    requires 0 < target <= n && Content(after, target) == []
    requires forall j :: target < j <= n ==> Content(after, j) == Content(files, j - 1)
    ensures Span(files, n, target) == Content(files, n) + Span(after, n, target)
  {
    hide Span, Content;
    SpanTop(files, n, target);
    SpanTop(after, target, target);
    if target < n {
      SpanMovesFrom(files, after, n, target);
      SpanSplit(after, n, target + 1, target);
      NothingBehind(Span(after, n, target + 1));
    }
  }

  /** ... and when it stayed, since there was none before it. */
  lemma UpperKept(files: Files, after: Files, n: nat, target: nat)
    requires 0 < target < n && Content(after, target) == [] && Content(files, n - 1) == []
    requires forall j :: target < j < n ==> Content(after, j) == Content(files, j - 1)
    requires Content(after, n) == Content(files, n)
    ensures Span(files, n, target) == Span(after, n, target)
  {
    hide Span, Content;
    SpanTop(files, n, target);
    SpanTop(after, n, target);
    UpperMoved(files, after, n - 1, target);
    assert [] + Span(after, n - 1, target) == Span(after, n - 1, target);
  }

  lemma NothingBehind(s: seq<string>)
    ensures s + [] == s
  {
  }

  lemma UpperPart(files: Files, after: Files, n: nat, target: nat)
    requires 0 < target <= n && target - 1 in files
    requires Content(after, target) == []
    requires forall j :: target < j < n ==> Content(after, j) == Content(files, j - 1)
    requires target < n ==> Content(after, n) == Content(files, if n - 1 in files then n - 1 else n)
    ensures Span(files, n, target) == Lost(files, n) + Span(after, n, target)
  {
    assert n - 1 !in files ==> Content(files, n - 1) == [];
    hide Span, Content;
    if n - 1 in files {
      UpperMoved(files, after, n, target);
    } else {
      UpperKept(files, after, n, target);
      assert [] + Span(after, n, target) == Span(after, n, target);
    }
  }

  lemma Regrouped(a: seq<string>, b: seq<string>, c: seq<string>, d: seq<string>)
    ensures ((a + b) + c) + d == a + (b + c) + d
  {
  }

  lemma SizeSnoc(file: File, msg: string)
    ensures Size(file + [msg]) == Size(file) + |msg|
  {
    assert (file + [msg])[..|file|] == file;
  }

  /** A message written to the base file is the last one of all. */
  lemma {:induction false} AppendToBase(files: Files, hi: nat, msg: string)
    requires 0 in files
    ensures Span(files[0 := files[0] + [msg]], hi, 0) == Span(files, hi, 0) + [msg]
    decreases hi
  {
    if hi > 0 {
      AppendToBase(files, hi - 1, msg);
    }
  }

  // ------------------------------------------------------------- what is kept

  /** Files above the last index are never touched; any other is within the limit or as it was found. */
  ghost predicate FilesOk(files: Files, existing: Files, maxSize: nat, maxFiles: nat) {
    && (forall i :: i in files ==> Fits(files[i], maxSize) || files[i] in existing.Values)
    && (forall i :: i > maxFiles ==> Lookup(files, i) == Lookup(existing, i))
  }

  lemma FoundIsOk(existing: Files, maxSize: nat, maxFiles: nat)
    ensures FilesOk(existing[0 := Content(existing, 0)], existing, maxSize, maxFiles)
  {
  }

  lemma RotatedIsOk(files: Files, after: Files, existing: Files, maxSize: nat, n: nat)
    requires FilesOk(files, existing, maxSize, n)
    requires forall j: nat :: Lookup(after, j) == Rotated(files, n, j)
    ensures FilesOk(after, existing, maxSize, n)
  {
    forall j | j in after ensures Fits(after[j], maxSize) || after[j] in existing.Values {
      assert Lookup(after, j) == Rotated(files, n, j);
    }
    forall j | j > n ensures Lookup(after, j) == Lookup(existing, j) {
      assert Lookup(after, j) == Rotated(files, n, j);
    }
  }

  lemma GivenUpIsOk(files: Files, after: Files, existing: Files, maxSize: nat, n: nat, target: nat)
    requires FilesOk(files, existing, maxSize, n) && target <= n
    requires forall j: nat :: Lookup(after, j) == GivenUp(files, n, target, j)
    ensures FilesOk(after, existing, maxSize, n)
  {
    forall j | j in after ensures Fits(after[j], maxSize) || after[j] in existing.Values {
      assert Lookup(after, j) == GivenUp(files, n, target, j);
    }
    forall j | j > n ensures Lookup(after, j) == Lookup(existing, j) {
      assert Lookup(after, j) == GivenUp(files, n, target, j);
    }
  }

  lemma AppendedIsOk(files: Files, existing: Files, maxSize: nat, n: nat, msg: string)
    requires FilesOk(files, existing, maxSize, n) && 0 in files
    requires files[0] == [] || Size(files[0]) + |msg| <= maxSize
    ensures FilesOk(files[0 := files[0] + [msg]], existing, maxSize, n)
  {
    SizeSnoc(files[0], msg);
    assert Fits(files[0] + [msg], maxSize);
    hide Fits, Size;
  }

  class RotatingFileSink {
    const maxSize: nat
    const maxFiles: nat
    var files: Files
    var currentSize: nat

    /** The files found at the start. */
    ghost const existing: Files

    /** Everything that was in the numbered files at first or written since. */
    ghost var log: seq<string>

    /** What successful rotations have dropped. */
    ghost var lost: seq<string>

    /** No rotation has given up so far. */
    ghost var intact: bool

    /** The size is tracked, or so large that the next message makes the files rotate. */
    ghost predicate Valid()
      reads this
    {
      && FilesOk(files, existing, maxSize, maxFiles) && 0 in files
      && (currentSize == Size(files[0]) || currentSize > maxSize)
      && (intact ==> log == lost + Span(files, maxFiles, 0))
    }

    constructor (size: nat, count: nat, found: Files)
      ensures Valid() && intact && maxSize == size && maxFiles == count && currentSize == Size(files[0])
      ensures log == Span(files, maxFiles, 0) && lost == [] && files == found[0 := Content(found, 0)] && existing == found
    {
      maxSize, maxFiles, existing := size, count, found;
      files := found[0 := Content(found, 0)];
      currentSize := Size(Content(found, 0));
      intact, lost := true, [];
      log := Span(found[0 := Content(found, 0)], count, 0);
      new;
      FoundIsOk(found, size, count);
    }

    /** Deletes the target if it exists and renames the source to it, which may fail. */
    method RenameFile(src: nat, target: nat, works: bool) returns (ok: bool)
      requires src in files && target == src + 1
      modifies this`files
      ensures ok == works
      ensures files == if ok then Renamed(old(files) - {target}, target) else old(files) - {target}
    {
      files := files - {target};
      ok := works;
      if ok {
        files := Renamed(files, target);
      }
    }

    /** Makes room for a file at this index, trying twice; an index whose predecessor is missing is skipped. */
    method ShiftTo(target: nat, works: Outcomes, ghost found: Files) returns (ok: bool)
      requires 0 < target <= maxFiles && forall j: nat :: Lookup(files, j) == Shifted(found, maxFiles, target, j)
      modifies this`files
      ensures ok <==> target - 1 !in found || Renames(works, target)
      ensures ok ==> forall j: nat :: Lookup(files, j) == Shifted(found, maxFiles, target - 1, j)
      ensures !ok ==> forall j: nat :: Lookup(files, j) == if j == target then Vacant else Shifted(found, maxFiles, target, j)
    {
      ghost var was := files;
      assert Lookup(was, target - 1) == Lookup(found, target - 1);
      if target - 1 !in files {
        SkipShifts(was, found, maxFiles, target);
        return true;
      }
      ok := RenameFile(target - 1, target, works(target, 0));
      if !ok {
        ok := RenameFile(target - 1, target, works(target, 1));
        assert was - {target} - {target} == was - {target};
      }
      if ok {
        RenameShifts(was, found, maxFiles, target);
      }
    }

    /** Each file moves to the next index, the highest first; the last one is dropped. */
    method Rotate(works: Outcomes) returns (ok: bool, ghost failedAt: nat)
      requires 0 in files
      modifies this`files
      ensures ok <==> AllRename(old(files), maxFiles, works)
      ensures ok <==> !exists i :: 0 <= i < maxFiles && i in old(files) && !works(i + 1, 0) && !works(i + 1, 1)
      ensures ok ==> forall j: nat :: Lookup(files, j) == Rotated(old(files), maxFiles, j)
      ensures !ok ==> 0 < failedAt <= maxFiles && failedAt - 1 in old(files) && !Renames(works, failedAt)
      ensures !ok ==> forall i :: failedAt <= i < maxFiles && i in old(files) ==> Renames(works, i + 1)
      ensures !ok ==> forall j: nat :: Lookup(files, j) == GivenUp(old(files), maxFiles, failedAt, j)
    {
      RotatesUnlessTwice(files, maxFiles, works);
      hide Shifted, Renames;
      ghost var found := files;
      NothingShifted(found, maxFiles);
      var i := maxFiles;
      while i > 0
        invariant 0 <= i <= maxFiles
        invariant forall j: nat :: Lookup(files, j) == Shifted(found, maxFiles, i, j)
        invariant forall k :: i <= k < maxFiles && k in found ==> Renames(works, k + 1)
      {
        ok := ShiftTo(i, works, found);
        if !ok {
          failedAt := i;
          TruncateGivesUp(files, found, maxFiles, i);
          files := files[0 := []];
          return;
        }
        i := i - 1;
      }
      files := files[0 := []];
      ok, failedAt := true, 0;
    }

    /** Returns false where the source throws: the message is then not written. */
    method SinkIt(msg: string, works: Outcomes) returns (ok: bool)
      requires Valid()
      modifies this
      ensures Valid()
      ensures ok <==> old(currentSize) + |msg| <= maxSize || AllRename(old(files), maxFiles, works)
      ensures old(currentSize) + |msg| <= maxSize ==>
                files == old(files)[0 := old(files[0]) + [msg]] && lost == old(lost)
      ensures ok && old(currentSize) + |msg| > maxSize ==>
                && (forall j: nat :: Lookup(files, j) == if j == 0 then Holds([msg]) else Rotated(old(files), maxFiles, j))
                && lost == old(lost) + Lost(old(files), maxFiles)
      ensures !ok ==> files[0] == [] && currentSize == old(currentSize) + |msg| > maxSize && lost == old(lost)
      ensures !ok ==> old(Span(files, maxFiles, 0)) == Lost(old(files), maxFiles) + Span(files, maxFiles, 0) + old(files[0])
      ensures log == (if ok then old(log) + [msg] else old(log)) && intact == (old(intact) && ok)
      ensures currentSize == Size(files[0]) <==> ok
    {
      hide Span, FilesOk, AllRename, Rotated, Lost, Size;
      currentSize := currentSize + |msg|;
      ok := true;
      if currentSize > maxSize {
        ok := MakeRoom(works);
        if !ok {
          NoSize(files[0]);
          return;
        }
        currentSize := |msg|;
        NoSize(files[0]);
        RoomThenMessage(files, old(files), maxFiles, msg);
      }
      Write(msg);
    }

    /** The message goes to the end of the base file, which is empty or can take it. */
    method Write(msg: string)
      requires FilesOk(files, existing, maxSize, maxFiles) && 0 in files
      requires files[0] == [] || Size(files[0]) + |msg| <= maxSize
      requires intact ==> log == lost + Span(files, maxFiles, 0)
      modifies this`files, this`log
      ensures files == old(files)[0 := old(files[0]) + [msg]] && log == old(log) + [msg]
      ensures FilesOk(files, existing, maxSize, maxFiles) && Size(files[0]) == Size(old(files)[0]) + |msg|
      ensures intact ==> log == lost + Span(files, maxFiles, 0)
    {
      hide Span, FilesOk, Size;
      SizeSnoc(files[0], msg);
      AppendedIsOk(files, existing, maxSize, maxFiles, msg);
      AppendToBase(files, maxFiles, msg);
      files := files[0 := files[0] + [msg]];
      log := log + [msg];
    }

    /** The rotation with what it means for the messages. */
    method MakeRoom(works: Outcomes) returns (ok: bool)
      requires FilesOk(files, existing, maxSize, maxFiles) && 0 in files
      requires intact ==> log == lost + Span(files, maxFiles, 0)
      modifies this`files, this`lost, this`intact
      ensures FilesOk(files, existing, maxSize, maxFiles) && 0 in files && files[0] == []
      ensures intact ==> log == lost + Span(files, maxFiles, 0)
      ensures ok <==> AllRename(old(files), maxFiles, works)
      ensures ok ==> forall j: nat :: Lookup(files, j) == Rotated(old(files), maxFiles, j)
      ensures intact == (old(intact) && ok)
      ensures lost == if ok then old(lost) + Lost(old(files), maxFiles) else old(lost)
      ensures !ok ==> old(Span(files, maxFiles, 0)) == Lost(old(files), maxFiles) + Span(files, maxFiles, 0) + old(files[0])
    {
      hide Span, FilesOk, AllRename, Shifted, Lost, Renames;
      ghost var failedAt: nat;
      ok, failedAt := Rotate(works);
      assert Lookup(files, 0) == Holds([]);
      if ok {
        RotatedIsOk(old(files), files, existing, maxSize, maxFiles);
        RotationLosesOldest(old(files), files, maxFiles);
        lost := lost + Lost(old(files), maxFiles);
      } else {
        GivenUpIsOk(old(files), files, existing, maxSize, maxFiles, failedAt);
        GivingUpLosesBase(old(files), files, maxFiles, failedAt);
        intact := false;
      }
    }
  }

  lemma NothingShifted(files: Files, n: nat)
    ensures forall j: nat :: Lookup(files, j) == Shifted(files, n, n, j)
  {
  }

  /** A target whose predecessor is missing needs nothing. */
  lemma SkipShifts(files: Files, found: Files, n: nat, target: nat)
    requires 0 < target <= n && target - 1 !in found
    requires forall j: nat :: Lookup(files, j) == Shifted(found, n, target, j)
    ensures forall j: nat :: Lookup(files, j) == Shifted(found, n, target - 1, j)
  {
    forall j: nat ensures Lookup(files, j) == Shifted(found, n, target - 1, j) {
      assert Lookup(files, j) == Shifted(found, n, target, j);
    }
  }

  lemma RenameShifts(files: Files, found: Files, n: nat, target: nat)
    requires 0 < target <= n && target - 1 in found && target - 1 in files
    requires forall j: nat :: Lookup(files, j) == Shifted(found, n, target, j)
    ensures forall j: nat :: Lookup(Renamed(files - {target}, target), j) == Shifted(found, n, target - 1, j)
  {
    assert Lookup(files, target - 1) == Shifted(found, n, target, target - 1);
    forall j: nat ensures Lookup(Renamed(files - {target}, target), j) == Shifted(found, n, target - 1, j) {
      assert Lookup(files, j) == Shifted(found, n, target, j);
    }
  }

  lemma TruncateGivesUp(files: Files, found: Files, n: nat, target: nat)
    requires 0 < target
    requires forall j: nat :: Lookup(files, j) == if j == target then Vacant else Shifted(found, n, target, j)
    ensures forall j: nat :: Lookup(files[0 := []], j) == GivenUp(found, n, target, j)
  {
    forall j: nat ensures Lookup(files[0 := []], j) == GivenUp(found, n, target, j) {
      assert Lookup(files, j) == if j == target then Vacant else Shifted(found, n, target, j);
    }
  }

  lemma NoSize(file: File)
    requires file == []
    ensures Size(file) == 0
  {
  }

  lemma RoomThenMessage(files: Files, found: Files, n: nat, msg: string)
    requires 0 in files && files[0] == [] && forall j: nat :: Lookup(files, j) == Rotated(found, n, j)
    ensures forall j: nat :: Lookup(files[0 := files[0] + [msg]], j) == if j == 0 then Holds([msg]) else Rotated(found, n, j)
  {
    hide Rotated;
    assert [] + [msg] == [msg];
    forall j: nat
      ensures Lookup(files[0 := files[0] + [msg]], j) == if j == 0 then Holds([msg]) else Rotated(found, n, j)
    {
      assert Lookup(files, j) == Rotated(found, n, j);
    }
  }
}
