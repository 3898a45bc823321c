/**
  What the files alone say.  A redo log is a stream of records; nothing in it
  tells an append that succeeded from one that failed half-way, and nothing
  tells a log of this process from one that an earlier process left behind.
 */
module EngineDisk {
  import opened Updates
  import opened EngineState
  import opened EngineInvariant
  import opened EngineRuns

  // ---------------------------------------------------------- the raw view

  /** The records in a redo log file. */
  function Records(log: seq<Chunk>): Batch {
    if log == [] then [] else Records(log[..|log| - 1]) + log[|log| - 1].records
  }

  function LogAt(logs: map<nat, seq<Chunk>>, id: nat): seq<Chunk> {
    if id in logs then logs[id] else []
  }

  /** The records of the log files with ids from lo up to hi, in id order. */
  function RecordsFrom(logs: map<nat, seq<Chunk>>, lo: nat, hi: nat): Batch {
    if hi <= lo then [] else RecordsFrom(logs, lo, hi - 1) + Records(LogAt(logs, hi - 1))
  }

  /** No log file has an id of `top` or more. */
  predicate Bounds(logs: map<nat, seq<Chunk>>, top: nat) {
    forall id :: id in logs ==> id < top
  }

  /** The listed tables, then every record of every log file above the checkpoint. */
  function DiskView(redoId: nat, sorted: seq<nat>, dumps: map<nat, KvMap>, logs: map<nat, seq<Chunk>>, top: nat): KvMap {
    ApplyBatch(Overlay(dumps, sorted), RecordsFrom(logs, redoId + 1, top))
  }

  function DiskOf(s: State, top: nat): KvMap {
    DiskView(s.meta.redoId, s.meta.sorted, s.dumps, s.logs, top)
  }

  /** The plain map, with the batch whose append has returned but which is not acknowledged yet. */
  function Promised(s: State): KvMap {
    if s.writer.Logged? then ApplyBatch(Meaning(s), s.writer.batch) else Meaning(s)
  }

  // ------------------------------------------------- records and their origin

  /** A record, and whether an append that succeeded, on a log of this process in use, wrote it. */
  datatype Mark = Mark(update: Update, good: bool)

  function MarkAll(batch: Batch, good: bool): seq<Mark> {
    if batch == [] then [] else MarkAll(batch[..|batch| - 1], good) + [Mark(batch[|batch| - 1], good)]
  }

  function LogMarks(log: seq<Chunk>, mine: bool): seq<Mark> {
    if log == [] then []
    else
      var last := log[|log| - 1];
      LogMarks(log[..|log| - 1], mine) + MarkAll(last.records, mine && last.complete)
  }

  function Marks(logs: map<nat, seq<Chunk>>, chain: seq<nat>, lo: nat, hi: nat): seq<Mark> {
    if hi <= lo then [] else Marks(logs, chain, lo, hi - 1) + LogMarks(LogAt(logs, hi - 1), hi - 1 in chain)
  }

  /** The records above the checkpoint, in replay order, with their origin. */
  function MarksOf(s: State, top: nat): seq<Mark> {
    Marks(s.logs, s.past.chain, s.meta.redoId + 1, top)
  }

  function All(marks: seq<Mark>): Batch {
    if marks == [] then [] else All(marks[..|marks| - 1]) + [marks[|marks| - 1].update]
  }

  function Good(marks: seq<Mark>): Batch {
    if marks == [] then []
    else
      var last := marks[|marks| - 1];
      Good(marks[..|marks| - 1]) + (if last.good then [last.update] else [])
  }

  /** The p-th record comes from a failed append or a stray log, and no later record has its key. */
  predicate Leftover(marks: seq<Mark>, p: nat)
    requires p < |marks|
  {
    !marks[p].good && forall q :: p < q < |marks| ==> marks[q].update.key != marks[p].update.key
  }

  /** The p-th record repeats the value that the tables and the good records before it give its key. */
  predicate Repeats(base: KvMap, marks: seq<Mark>, p: nat)
    requires p < |marks|
  {
    var before := ApplyBatch(base, Good(marks[..p]));
    var u := marks[p].update;
    u.key in before && before[u.key] == u.value
  }

  ghost predicate Harmless(base: KvMap, marks: seq<Mark>) {
    forall p :: 0 <= p < |marks| && Leftover(marks, p) ==> Repeats(base, marks, p)
  }

  /** What harmlessness says about one key. */
  ghost predicate HarmlessAt(base: KvMap, marks: seq<Mark>, key: Bytes) {
    forall p :: 0 <= p < |marks| && Leftover(marks, p) && marks[p].update.key == key ==> Repeats(base, marks, p)
  }

  predicate Agree(a: KvMap, b: KvMap, key: Bytes) {
    (key in a <==> key in b) && (key in a && key in b ==> a[key] == b[key])
  }

  lemma ApplySnoc(m: KvMap, batch: Batch, u: Update)
    ensures ApplyBatch(m, batch + [u]) == ApplyBatch(m, batch)[u.key := u.value]
  {
    assert (batch + [u])[..|batch|] == batch;
  }

  lemma {:induction false} ApplyConcat(m: KvMap, a: Batch, b: Batch)
    ensures ApplyBatch(m, a + b) == ApplyBatch(ApplyBatch(m, a), b)
  {
    if b == [] {
      assert a + b == a;
    } else {
      var pre, u := b[..|b| - 1], b[|b| - 1];
      ApplyConcat(m, a, pre);
      assert a + b == (a + pre) + [u];
      ApplySnoc(m, a + pre, u);
    }
  }

  lemma LeftoverLocally(pre: seq<Mark>, last: Mark, p: nat)
    requires p < |pre|
    ensures Leftover(pre + [last], p) <==> Leftover(pre, p) && last.update.key != pre[p].update.key
  {
    var marks := pre + [last];
    assert forall q :: 0 <= q < |pre| ==> marks[q] == pre[q];
    assert marks[|pre|] == last;
  }

  lemma RepeatsLocally(base: KvMap, pre: seq<Mark>, last: Mark, p: nat)
    requires p < |pre|
    ensures Repeats(base, pre + [last], p) == Repeats(base, pre, p)
  {
    assert (pre + [last])[..p] == pre[..p];
  }

  /** One more record: earlier leftovers of other keys stay leftovers, those of its own key are covered. */
  lemma LeftoversAfter(base: KvMap, pre: seq<Mark>, last: Mark, key: Bytes)
    ensures last.update.key != key ==> (HarmlessAt(base, pre + [last], key) <==> HarmlessAt(base, pre, key))
    ensures last.update.key == key && last.good ==> HarmlessAt(base, pre + [last], key)
    ensures last.update.key == key && !last.good ==>
              (HarmlessAt(base, pre + [last], key) <==> Repeats(base, pre + [last], |pre|))
  {
    var marks := pre + [last];
    assert Leftover(marks, |pre|) <==> !last.good;
    hide Repeats, Leftover;
    forall p | 0 <= p < |pre|
      ensures Repeats(base, marks, p) == Repeats(base, pre, p)
      ensures Leftover(marks, p) <==> Leftover(pre, p) && last.update.key != pre[p].update.key
    {
      RepeatsLocally(base, pre, last, p);
      LeftoverLocally(pre, last, p);
    }
    assert forall p :: 0 <= p < |pre| ==> marks[p] == pre[p];
  }

  lemma AllSnoc(pre: seq<Mark>, last: Mark)
    ensures All(pre + [last]) == All(pre) + [last.update]
    ensures Good(pre + [last]) == Good(pre) + (if last.good then [last.update] else [])
  {
    assert (pre + [last])[..|pre|] == pre;
  }

  lemma LastRepeats(base: KvMap, pre: seq<Mark>, last: Mark)
    ensures Repeats(base, pre + [last], |pre|)
       <==> var before := ApplyBatch(base, Good(pre)); last.update.key in before && before[last.update.key] == last.update.value
  {
    assert (pre + [last])[..|pre|] == pre;
  }

  lemma ReplayStep(base: KvMap, pre: seq<Mark>, last: Mark)
    ensures ApplyBatch(base, All(pre + [last])) == ApplyBatch(base, All(pre))[last.update.key := last.update.value]
    ensures ApplyBatch(base, Good(pre + [last])) ==
            if last.good then ApplyBatch(base, Good(pre))[last.update.key := last.update.value] else ApplyBatch(base, Good(pre))
  {
    AllSnoc(pre, last);
    ApplySnoc(base, All(pre), last.update);
    if last.good {
      ApplySnoc(base, Good(pre), last.update);
    } else {
      assert Good(pre) + [] == Good(pre);
    }
  }

  lemma AgreeAfter(all: KvMap, good: KvMap, u: Update, key: Bytes)
    ensures Agree(all[u.key := u.value], good[u.key := u.value], key) <==> (u.key == key || Agree(all, good, key))
    ensures Agree(all[u.key := u.value], good, key)
       <==> if u.key == key then key in good && good[key] == u.value else Agree(all, good, key)
  {
  }

  lemma KeyStep(base: KvMap, pre: seq<Mark>, last: Mark, key: Bytes)
    requires Agree(ApplyBatch(base, All(pre)), ApplyBatch(base, Good(pre)), key) <==> HarmlessAt(base, pre, key)
    ensures Agree(ApplyBatch(base, All(pre + [last])), ApplyBatch(base, Good(pre + [last])), key)
       <==> HarmlessAt(base, pre + [last], key)
  {
    hide *;
    LeftoversAfter(base, pre, last, key);
    ReplayStep(base, pre, last);
    LastRepeats(base, pre, last);
    AgreeAfter(ApplyBatch(base, All(pre)), ApplyBatch(base, Good(pre)), last.update, key);
  }

  /** Replaying everything and replaying the good records agree on a key exactly when no leftover changes it. */
  lemma {:induction false} KeyAgrees(base: KvMap, marks: seq<Mark>, key: Bytes)
    ensures Agree(ApplyBatch(base, All(marks)), ApplyBatch(base, Good(marks)), key) <==> HarmlessAt(base, marks, key)
  {
    if marks == [] {
    } else {
      hide *;
      var pre := marks[..|marks| - 1];
      KeyAgrees(base, pre, key);
      KeyStep(base, pre, marks[|marks| - 1], key);
      assert marks == pre + [marks[|marks| - 1]];
    }
  }

  lemma AgreeingMapsAreEqual(a: KvMap, b: KvMap)
    requires forall key :: Agree(a, b, key)
    ensures a == b
  {
    forall key ensures key in a <==> key in b {
      assert Agree(a, b, key);
    }
    forall key | key in a ensures a[key] == b[key] {
      assert Agree(a, b, key);
    }
  }

  lemma ReplayAgrees(base: KvMap, marks: seq<Mark>)
    ensures ApplyBatch(base, All(marks)) == ApplyBatch(base, Good(marks)) <==> Harmless(base, marks)
  {
    var all, good := ApplyBatch(base, All(marks)), ApplyBatch(base, Good(marks));
    forall key ensures Agree(all, good, key) <==> HarmlessAt(base, marks, key) {
      KeyAgrees(base, marks, key);
    }
    hide ApplyBatch, All, Good, Leftover, Repeats;
    if Harmless(base, marks) {
      AgreeingMapsAreEqual(all, good);
    }
    if all == good {
      forall p | 0 <= p < |marks| && Leftover(marks, p) ensures Repeats(base, marks, p) {
        assert Agree(all, good, marks[p].update.key);
        assert HarmlessAt(base, marks, marks[p].update.key);
      }
    }
  }

  // -------------------------------------------------- what the good records mean

  lemma {:induction false} GoodConcat(a: seq<Mark>, b: seq<Mark>)
    ensures All(a + b) == All(a) + All(b) && Good(a + b) == Good(a) + Good(b)
  {
    if b == [] {
      assert a + b == a;
    } else {
      var pre, last := b[..|b| - 1], b[|b| - 1];
      GoodConcat(a, pre);
      assert a + b == (a + pre) + [last];
      AllSnoc(a + pre, last);
    }
  }

  lemma {:induction false} MarkAllKeeps(batch: Batch, good: bool)
    ensures All(MarkAll(batch, good)) == batch && Good(MarkAll(batch, good)) == if good then batch else []
  {
    if batch != [] {
      var pre, last := batch[..|batch| - 1], batch[|batch| - 1];
      MarkAllKeeps(pre, good);
      AllSnoc(MarkAll(pre, good), Mark(last, good));
      assert batch == pre + [last];
    }
  }

  lemma {:induction false} LogMarksKeep(log: seq<Chunk>, mine: bool)
    ensures All(LogMarks(log, mine)) == Records(log)
    ensures !mine ==> Good(LogMarks(log, mine)) == []
  {
    if log != [] {
      var last := log[|log| - 1];
      LogMarksKeep(log[..|log| - 1], mine);
      MarkAllKeeps(last.records, mine && last.complete);
      GoodConcat(LogMarks(log[..|log| - 1], mine), MarkAll(last.records, mine && last.complete));
    }
  }

  /** Replaying the good records of a log in use lays the map of its complete batches over what was there. */
  lemma {:induction false} GoodOfLog(m: KvMap, log: seq<Chunk>)
    ensures ApplyBatch(m, Good(LogMarks(log, true))) == m + Replay(CompleteBatches(log))
  {
    if log != [] {
      var pre, last := log[..|log| - 1], log[|log| - 1];
      GoodOfLog(m, pre);
      MarkAllKeeps(last.records, last.complete);
      GoodConcat(LogMarks(pre, true), MarkAll(last.records, last.complete));
      ApplyConcat(m, Good(LogMarks(pre, true)), if last.complete then last.records else []);
      if last.complete {
        ReplaySnoc(CompleteBatches(pre), last.records);
        ApplyOverlay(m, Replay(CompleteBatches(pre)), last.records);
      } else {
        assert CompleteBatches(pre) + [] == CompleteBatches(pre);
      }
    }
  }

  lemma {:induction false} MarksKeepRecords(logs: map<nat, seq<Chunk>>, chain: seq<nat>, lo: nat, hi: nat)
    ensures All(Marks(logs, chain, lo, hi)) == RecordsFrom(logs, lo, hi)
  {
    if hi > lo {
      MarksKeepRecords(logs, chain, lo, hi - 1);
      LogMarksKeep(LogAt(logs, hi - 1), hi - 1 in chain);
      GoodConcat(Marks(logs, chain, lo, hi - 1), LogMarks(LogAt(logs, hi - 1), hi - 1 in chain));
    }
  }

  function LogMaps(logs: map<nat, seq<Chunk>>): map<nat, KvMap> {
    map id | id in logs :: Replay(CompleteBatches(logs[id]))
  }

  /** The ids of the chain from position `from` on are those from lo on, and the first `count` ids those below hi. */
  predicate Cuts(chain: seq<nat>, from: nat, count: nat, lo: nat, hi: nat) {
    && from <= count <= |chain| && lo <= hi
    && (forall i, j :: 0 <= i < j < |chain| ==> chain[i] < chain[j])
    && (forall i :: 0 <= i < |chain| ==> (i < from <==> chain[i] < lo) && (i < count <==> chain[i] < hi))
  }

  lemma GoodOfNext(base: KvMap, logs: map<nat, seq<Chunk>>, chain: seq<nat>, lo: nat, hi: nat)
    requires lo < hi
    ensures ApplyBatch(base, Good(Marks(logs, chain, lo, hi)))
         == ApplyBatch(base, Good(Marks(logs, chain, lo, hi - 1)))
            + if hi - 1 in chain then At(LogMaps(logs), hi - 1) else map[]
  {
    var pre, log := Marks(logs, chain, lo, hi - 1), LogAt(logs, hi - 1);
    var mine := hi - 1 in chain;
    GoodConcat(pre, LogMarks(log, mine));
    ApplyConcat(base, Good(pre), Good(LogMarks(log, mine)));
    if mine {
      GoodOfLog(ApplyBatch(base, Good(pre)), log);
    } else {
      LogMarksKeep(log, mine);
    }
  }

  lemma CutBefore(chain: seq<nat>, from: nat, count: nat, lo: nat, hi: nat)
    requires Cuts(chain, from, count, lo, hi) && lo < hi
    ensures hi - 1 in chain ==> count > from && chain[from..count] == chain[from..count - 1] + [hi - 1]
    ensures hi - 1 in chain ==> Cuts(chain, from, count - 1, lo, hi - 1)
    ensures hi - 1 !in chain ==> Cuts(chain, from, count, lo, hi - 1)
  {
    if hi - 1 in chain {
      var i :| 0 <= i < |chain| && chain[i] == hi - 1;
      assert i < count && chain[count - 1] < hi;
      assert i == count - 1;
    }
  }

  /** Replaying the good records below hi lays the logs of the chain ids below hi over each other. */
  predicate GoodMeansLogs(base: KvMap, logs: map<nat, seq<Chunk>>, chain: seq<nat>, from: nat, count: nat, lo: nat, hi: nat) {
    && from <= count <= |chain|
    && ApplyBatch(base, Good(Marks(logs, chain, lo, hi))) == base + Overlay(LogMaps(logs), chain[from..count])
  }

  lemma NothingNew(base: KvMap, logs: map<nat, seq<Chunk>>, chain: seq<nat>, from: nat, count: nat, lo: nat)
    requires Cuts(chain, from, count, lo, lo)
    ensures GoodMeansLogs(base, logs, chain, from, count, lo, lo)
  {
    if from < |chain| {
      assert chain[from] >= lo;
    }
    assert chain[from..count] == [];
  }

  lemma GoodExtends(base: KvMap, logs: map<nat, seq<Chunk>>, chain: seq<nat>, lo: nat, hi: nat, ids: seq<nat>, next: seq<nat>)
    requires lo < hi && next == if hi - 1 in chain then ids + [hi - 1] else ids
    requires ApplyBatch(base, Good(Marks(logs, chain, lo, hi - 1))) == base + Overlay(LogMaps(logs), ids)
    ensures ApplyBatch(base, Good(Marks(logs, chain, lo, hi)))
         == base + Overlay(LogMaps(logs), next)
  {
    hide *;
    GoodOfNext(base, logs, chain, lo, hi);
    if hi - 1 in chain {
      OverlaySnoc(LogMaps(logs), ids, hi - 1);
      PlusAssociates(base, Overlay(LogMaps(logs), ids), At(LogMaps(logs), hi - 1));
    } else {
      PlusNothing(base + Overlay(LogMaps(logs), ids));
    }
  }

  /** How many chain ids are below hi - 1, given that `count` are below hi. */
  function CountBefore(chain: seq<nat>, count: nat, hi: nat): nat
    requires hi > 0
  {
    if hi - 1 in chain && count > 0 then count - 1 else count
  }

  lemma GoodOfLogsStep(base: KvMap, logs: map<nat, seq<Chunk>>, chain: seq<nat>, from: nat, count: nat, lo: nat, hi: nat)
    requires Cuts(chain, from, count, lo, hi) && lo < hi
    ensures Cuts(chain, from, CountBefore(chain, count, hi), lo, hi - 1)
    ensures GoodMeansLogs(base, logs, chain, from, CountBefore(chain, count, hi), lo, hi - 1) ==>
              GoodMeansLogs(base, logs, chain, from, count, lo, hi)
  {
    CutBefore(chain, from, count, lo, hi);
    var before := CountBefore(chain, count, hi);
    var ids, next := chain[from..before], chain[from..count];
    assert next == if hi - 1 in chain then ids + [hi - 1] else ids;
    hide Cuts, Good, Marks, ApplyBatch, Overlay, LogMaps;
    if GoodMeansLogs(base, logs, chain, from, before, lo, hi - 1) {
      GoodExtends(base, logs, chain, lo, hi, ids, next);
    }
  }

  /** Replaying the good records above the checkpoint lays the logs of the chain over each other. */
  lemma {:induction false} GoodOfLogs(base: KvMap, logs: map<nat, seq<Chunk>>, chain: seq<nat>, from: nat, count: nat, lo: nat, hi: nat)
    requires Cuts(chain, from, count, lo, hi) && lo <= hi
    ensures GoodMeansLogs(base, logs, chain, from, count, lo, hi)
    decreases hi
  {
    hide *;
    if hi == lo {
      NothingNew(base, logs, chain, from, count, lo);
    } else {
      GoodOfLogsStep(base, logs, chain, from, count, lo, hi);
      GoodOfLogs(base, logs, chain, from, CountBefore(chain, count, hi), lo, hi - 1);
    }
  }

  lemma PlusNothing(m: KvMap)
    ensures m + map[] == m
  {
  }

  lemma LogMeansMemfile(s: State, k: nat)
    requires Inv(s) && |s.meta.sorted| <= k < |s.past.chain|
    ensures At(LogMaps(s.logs), s.past.chain[k])
         == if s.writer.Logged? && s.past.chain[k] == s.queue.active
            then ApplyBatch(At(s.memfiles, s.past.chain[k]), s.writer.batch)
            else At(s.memfiles, s.past.chain[k])
  {
    hide TablesInv, OverlayInv, HomesIn, DumpInv, RoomInv, QueueInv, MetaInv, IdInv;
    var id := s.past.chain[k];
    ChainSplitsAtCheckpoint(s, k);
    ContentAt(s, id);
    assert id in s.logs;
    ReplaySnoc(BatchesOf(s.hist, id), if s.writer.Logged? then s.writer.batch else []);
    assert BatchesOf(s.hist, id) + [] == BatchesOf(s.hist, id);
  }

  lemma SortedMeansMemfiles(s: State)
    requires Inv(s)
    ensures |s.meta.sorted| < |s.past.chain|
    ensures Overlay(s.dumps, s.meta.sorted) == Overlay(s.memfiles, s.past.chain[..|s.meta.sorted|])
  {
    hide ContentInv, LogInv, OverlayInv, HomesIn, RoomInv, MetaInv, DumpInv, QueueInv;
    TablesAsMemfiles(s.dumps, s.meta.sorted, s.memfiles, s.past.chain[..|s.meta.sorted|]);
  }

  /** The tables below the checkpoint and the complete batches of the logs above it give the promised map. */
  lemma TablesAndLogsMeanPromised(s: State)
    requires Inv(s)
    ensures |s.meta.sorted| < |s.past.chain|
    ensures Overlay(s.dumps, s.meta.sorted) + Overlay(LogMaps(s.logs), s.past.chain[|s.meta.sorted|..]) == Promised(s)
  {
    hide Inv, Overlay, At, Meaning, LogMaps;
    SortedMeansMemfiles(s);
    ActiveIsLast(s);
    ChainMeansHistory(s);
    var k := |s.meta.sorted|;
    var n := |s.past.chain|;
    var head, mid, active := s.past.chain[..k], s.past.chain[k..n - 1], s.queue.active;
    assert s.past.chain[k..] == mid + [active];
    assert s.past.chain == head + (mid + [active]);
    OverlaySplit(s.memfiles, head, mid + [active]);
    OverlaySnoc(s.memfiles, mid, active);
    OverlaySnoc(LogMaps(s.logs), mid, active);
    forall i | k <= i < n - 1 ensures At(LogMaps(s.logs), s.past.chain[i]) == At(s.memfiles, s.past.chain[i]) {
      LogMeansMemfile(s, i);
    }
    forall id | id in mid ensures At(LogMaps(s.logs), id) == At(s.memfiles, id) {
    }
    OverlayFrame(LogMaps(s.logs), s.memfiles, mid);
    LogMeansMemfile(s, n - 1);
    PlusAssociates(Overlay(s.memfiles, head), Overlay(s.memfiles, mid), At(s.memfiles, active));
    if s.writer.Logged? {
      var after := ApplyBatch(At(s.memfiles, active), s.writer.batch);
      PlusAssociates(Overlay(s.memfiles, head), Overlay(s.memfiles, mid), after);
      ApplyOverlay(Overlay(s.memfiles, head) + Overlay(s.memfiles, mid), At(s.memfiles, active), s.writer.batch);
    }
  }

  lemma ChainIsCut(s: State, top: nat)
    requires Inv(s) && Bounds(s.logs, top)
    ensures |s.meta.sorted| < |s.past.chain|
    ensures Cuts(s.past.chain, |s.meta.sorted|, |s.past.chain|, s.meta.redoId + 1, top) && s.meta.redoId + 1 <= top
  {
    ActiveStored(s);
    ActiveFacts(s);
    ChainSplitsAtCheckpoint(s, 0);
    forall i, j | 0 <= i < j < |s.past.chain| ensures s.past.chain[i] < s.past.chain[j] {
      IncreasingAt(s.past.chain, i, j);
    }
    forall i | 0 <= i < |s.past.chain|
      ensures i < |s.meta.sorted| <==> s.past.chain[i] < s.meta.redoId + 1
      ensures s.past.chain[i] < top
    {
      ChainSplitsAtCheckpoint(s, i);
      assert s.past.chain[i] in s.past.chain;
    }
    hide Inv;
  }

  lemma GoodRecordsMeanPromised(s: State, top: nat)
    requires Inv(s) && Bounds(s.logs, top)
    ensures ApplyBatch(Overlay(s.dumps, s.meta.sorted), Good(MarksOf(s, top))) == Promised(s)
  {
    hide Inv, Overlay, Promised, Good, Marks, ApplyBatch, Cuts, LogMaps;
    ChainIsCut(s, top);
    var n := |s.meta.sorted|;
    GoodOfLogs(Overlay(s.dumps, s.meta.sorted), s.logs, s.past.chain, n, |s.past.chain|, s.meta.redoId + 1, top);
    assert s.past.chain[n..|s.past.chain|] == s.past.chain[n..];
    TablesAndLogsMeanPromised(s);
  }

  // ------------------------------------------------------------------- results

  /**
    What the files say is the acknowledged map (with the batch that is about to be acknowledged) exactly when
    every record that a failed append or an earlier process left above the checkpoint, and that no later
    record covers, repeats the value that was there.
   */
  lemma DiskShowsPromised(s: State, top: nat)
    requires Inv(s) && Bounds(s.logs, top)
    ensures DiskOf(s, top) == Promised(s) <==> Harmless(Overlay(s.dumps, s.meta.sorted), MarksOf(s, top))
  {
    hide *;
    GoodRecordsMeanPromised(s, top);
    ReplayAgrees(Overlay(s.dumps, s.meta.sorted), MarksOf(s, top));
    RawIsAll(s, top);
  }

  lemma RawIsAll(s: State, top: nat)
    ensures DiskOf(s, top) == ApplyBatch(Overlay(s.dumps, s.meta.sorted), All(MarksOf(s, top)))
  {
    MarksKeepRecords(s.logs, s.past.chain, s.meta.redoId + 1, top);
  }

  /** Above the checkpoint, failed appends left no record, and only logs of this process hold records. */
  predicate Clean(s: State) {
    forall id :: id in s.logs && id > s.meta.redoId ==>
      (id in s.past.chain && forall c :: c in s.logs[id] && !c.complete ==> c.records == []) || Records(s.logs[id]) == []
  }

  lemma {:induction false} CompleteMarksAreGood(log: seq<Chunk>)
    requires forall c :: c in log && !c.complete ==> c.records == []
    ensures forall m :: m in LogMarks(log, true) ==> m.good
  {
    if log != [] {
      var last := log[|log| - 1];
      CompleteMarksAreGood(log[..|log| - 1]);
      AllMarkedAlike(last.records, last.complete);
    }
  }

  lemma {:induction false} AllMarkedAlike(batch: Batch, good: bool)
    ensures |MarkAll(batch, good)| == |batch| && forall m :: m in MarkAll(batch, good) ==> m.good == good
  {
    if batch != [] {
      AllMarkedAlike(batch[..|batch| - 1], good);
    }
  }

  lemma {:induction false} NoRecordsNoMarks(log: seq<Chunk>, mine: bool)
    requires Records(log) == []
    ensures LogMarks(log, mine) == []
  {
    if log != [] {
      var last := log[|log| - 1];
      assert |Records(log[..|log| - 1])| + |last.records| == 0;
      NoRecordsNoMarks(log[..|log| - 1], mine);
    }
  }

  lemma {:induction false} CleanMarksAreGood(s: State, hi: nat)
    requires Clean(s)
    ensures forall m :: m in Marks(s.logs, s.past.chain, s.meta.redoId + 1, hi) ==> m.good
    decreases hi
  {
    if hi > s.meta.redoId + 1 {
      CleanMarksAreGood(s, hi - 1);
      var log := LogAt(s.logs, hi - 1);
      if Records(log) == [] {
        NoRecordsNoMarks(log, hi - 1 in s.past.chain);
      } else {
        CompleteMarksAreGood(log);
      }
    }
  }

  /** So a directory without such records always shows the acknowledged map. */
  lemma CleanDiskShowsPromised(s: State, top: nat)
    requires Inv(s) && Bounds(s.logs, top) && Clean(s)
    ensures DiskOf(s, top) == Promised(s)
  {
    hide Inv, DiskOf, Promised, Clean, Marks, Overlay;
    CleanMarksAreGood(s, top);
    DiskShowsPromised(s, top);
  }

  /** A freshly opened engine on an empty directory, with other contents of its log and another writer. */
  function WithLog(log: seq<Chunk>, w: Writer): State {
    Opened(map[], map[], false).(writer := w, logs := map[1 := log])
  }

  lemma WithLogSteps(batch: Batch)
    requires |batch| == 1 && BatchBytes(batch) <= CAPACITY
    ensures WithLog([], Idle) == Opened(map[], map[], false)
    ensures Enabled(WithLog([], Idle), Writing(Begin(batch)))
    ensures Step(WithLog([], Idle), Writing(Begin(batch))) == WithLog([], Waiting(batch))
    ensures Enabled(WithLog([], Waiting(batch)), Writing(RoomFound))
    ensures Step(WithLog([], Waiting(batch)), Writing(RoomFound)) == WithLog([], Roomed(batch))
  {
  }

  lemma WithLogAppends(batch: Batch)
    requires |batch| == 1
    ensures Enabled(WithLog([], Roomed(batch)), Writing(LogFail(1)))
    ensures Step(WithLog([], Roomed(batch)), Writing(LogFail(1))) == WithLog([Chunk(batch, false)], Idle)
    ensures Enabled(WithLog([], Roomed(batch)), Writing(LogAppend))
    ensures Step(WithLog([], Roomed(batch)), Writing(LogAppend)) == WithLog([Chunk(batch, true)], Logged(batch))
  {
    assert batch[..1] == batch;
    assert forall c: Chunk :: [] + [c] == [c];
    assert forall c: Chunk :: map[1 := []][1 := [c]] == map[1 := [c]];
  }

  lemma WithLogIsReached(batch: Batch)
    requires |batch| == 1 && BatchBytes(batch) <= CAPACITY
    ensures Reachable(WithLog([Chunk(batch, false)], Idle))
    ensures Reachable(WithLog([Chunk(batch, true)], Logged(batch)))
  {
    hide *;
    OpenedIsInitial(map[], map[], false);
    WithLogSteps(batch);
    WithLogAppends(batch);
    StepReaches(WithLog([], Idle), Writing(Begin(batch)));
    StepReaches(WithLog([], Waiting(batch)), Writing(RoomFound));
    StepReaches(WithLog([], Roomed(batch)), Writing(LogFail(1)));
    StepReaches(WithLog([], Roomed(batch)), Writing(LogAppend));
  }

  lemma ApplyOne(m: KvMap, u: Update)
    ensures ApplyBatch(m, [u]) == m[u.key := u.value] && BatchBytes([u]) == |u.key| + |u.value|
    ensures ClonedBytes(map[], [u]) == BatchBytes([u])
  {
    assert [u][..0] == [];
  }

  lemma WithLogRecords(batch: Batch, complete: bool, w: Writer)
    ensures Records([Chunk(batch, complete)]) == batch
    ensures DiskOf(WithLog([Chunk(batch, complete)], w), 2) == ApplyBatch(map[], batch)
  {
    var log := [Chunk(batch, complete)];
    assert log[..0] == [];
    var s := WithLog(log, w);
    assert RecordsFrom(s.logs, 1, 1) == [];
    assert RecordsFrom(s.logs, 1, 2) == [] + Records(log);
  }

  /** After the failed append the files show its record although the plain map, which is empty, does not. */
  lemma FailedAppendShows(u: Update) returns (s: State)
    requires |u.key| + |u.value| <= CAPACITY
    ensures Reachable(s) && s.writer.Idle? && Bounds(s.logs, 2)
    ensures Promised(s) == map[] && DiskOf(s, 2) == map[u.key := u.value]
  {
    s := WithLog([Chunk([u], false)], Idle);
    hide Reachable, DiskOf;
    ApplyOne(map[], u);
    WithLogIsReached([u]);
    WithLogRecords([u], false, Idle);
  }

  lemma WithLogAdds(u: Update)
    requires |u.key| + |u.value| <= CAPACITY
    ensures var s := WithLog([Chunk([u], true)], Logged([u]));
      && Enabled(s, Writing(MemAdd))
      && Step(s, Writing(MemAdd)) == s.(writer := Idle, memfiles := map[1 := map[u.key := u.value]],
                                        used := map[1 := BatchBytes([u])], hist := [Commit(1, [u])])
  {
    ApplyOne(map[], u);
    hide ApplyBatch, ClonedBytes, BatchBytes;
  }

  lemma OneCommitMeans(u: Update)
    ensures Replay(Batches([Commit(1, [u])])) == map[u.key := u.value]
  {
    var c := Commit(1, [u]);
    assert [] + [c] == [c];
    BatchesSnoc([], c);
    ReplaySnoc([], [u]);
    ApplyOne(map[], u);
  }

  /**
    Nothing on disk tells a successful append from a failed one that wrote everything: two runs can end in
    states with the same metadata, tables and record streams, one with the update acknowledged and one without.
   */
  lemma RecordsHideFailures(u: Update) returns (done: State, failed: State)
    requires |u.key| + |u.value| <= CAPACITY
    ensures Reachable(done) && Reachable(failed) && done.writer.Idle? && failed.writer.Idle?
    ensures done.meta == failed.meta && done.tables == failed.tables && done.dumps == failed.dumps
    ensures done.logs.Keys == failed.logs.Keys
    ensures forall id :: id in done.logs ==> Records(done.logs[id]) == Records(failed.logs[id])
    ensures Meaning(done) == map[u.key := u.value] && Meaning(failed) == map[]
  {
    hide Reachable, Step, Enabled, DiskOf, Records;
    ApplyOne(map[], u);
    WithLogIsReached([u]);
    WithLogAdds(u);
    OneCommitMeans(u);
    WithLogRecords([u], true, Idle);
    WithLogRecords([u], false, Idle);
    failed := WithLog([Chunk([u], false)], Idle);
    var logged := WithLog([Chunk([u], true)], Logged([u]));
    StepReaches(logged, Writing(MemAdd));
    done := Step(logged, Writing(MemAdd));
  }
}
