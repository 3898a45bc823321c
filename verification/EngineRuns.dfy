/** What holds of the engine over whole runs, whatever the interleaving. */
module EngineRuns {
  import opened Updates
  import opened EngineState
  import opened EngineInvariant

  ghost predicate Next(s: State, t: State) {
    exists e :: Enabled(s, e) && t == Step(s, e)
  }

  ghost predicate Run(run: seq<State>) {
    && run != [] && Init(run[0])
    && (forall i, j :: 0 <= i < j < |run| && j == i + 1 ==> Next(run[i], run[j]))
  }

  lemma {:induction false} RunKeepsInv(run: seq<State>, i: nat)
    requires Run(run) && i < |run|
    ensures Inv(run[i])
  {
    hide Inv, Init, Enabled, Step;
    if i == 0 {
      InitEstablishesInv(run[0]);
    } else {
      RunKeepsInv(run, i - 1);
      assert Next(run[i - 1], run[i]);
      var e :| Enabled(run[i - 1], e) && run[i] == Step(run[i - 1], e);
      StepKeepsInv(run[i - 1], e);
    }
  }

  ghost predicate Reachable(s: State) {
    exists run :: Run(run) && run[|run| - 1] == s
  }

  lemma ReachableInv(s: State)
    requires Reachable(s)
    ensures Inv(s)
  {
    var run :| Run(run) && run[|run| - 1] == s;
    RunKeepsInv(run, |run| - 1);
  }

  lemma StepReaches(s: State, e: Event)
    requires Reachable(s) && Enabled(s, e)
    ensures Reachable(Step(s, e))
  {
    hide Enabled, Step, Init;
    var run :| Run(run) && run[|run| - 1] == s;
    var longer := run + [Step(s, e)];
    forall i, j | 0 <= i < j < |longer| && j == i + 1 ensures Next(longer[i], longer[j]) {
      if j < |run| {
        assert Next(run[i], run[j]);
      }
    }
    assert Run(longer);
  }

  /** The abstract state of an engine that was just opened on a directory with these files. */
  function Opened(logs: map<nat, seq<Chunk>>, dumps: map<nat, KvMap>, resubmitted: bool): State {
    State(map[1 := map[]], map[1 := 0], Queue(1, []), Meta(0, 2, 1, []), logs[1 := []], dumps, [],
          AfterTake(resubmitted), Idle, [], [], Past([1], 0, []), [])
  }

  lemma OpenedIsInitial(logs: map<nat, seq<Chunk>>, dumps: map<nat, KvMap>, resubmitted: bool)
    ensures var s := Opened(logs, dumps, resubmitted);
      && Init(s) && Reachable(s)
      && s.past.chain == [1] && s.past.popped == 0 && s.queue.active == 1
      && s.memfiles == map[1 := map[]] && s.used == map[1 := 0]
      && s.meta == Meta(0, 2, 1, []) && s.tables == [] && s.logs == logs[1 := []] && s.dumps == dumps
      && s.future == AfterTake(resubmitted)
  {
    assert Run([Opened(logs, dumps, resubmitted)]);
  }

  // ------------------------------------------------------ refinement to a map

  /** The abstract content: all acknowledged batches applied in commit order to an empty map. */
  function Meaning(s: State): KvMap {
    Replay(Batches(s.hist))
  }

  /** What the parts hold: published tables in list order, then the queue, then the active memfile. */
  function View(s: State): KvMap {
    Overlay(s.dumps, s.tables) + Overlay(s.memfiles, s.queue.immutable) + At(s.memfiles, s.queue.active)
  }

  lemma PlusAssociates(a: KvMap, b: KvMap, c: KvMap)
    ensures (a + b) + c == a + (b + c)
  {
  }

  lemma {:induction false} OverlaySplit(m: map<nat, KvMap>, a: seq<nat>, b: seq<nat>)
    ensures Overlay(m, a + b) == Overlay(m, a) + Overlay(m, b)
  {
    if b == [] {
      assert a + b == a;
    } else {
      var pre, id := b[..|b| - 1], b[|b| - 1];
      OverlaySplit(m, a, pre);
      OverlaySnoc(m, a + pre, id);
      OverlaySnoc(m, pre, id);
      assert a + b == (a + pre) + [id];
      assert b == pre + [id];
      PlusAssociates(Overlay(m, a), Overlay(m, pre), At(m, id));
    }
  }

  /** Laying the tables over each other is laying over each other the memfiles they were made from. */
  lemma {:induction false} TablesAsMemfiles(dumps: map<nat, KvMap>, files: seq<nat>, memfiles: map<nat, KvMap>, ids: seq<nat>)
    requires |files| == |ids|
    requires forall i :: 0 <= i < |files| ==> At(dumps, files[i]) == At(memfiles, ids[i])
    ensures Overlay(dumps, files) == Overlay(memfiles, ids)
  {
    if files != [] {
      TablesAsMemfiles(dumps, files[..|files| - 1], memfiles, ids[..|ids| - 1]);
    }
  }

  /** How many memfiles at the head of the chain have their table published. */
  function PublishedCount(s: State): nat {
    s.past.popped + (if Front(s.flights).Published? then 1 else 0)
  }

  lemma PublishedTables(s: State)
    requires Inv(s)
    ensures |s.tables| == PublishedCount(s) < |s.past.chain|
    ensures forall i :: 0 <= i < |s.tables| ==>
              s.tables[i] in s.dumps && s.past.chain[i] in s.memfiles
              && s.dumps[s.tables[i]] == s.memfiles[s.past.chain[i]]
    ensures forall i :: 0 <= i < |s.tables| ==> s.tables[i] == s.meta.sorted[i]
  {
    hide ContentInv, LogInv, OverlayInv, HomesIn, RoomInv;
  }

  lemma QueueAsChain(s: State)
    requires Inv(s)
    ensures s.past.chain[s.past.popped..] == s.queue.immutable + [s.queue.active]
    ensures AllIn(s.past.chain, s.memfiles)
  {
    hide ContentInv, LogInv, OverlayInv, HomesIn, RoomInv, TablesInv, MetaInv, DumpInv;
  }

  lemma OverlayFirst(m: map<nat, KvMap>, ids: seq<nat>)
    requires ids != []
    ensures Overlay(m, ids) == At(m, ids[0]) + Overlay(m, ids[1..])
  {
    assert ids == [ids[0]] + ids[1..];
    OverlaySplit(m, [ids[0]], ids[1..]);
    assert [] + [ids[0]] == [ids[0]];
    OverlaySnoc(m, [], ids[0]);
  }

  lemma TablesMatch(s: State)
    requires Inv(s)
    ensures |s.tables| <= |s.past.chain|
    ensures forall i :: 0 <= i < |s.tables| ==> At(s.dumps, s.tables[i]) == At(s.memfiles, s.past.chain[..|s.tables|][i])
  {
    hide Inv;
    PublishedTables(s);
  }

  /** Counting a memfile both as a table and as the front of the queue changes nothing. */
  lemma PlusAbsorbs(a: KvMap, b: KvMap, c: KvMap)
    ensures (a + b) + (b + c) == a + (b + c)
  {
  }

  lemma ChainMeansHistory(s: State)
    requires Inv(s)
    ensures Overlay(s.memfiles, s.past.chain) == Meaning(s)
  {
  }

  /** In every state, the data structures mean exactly the fold of the acknowledged batches. */
  lemma ViewIsMeaning(s: State)
    requires Inv(s)
    ensures View(s) == Meaning(s)
  {
    hide Inv, Overlay, At, Meaning;
    PublishedTables(s);
    QueueAsChain(s);
    ChainMeansHistory(s);
    var gone := s.past.chain[..s.past.popped];
    var rest := s.queue.immutable + [s.queue.active];
    var tables := Overlay(s.dumps, s.tables);
    TablesMatch(s);
    TablesAsMemfiles(s.dumps, s.tables, s.memfiles, s.past.chain[..|s.tables|]);
    assert s.past.chain == gone + rest;
    OverlaySplit(s.memfiles, gone, rest);
    OverlaySnoc(s.memfiles, s.queue.immutable, s.queue.active);
    PlusAssociates(tables, Overlay(s.memfiles, s.queue.immutable), At(s.memfiles, s.queue.active));
    if Front(s.flights).Published? {
      assert s.past.chain[..|s.tables|] == gone + [rest[0]];
      OverlaySnoc(s.memfiles, gone, rest[0]);
      OverlayFirst(s.memfiles, rest);
      PlusAbsorbs(Overlay(s.memfiles, gone), At(s.memfiles, rest[0]), Overlay(s.memfiles, rest[1..]));
    }
  }

  lemma OnlyMemAddWrites(s: State, w: WriterEvent)
    requires WriterEnabled(s, w)
    ensures WriterStep(s, w).hist == if w.MemAdd? then s.hist + [Commit(s.queue.active, s.writer.batch)] else s.hist
  {
  }

  lemma DumpsKeepWriter(s: State, k: nat, d: DumpEvent)
    requires DumpEnabled(s, k, d)
    ensures DumpStep(s, k, d).writer == s.writer && DumpStep(s, k, d).queue.active == s.queue.active
    ensures DumpStep(s, k, d).meta.nextRedo == s.meta.nextRedo
    ensures DumpStep(s, k, d).hist == s.hist
  {
  }

  lemma GcKeepsWriter(s: State, g: GcEvent)
    requires GcEnabled(s, g)
    ensures GcStep(s, g).writer == s.writer && GcStep(s, g).queue == s.queue && GcStep(s, g).meta == s.meta
    ensures GcStep(s, g).hist == s.hist
  {
  }

  lemma OtherStepsKeepWriter(s: State, e: Event)
    requires Enabled(s, e) && !e.Writing?
    ensures Step(s, e).writer == s.writer && Step(s, e).queue.active == s.queue.active
    ensures Step(s, e).meta.nextRedo >= s.meta.nextRedo && Step(s, e).hist == s.hist
  {
    hide DumpEnabled, DumpStep, GcEnabled, GcStep;
    match e
    case Alloc(_, _) =>
    case Dumper(k, d) => DumpsKeepWriter(s, k, d);
    case Collect(g) => GcKeepsWriter(s, g);
  }

  lemma OnlyMemAddCommits(s: State, e: Event)
    requires Enabled(s, e)
    ensures Step(s, e).hist == if e == Writing(MemAdd) then s.hist + [Commit(s.queue.active, s.writer.batch)] else s.hist
  {
    hide WriterStep, WriterEnabled, DumpEnabled, DumpStep, GcEnabled, GcStep;
    if e.Writing? {
      OnlyMemAddWrites(s, e.w);
    } else {
      OtherStepsKeepWriter(s, e);
    }
  }

  /**
    Refinement over whole runs.  The end of a successful write, from Logged to Idle, applies exactly its
    batch; every other step leaves the map as it is.
   */
  lemma RunRefinesMap(run: seq<State>, i: nat)
    requires Run(run) && i < |run|
    ensures View(run[i]) == Meaning(run[i])
    ensures i == 0 ==> Meaning(run[i]) == map[]
    ensures i + 1 < |run| ==>
              View(run[i + 1]) == if run[i].writer.Logged? && run[i + 1].writer.Idle?
                                  then ApplyBatch(View(run[i]), run[i].writer.batch) else View(run[i])
  {
    hide Inv, Enabled, Step, View;
    RunKeepsInv(run, i);
    ViewIsMeaning(run[i]);
    if i + 1 < |run| {
      RunKeepsInv(run, i + 1);
      ViewIsMeaning(run[i + 1]);
      assert Next(run[i], run[i + 1]);
      var e :| Enabled(run[i], e) && run[i + 1] == Step(run[i], e);
      OnlyMemAddCommits(run[i], e);
      LoggedEndsByAdd(run[i], e);
      if e == Writing(MemAdd) {
        var c := Commit(run[i].queue.active, run[i].writer.batch);
        BatchesSnoc(run[i].hist, c);
        ReplaySnoc(Batches(run[i].hist), c.batch);
      }
    }
  }

  /** A logged batch leaves the hands of the commit thread only by being added. */
  lemma LoggedEndsByAdd(s: State, e: Event)
    requires Enabled(s, e)
    ensures e == Writing(MemAdd) <==> s.writer.Logged? && Step(s, e).writer.Idle?
  {
    if !e.Writing? {
      OtherStepsKeepWriter(s, e);
      hide Step, Enabled;
    }
  }

  // --------------------------------------------------------------- durability

  /** The home of the c-th acknowledged batch was checkpointed, and a listed table holds all its batches. */
  ghost predicate InTable(s: State, c: nat)
    requires c < |s.hist|
  {
    exists k ::
      && 0 <= k < |s.meta.sorted| && k < |s.past.checkpoints| && s.past.checkpoints[k] == s.hist[c].home
      && s.meta.sorted[k] in s.dumps
      && s.dumps[s.meta.sorted[k]] == Replay(BatchesOf(s.hist, s.hist[c].home))
  }

  /** The redo log of the c-th acknowledged batch exists and holds every acknowledged batch of that memfile, in order. */
  predicate InLog(s: State, c: nat)
    requires c < |s.hist|
  {
    && s.hist[c].home in s.logs
    && BatchesOf(s.hist, s.hist[c].home) <= CompleteBatches(s.logs[s.hist[c].home])
  }

  lemma {:induction false} CommitIsInItsHome(hist: seq<Commit>, c: nat)
    requires c < |hist|
    ensures hist[c].batch in BatchesOf(hist, hist[c].home)
  {
    if c < |hist| - 1 {
      CommitIsInItsHome(hist[..|hist| - 1], c);
    }
  }

  /** The chain splits at the checkpoint: what is at or below redo_id_ was checkpointed, the rest is above it. */
  lemma ChainSplitsAtCheckpoint(s: State, k: nat)
    requires Inv(s) && k < |s.past.chain|
    ensures |s.past.checkpoints| == |s.meta.sorted| < |s.past.chain|
    ensures k < |s.past.checkpoints| <==> s.past.chain[k] <= s.meta.redoId
  {
    hide TablesInv, ContentInv, LogInv, OverlayInv, HomesIn, DumpInv, KnownInv, RoomInv;
    var n := |s.past.checkpoints|;
    assert s.past.chain[k] in s.past.chain;
    if n > 0 && k < n - 1 {
      IncreasingAt(s.past.chain, k, n - 1);
    } else if n > 0 && k > n - 1 {
      IncreasingAt(s.past.chain, n - 1, k);
    }
  }

  lemma CheckpointedIsInTable(s: State, c: nat)
    requires Inv(s) && c < |s.hist| && s.hist[c].home <= s.meta.redoId
    ensures InTable(s, c)
  {
    hide ContentInv, LogInv, OverlayInv, QueueInv, DumpInv, RoomInv, KnownInv, IdInv;
    var home := s.hist[c].home;
    assert home in s.past.chain;
    var k :| 0 <= k < |s.past.chain| && s.past.chain[k] == home;
    ChainSplitsAtCheckpoint(s, k);
    ContentAt(s, home);
  }

  lemma ContentAt(s: State, id: nat)
    requires Inv(s) && id in s.past.chain
    ensures id in s.memfiles && s.memfiles[id] == Replay(BatchesOf(s.hist, id))
  {
  }

  lemma UncheckpointedIsInLog(s: State, c: nat)
    requires Inv(s) && c < |s.hist| && s.hist[c].home >= s.meta.redoId
    ensures InLog(s, c)
  {
  }

  /** No acknowledged batch is ever lost within one process lifetime. */
  lemma AcknowledgedBatchesAreDurable(run: seq<State>, i: nat, c: nat)
    requires Run(run) && i < |run| && c < |run[i].hist|
    ensures run[i].hist[c].batch in BatchesOf(run[i].hist, run[i].hist[c].home)
    ensures run[i].hist[c].home <= run[i].meta.redoId ==> InTable(run[i], c)
    ensures run[i].hist[c].home >= run[i].meta.redoId ==> InLog(run[i], c)
  {
    hide InTable, InLog, Inv;
    RunKeepsInv(run, i);
    CommitIsInItsHome(run[i].hist, c);
    if run[i].hist[c].home <= run[i].meta.redoId {
      CheckpointedIsInTable(run[i], c);
    }
    if run[i].hist[c].home >= run[i].meta.redoId {
      UncheckpointedIsInLog(run[i], c);
    }
  }

  /** However stale its bound, gc deletes only logs whose acknowledged batches are all in listed tables, never one in use. */
  lemma GcOnlyDropsCheckpointedLogs(s: State, gc: nat, id: nat)
    requires Inv(s) && GcEnabled(s, GcDelete(gc, id))
    ensures s.queue.active != id && (s.future.Ready? ==> s.future.id != id)
    ensures forall c :: 0 <= c < |s.hist| && s.hist[c].home == id ==> InTable(s, c)
  {
    hide InTable, ContentInv, LogInv, OverlayInv, QueueInv, DumpInv, RoomInv, KnownInv, MetaInv, TablesInv;
    ActiveFacts(s);
    forall c | 0 <= c < |s.hist| && s.hist[c].home == id ensures InTable(s, c) {
      CheckpointedIsInTable(s, c);
    }
  }

  lemma ActiveIsLast(s: State)
    requires Inv(s)
    ensures s.past.chain != [] && s.queue.active == s.past.chain[|s.past.chain| - 1]
    ensures forall i :: 0 <= i < |s.past.chain| - 1 ==> s.past.chain[i] != s.queue.active
  {
    hide TablesInv, ContentInv, LogInv, OverlayInv, HomesIn, DumpInv, RoomInv, MetaInv, KnownInv, IdInv;
    LastIsLargest(s.past.chain);
  }

  // ------------------------------------------------------- queue, dump and ids

  /**
    At most 32 immutable memfiles; never two dumps in flight, one exactly when there is an immutable memfile,
    and each the dump of the front; the checkpoints done are, in order and without repetition, the oldest
    memfiles, and every memfile that left the queue is among them, the front being the only possible extra one.
   */
  predicate QueueAndDumpAgree(s: State) {
    && |s.queue.immutable| <= MAX_IMMUTABLE
    && |s.flights| == (if s.queue.immutable == [] then 0 else 1)
    && (forall d :: d in s.flights ==> !d.NoDump? && s.queue.immutable != [] && d.redo == s.queue.immutable[0])
    && s.past.popped <= |s.past.checkpoints| < |s.past.chain|
    && s.past.chain[s.past.popped..] == s.queue.immutable + [s.queue.active]
    && s.past.checkpoints == s.past.chain[..|s.past.checkpoints|]
    && Increasing(s.past.chain)
    && |s.past.checkpoints| == s.past.popped + |Checkpointed(s.flights)|
  }

  /** The dumps whose callback has checkpointed but not popped. */
  function Checkpointed(flights: seq<Dump>): seq<Dump> {
    if flights == [] then []
    else
      var d := flights[|flights| - 1];
      Checkpointed(flights[..|flights| - 1]) + (if d.Saved? || d.Published? then [d] else [])
  }

  lemma CheckpointedOfOne(flights: seq<Dump>)
    requires FlightsInv(flights)
    ensures |Checkpointed(flights)| == Unpopped(Front(flights))
    ensures forall d :: d in flights ==> flights == [d] && d == Front(flights) && !d.NoDump?
  {
    assert flights != [] ==> flights[..|flights| - 1] == [];
  }

  lemma QueueAndDump(s: State)
    requires Inv(s)
    ensures QueueAndDumpAgree(s)
  {
    hide TablesInv, ContentInv, LogInv, OverlayInv, HomesIn, RoomInv, KnownInv, IdInv, GcInv, FutureInv, Increasing;
    CheckpointedOfOne(s.flights);
    QueueAsChain(s);
    CheckpointsAreOldest(s.meta, s.past, s.tables, Front(s.flights));
    hide Checkpointed;
  }

  /** In every state of every run: at most one dump in flight, and what belongs to it. */
  lemma RunHasOneDump(run: seq<State>, i: nat)
    requires Run(run) && i < |run|
    ensures QueueAndDumpAgree(run[i])
  {
    hide Inv, Run, QueueAndDumpAgree;
    RunKeepsInv(run, i);
    QueueAndDump(run[i]);
  }

  lemma CheckpointsAreOldest(meta: Meta, past: Past, tables: seq<nat>, dump: Dump)
    requires MetaInv(meta, past, tables, dump)
    ensures |past.checkpoints| < |past.chain| && past.checkpoints == past.chain[..|past.checkpoints|]
  {
  }

  /**
    Table ids increase along the list and were all handed out; metadata and file manager list the same tables,
    except between a checkpoint and the publication of its table, when the metadata is one table ahead.
   */
  lemma TableListsAgree(s: State)
    requires Inv(s)
    ensures Increasing(s.meta.sorted)
    ensures forall file :: file in s.meta.sorted ==> file < s.meta.nextFile
    ensures s.meta.sorted == if Front(s.flights).Saved? then s.tables + [Front(s.flights).file] else s.tables
  {
    hide TablesInv, ContentInv, LogInv, OverlayInv, HomesIn, RoomInv, KnownInv, IdInv, QueueInv;
    if s.meta.sorted != [] {
      LastIsLargest(s.meta.sorted);
    }
  }

  /** Redo ids only grow: a new active memfile has a larger id than every log ever used, whatever failed in between. */
  lemma RedoIdsGrow(s: State, e: Event)
    requires Inv(s) && Enabled(s, e)
    ensures Step(s, e).meta.nextRedo >= s.meta.nextRedo
    ensures Step(s, e).queue.active != s.queue.active ==>
              && s.queue.active < Step(s, e).queue.active < s.meta.nextRedo
              && (forall id :: id in s.past.chain ==> id < Step(s, e).queue.active)
  {
    hide Inv, Step, Enabled;
    if !e.Writing? {
      OtherStepsKeepWriter(s, e);
    } else if e.w.Switch? {
      SwitchTakesLargerId(s, e.w.resubmitted);
    } else {
      OtherWritesKeepIds(s, e.w);
    }
  }

  lemma SwitchTakesLargerId(s: State, resubmitted: bool)
    requires Inv(s) && Enabled(s, Writing(Switch(resubmitted)))
    ensures var t := Step(s, Writing(Switch(resubmitted)));
      && t.meta.nextRedo == s.meta.nextRedo && s.queue.active < t.queue.active < s.meta.nextRedo
      && forall id :: id in s.past.chain ==> id < t.queue.active
  {
    hide QueueInv, TablesInv, ContentInv, LogInv, OverlayInv, HomesIn, RoomInv, KnownInv, MetaInv, DumpInv, GcInv;
    ActiveFacts(s);
    SwitchIs(s, resubmitted);
    hide WriterStep;
  }

  lemma OtherWritesKeepIds(s: State, w: WriterEvent)
    requires Enabled(s, Writing(w)) && !w.Switch?
    ensures Step(s, Writing(w)).queue == s.queue && Step(s, Writing(w)).meta == s.meta
  {
    OtherWritesKeepQueue(s, w);
    hide WriterStep, WriterEnabled;
  }

  lemma OtherWritesKeepQueue(s: State, w: WriterEvent)
    requires WriterEnabled(s, w) && !w.Switch?
    ensures WriterStep(s, w).queue == s.queue && WriterStep(s, w).meta == s.meta
  {
  }

  /** The room check does not look at the new memfile: after it, the batch fits exactly when it is at most one memfile long. */
  lemma RoomedBatchFits(s: State)
    requires Inv(s) && (s.writer.Roomed? || s.writer.Logged?)
    ensures s.queue.active in s.used
    ensures HasRoom(s) <==> BatchBytes(s.writer.batch) <= CAPACITY
  {
    hide TablesInv, ContentInv, LogInv, OverlayInv, HomesIn, MetaInv, DumpInv, QueueInv, IdInv;
  }

  /** So the memfile step of a logged batch of at most 2 MiB is always possible. */
  lemma LoggedBatchCanBeAdded(s: State)
    requires Inv(s) && s.writer.Logged? && BatchBytes(s.writer.batch) <= CAPACITY
    ensures Enabled(s, Writing(MemAdd))
  {
    hide Inv, Enabled, HasRoom, ClonedBytes;
    ActiveStored(s);
    LoggedFits(s);
    MemAddFitsIff(s);
  }

  lemma LoggedFits(s: State)
    requires Inv(s) && s.writer.Logged? && BatchBytes(s.writer.batch) <= CAPACITY
    ensures s.queue.active in s.memfiles && s.queue.active in s.used
    ensures s.used[s.queue.active] + ClonedBytes(s.memfiles[s.queue.active], s.writer.batch) <= CAPACITY
  {
    RoomedBatchFits(s);
    ActiveStored(s);
    ClonedAtMostBatch(s.memfiles[s.queue.active], s.writer.batch);
    hide Inv, ClonedBytes, BatchBytes;
  }

  lemma MemAddFitsIff(s: State)
    requires s.writer.Logged? && s.queue.active in s.memfiles && s.queue.active in s.used && s.queue.active in s.logs
    ensures Enabled(s, Writing(MemAdd))
       <==> s.used[s.queue.active] + ClonedBytes(s.memfiles[s.queue.active], s.writer.batch) <= CAPACITY
  {
  }

  /** A freshly opened engine whose next log is ready, with a batch in the hands of the commit thread. */
  function Ordered(batch: Batch): State {
    var s := Opened(map[], map[], true);
    s.(writer := Waiting(batch), future := Ready(2), meta := s.meta.(nextRedo := 3), logs := s.logs[2 := []])
  }

  lemma OrderedIsReached(batch: Batch)
    ensures Reachable(Ordered(batch))
  {
    var s := Opened(map[], map[], true);
    OpenedIsInitial(map[], map[], true);
    hide Reachable;
    StepReaches(s, Writing(Begin(batch)));
    var t := s.(writer := Waiting(batch));
    assert Step(s, Writing(Begin(batch))) == t;
    StepReaches(t, Alloc(true, true));
    assert Step(t, Alloc(true, true)) == Ordered(batch);
  }

  /** A batch too long for the first memfile goes to a second one, whatever its length. */
  lemma OrderedSwitches(batch: Batch)
    requires BatchBytes(batch) > CAPACITY
    ensures Enabled(Ordered(batch), Writing(Switch(false)))
    ensures var t := Step(Ordered(batch), Writing(Switch(false)));
      && t.writer == Roomed(batch) && t.queue.active == 2 && Enabled(t, Writing(LogAppend))
      && 2 in t.memfiles && t.memfiles[2] == map[] && 2 in t.used && t.used[2] == 0
  {
  }

  lemma AppendLogs(s: State)
    requires Enabled(s, Writing(LogAppend))
    ensures s.writer.Roomed?
    ensures var t := Step(s, Writing(LogAppend));
      t.writer == Logged(s.writer.batch) && t.queue == s.queue && t.memfiles == s.memfiles && t.used == s.used
  {
  }

  lemma LongValueIsCopied(u: Update)
    ensures BatchBytes([u]) == |u.key| + |u.value| && ClonedBytes(map[], [u]) >= |u.value|
  {
  }

  /**
    A longer batch may never be: for every value over 2 MiB a run ends with its batch logged and no room for it
    in the memfile, which is empty.
   */
  lemma LongValueCannotBeAdded(u: Update) returns (s: State)
    requires |u.value| > CAPACITY
    ensures Reachable(s) && s.writer == Logged([u]) && At(s.memfiles, s.queue.active) == map[]
    ensures !Enabled(s, Writing(MemAdd))
  {
    hide Step, Enabled, Reachable, Ordered, ClonedBytes, BatchBytes;
    LongValueIsCopied(u);
    OrderedIsReached([u]);
    OrderedSwitches([u]);
    StepReaches(Ordered([u]), Writing(Switch(false)));
    var t := Step(Ordered([u]), Writing(Switch(false)));
    AppendLogs(t);
    StepReaches(t, Writing(LogAppend));
    s := Step(t, Writing(LogAppend));
    CannotAdd(s);
  }

  lemma CannotAdd(s: State)
    requires s.writer.Logged? && s.queue.active in s.memfiles && s.queue.active in s.used
    requires s.used[s.queue.active] + ClonedBytes(s.memfiles[s.queue.active], s.writer.batch) > CAPACITY
    ensures !Enabled(s, Writing(MemAdd))
  {
  }

  lemma ActiveStored(s: State)
    requires Inv(s)
    ensures s.queue.active in s.memfiles && s.queue.active in s.logs && s.queue.active in s.used
  {
    hide TablesInv, ContentInv, OverlayInv, HomesIn, MetaInv, DumpInv, IdInv;
    ActiveFacts(s);
  }
}
