/**
  The invariant of the engine holds initially and is kept by every event of
  every thread.  Each piece of the invariant speaks about a few components
  only, so each piece is kept by a small lemma about those components.
 */
module EngineInvariant {
  import opened Updates
  import opened EngineState

  // --------------------------------------------------------------- sequences

  lemma {:induction false} IncreasingAt(ids: seq<nat>, i: nat, j: nat)
    requires Increasing(ids) && i < j < |ids|
    ensures ids[i] < ids[j]
  {
    if j < |ids| - 1 {
      IncreasingAt(ids[..|ids| - 1], i, j);
    } else if i < j - 1 {
      IncreasingAt(ids[..|ids| - 1], i, j - 1);
    }
  }

  lemma IncreasingSnoc(ids: seq<nat>, id: nat)
    requires Increasing(ids) && (ids != [] ==> ids[|ids| - 1] < id)
    ensures Increasing(ids + [id])
  {
    assert (ids + [id])[..|ids|] == ids;
  }

  lemma LastIsLargest(ids: seq<nat>)
    requires Increasing(ids) && ids != []
    ensures forall i :: 0 <= i < |ids| - 1 ==> ids[i] < ids[|ids| - 1]
    ensures forall id :: id in ids ==> id <= ids[|ids| - 1]
  {
    forall i | 0 <= i < |ids| - 1 ensures ids[i] < ids[|ids| - 1] {
      IncreasingAt(ids, i, |ids| - 1);
    }
  }

  // ------------------------------------------------------------------ pieces

  lemma QueueAfterSwitch(q: Queue, past: Past, id: nat)
    requires QueueInv(q, past) && |q.immutable| < MAX_IMMUTABLE && q.active < id
    ensures QueueInv(Queue(id, q.immutable + [q.active]), past.(chain := past.chain + [id]))
  {
    IncreasingSnoc(past.chain, id);
  }

  lemma IdsAfterSwitch(q: Queue, past: Past, nextRedo: nat, future: Future, resubmitted: bool)
    requires QueueInv(q, past) && IdInv(past.chain, q.active, nextRedo, future) && future.Ready?
    ensures q.active < future.id && future.id !in past.chain
    ensures IdInv(past.chain + [future.id], future.id, nextRedo, AfterTake(resubmitted))
  {
    LastIsLargest(past.chain);
  }

  lemma KnownAfterSwitch(chain: seq<nat>, active: nat, memfiles: map<nat, KvMap>, used: map<nat, nat>, id: nat)
    requires KnownInv(chain, active, memfiles, used)
    ensures AllIn(chain, memfiles)
    ensures KnownInv(chain + [id], id, memfiles[id := map[]], used[id := 0])
  {
  }

  lemma QueueAfterPop(q: Queue, past: Past)
    requires QueueInv(q, past) && q.immutable != []
    ensures QueueInv(q.(immutable := q.immutable[1..]), past.(popped := past.popped + 1))
  {
  }

  lemma FrontOfQueue(q: Queue, past: Past)
    requires QueueInv(q, past) && q.immutable != []
    ensures past.popped < |past.chain| - 1 && past.chain[past.popped] == q.immutable[0]
  {
  }

  lemma QueueIsInChain(q: Queue, past: Past)
    requires QueueInv(q, past)
    ensures q.active in past.chain
    ensures forall id :: id in q.immutable ==> id in past.chain && id < q.active
  {
    LastIsLargest(past.chain);
    forall i | 0 <= i < |q.immutable| ensures q.immutable[i] in past.chain && q.immutable[i] < q.active {
      assert q.immutable[i] == past.chain[past.popped + i];
    }
  }

  /** schedule_dump_ on a non-empty queue takes a file id above every listed table. */
  lemma AfterSchedule(q: Queue, meta: Meta, past: Past, tables: seq<nat>, dump: Dump)
    requires MetaInv(meta, past, tables, dump) && Unpopped(dump) == 0 && q.immutable != []
    ensures var m := meta.(nextFile := meta.nextFile + 1);
            var d := Dumping(q.immutable[0], meta.nextFile);
            MetaInv(m, past, tables, d) && DumpInv(q, m, tables, d)
  {
  }

  lemma DumpAfterEnqueue(q: Queue, meta: Meta, tables: seq<nat>, dump: Dump, id: nat)
    requires DumpInv(q, meta, tables, dump)
    ensures q.immutable == [] ==> dump.NoDump?
    ensures q.immutable != [] ==> DumpInv(Queue(id, q.immutable + [q.active]), meta, tables, dump)
  {
  }

  lemma MetaAfterSwitch(meta: Meta, past: Past, tables: seq<nat>, dump: Dump, id: nat)
    requires MetaInv(meta, past, tables, dump)
    ensures MetaInv(meta, past.(chain := past.chain + [id]), tables, dump)
  {
  }

  lemma MetaAfterSave(q: Queue, meta: Meta, past: Past, tables: seq<nat>, dump: Dump)
    requires QueueInv(q, past) && MetaInv(meta, past, tables, dump) && DumpInv(q, meta, tables, dump) && dump.Built?
    ensures MetaInv(meta.(redoId := dump.redo, sorted := meta.sorted + [dump.file]),
                    past.(checkpoints := past.checkpoints + [dump.redo]), tables,
                    Saved(dump.redo, dump.file, dump.files))
  {
    IncreasingSnoc(meta.sorted, dump.file);
    FrontOfQueue(q, past);
  }

  lemma {:induction false} BatchesOfNone(hist: seq<Commit>, home: nat)
    requires forall i :: 0 <= i < |hist| ==> hist[i].home != home
    ensures BatchesOf(hist, home) == []
  {
    if hist != [] {
      BatchesOfNone(hist[..|hist| - 1], home);
    }
  }

  lemma BatchesOfSnoc(hist: seq<Commit>, c: Commit, home: nat)
    ensures BatchesOf(hist + [c], home) == BatchesOf(hist, home) + (if c.home == home then [c.batch] else [])
  {
    assert (hist + [c])[..|hist|] == hist;
  }

  lemma BatchesSnoc(hist: seq<Commit>, c: Commit)
    ensures Batches(hist + [c]) == Batches(hist) + [c.batch]
  {
    assert (hist + [c])[..|hist|] == hist;
  }

  lemma CompleteSnoc(log: seq<Chunk>, c: Chunk)
    ensures CompleteBatches(log + [c]) == CompleteBatches(log) + (if c.complete then [c.records] else [])
  {
    assert (log + [c])[..|log|] == log;
  }

  lemma ContentAfterSwitch(chain: seq<nat>, memfiles: map<nat, KvMap>, hist: seq<Commit>, id: nat)
    requires AllIn(chain, memfiles) && ContentInv(chain, memfiles, hist) && HomesIn(hist, chain) && id !in chain
    ensures AllIn(chain + [id], memfiles[id := map[]]) && ContentInv(chain + [id], memfiles[id := map[]], hist)
    ensures HomesIn(hist, chain + [id])
  {
    BatchesOfNone(hist, id);
  }

  lemma ContentAfterAdd(chain: seq<nat>, memfiles: map<nat, KvMap>, hist: seq<Commit>, id: nat, batch: Batch)
    requires AllIn(chain, memfiles) && ContentInv(chain, memfiles, hist) && id in chain
    ensures var after := memfiles[id := ApplyBatch(memfiles[id], batch)];
            AllIn(chain, after) && ContentInv(chain, after, hist + [Commit(id, batch)])
  {
    var after := memfiles[id := ApplyBatch(memfiles[id], batch)];
    ReplaySnoc(BatchesOf(hist, id), batch);
    forall x | x in chain ensures after[x] == Replay(BatchesOf(hist + [Commit(id, batch)], x)) {
      BatchesOfSnoc(hist, Commit(id, batch), x);
      if x != id {
        assert BatchesOf(hist, x) + [] == BatchesOf(hist, x);
      }
    }
  }

  lemma {:induction false} OverlayFrame(m: map<nat, KvMap>, n: map<nat, KvMap>, ids: seq<nat>)
    requires forall id :: id in ids ==> At(m, id) == At(n, id)
    ensures Overlay(m, ids) == Overlay(n, ids)
  {
    if ids != [] {
      OverlayFrame(m, n, ids[..|ids| - 1]);
    }
  }

  lemma OverlaySnoc(m: map<nat, KvMap>, ids: seq<nat>, id: nat)
    ensures Overlay(m, ids + [id]) == Overlay(m, ids) + At(m, id)
  {
    assert (ids + [id])[..|ids|] == ids;
  }

  lemma OverlayAfterSwitch(chain: seq<nat>, memfiles: map<nat, KvMap>, hist: seq<Commit>, id: nat)
    requires OverlayInv(chain, memfiles, hist) && id !in chain
    ensures OverlayInv(chain + [id], memfiles[id := map[]], hist)
  {
    OverlaySnoc(memfiles[id := map[]], chain, id);
    OverlayFrame(memfiles, memfiles[id := map[]], chain);
  }

  lemma OverlayAfterAdd(chain: seq<nat>, memfiles: map<nat, KvMap>, hist: seq<Commit>, batch: Batch)
    requires OverlayInv(chain, memfiles, hist) && Increasing(chain) && chain != []
    requires chain[|chain| - 1] in memfiles
    ensures var id := chain[|chain| - 1];
            OverlayInv(chain, memfiles[id := ApplyBatch(memfiles[id], batch)], hist + [Commit(id, batch)])
  {
    var id := chain[|chain| - 1];
    var pre := chain[..|chain| - 1];
    var after := memfiles[id := ApplyBatch(memfiles[id], batch)];
    assert chain == pre + [id];
    LastIsLargest(chain);
    OverlaySnoc(memfiles, pre, id);
    OverlaySnoc(after, pre, id);
    OverlayFrame(memfiles, after, pre);
    ApplyOverlay(Overlay(memfiles, pre), memfiles[id], batch);
    BatchesSnoc(hist, Commit(id, batch));
    ReplaySnoc(Batches(hist), batch);
  }

  lemma TablesAfterSwitch(sorted: seq<nat>, chain: seq<nat>, memfiles: map<nat, KvMap>, dumps: map<nat, KvMap>, id: nat)
    requires TablesInv(sorted, chain, memfiles, dumps) && id !in chain
    ensures TablesInv(sorted, chain + [id], memfiles[id := map[]], dumps)
  {
  }

  lemma TablesAfterAdd(sorted: seq<nat>, chain: seq<nat>, memfiles: map<nat, KvMap>, dumps: map<nat, KvMap>, m: KvMap)
    requires TablesInv(sorted, chain, memfiles, dumps) && Increasing(chain)
    ensures TablesInv(sorted, chain, memfiles[chain[|chain| - 1] := m], dumps)
  {
    LastIsLargest(chain);
  }

  lemma TablesAfterDump(sorted: seq<nat>, chain: seq<nat>, memfiles: map<nat, KvMap>, dumps: map<nat, KvMap>, file: nat, m: KvMap)
    requires TablesInv(sorted, chain, memfiles, dumps) && Increasing(sorted)
    requires sorted != [] ==> sorted[|sorted| - 1] < file
    ensures TablesInv(sorted, chain, memfiles, dumps[file := m])
  {
    if sorted != [] {
      LastIsLargest(sorted);
    }
  }

  lemma LogAfterSwitch(chain: seq<nat>, active: nat, redoId: nat, w: Writer, logs: map<nat, seq<Chunk>>, hist: seq<Commit>, id: nat)
    requires LogInv(chain, active, redoId, w, logs, hist) && (w.Waiting? || w.Blocked?)
    requires id !in chain && id in logs && logs[id] == [] && HomesIn(hist, chain)
    ensures LogInv(chain + [id], id, redoId, Roomed(w.batch), logs, hist)
  {
    BatchesOfNone(hist, id);
  }

  lemma LogAfterAppend(chain: seq<nat>, active: nat, redoId: nat, w: Writer, logs: map<nat, seq<Chunk>>, hist: seq<Commit>)
    requires LogInv(chain, active, redoId, w, logs, hist) && w.Roomed? && active in logs
    ensures LogInv(chain, active, redoId, Logged(w.batch),
                   logs[active := logs[active] + [Chunk(w.batch, true)]], hist)
  {
    CompleteSnoc(logs[active], Chunk(w.batch, true));
  }

  lemma LogAfterFail(chain: seq<nat>, active: nat, redoId: nat, w: Writer, logs: map<nat, seq<Chunk>>, hist: seq<Commit>, records: Batch)
    requires LogInv(chain, active, redoId, w, logs, hist) && w.Roomed? && active in logs
    ensures LogInv(chain, active, redoId, Idle, logs[active := logs[active] + [Chunk(records, false)]], hist)
  {
    CompleteSnoc(logs[active], Chunk(records, false));
  }

  lemma LogAfterAdd(chain: seq<nat>, active: nat, redoId: nat, w: Writer, logs: map<nat, seq<Chunk>>, hist: seq<Commit>)
    requires LogInv(chain, active, redoId, w, logs, hist) && w.Logged?
    ensures LogInv(chain, active, redoId, Idle, logs, hist + [Commit(active, w.batch)])
  {
    forall id | id in chain
      ensures BatchesOf(hist + [Commit(active, w.batch)], id) == BatchesOf(hist, id) + InFlight(w, active, id)
    {
      BatchesOfSnoc(hist, Commit(active, w.batch), id);
    }
  }

  lemma LogAfterAlloc(chain: seq<nat>, active: nat, redoId: nat, w: Writer, logs: map<nat, seq<Chunk>>, hist: seq<Commit>, id: nat)
    requires LogInv(chain, active, redoId, w, logs, hist) && id !in chain
    ensures LogInv(chain, active, redoId, w, logs[id := []], hist)
  {
  }

  lemma LogAfterSave(chain: seq<nat>, active: nat, redoId: nat, w: Writer, logs: map<nat, seq<Chunk>>, hist: seq<Commit>, redo: nat)
    requires LogInv(chain, active, redoId, w, logs, hist) && redoId <= redo
    ensures LogInv(chain, active, redo, w, logs, hist)
  {
  }

  lemma LogAfterGc(chain: seq<nat>, active: nat, redoId: nat, w: Writer, logs: map<nat, seq<Chunk>>, hist: seq<Commit>, victims: set<nat>)
    requires LogInv(chain, active, redoId, w, logs, hist) && forall id :: id in victims ==> id < redoId
    ensures LogInv(chain, active, redoId, w, logs - victims, hist)
  {
  }

  // ----------------------------------------------------------------- threads

  lemma InitEstablishesInv(s: State)
    requires Init(s)
    ensures Inv(s)
  {
    assert s.past.chain == [] + [s.queue.active];
    OverlaySnoc(s.memfiles, [], s.queue.active);
  }

  lemma ActiveFacts(s: State)
    requires Inv(s)
    ensures s.queue.active in s.past.chain
    ensures forall id :: id in s.past.chain ==> id <= s.queue.active
    ensures s.past.checkpoints != [] ==> s.meta.redoId in s.past.chain
    ensures s.meta.redoId < s.queue.active
  {
    hide TablesInv, ContentInv, LogInv, OverlayInv, HomesIn, DumpInv, KnownInv, RoomInv, FutureInv, GcInv;
    LastIsLargest(s.past.chain);
  }

  /** What a dump in flight reads is never the memfile that grows. */
  lemma DumpedIsNotActive(s: State, k: nat)
    requires Inv(s) && k < |s.flights|
    ensures !s.flights[k].NoDump? && s.flights[k].redo in s.past.chain && s.flights[k].redo < s.queue.active
  {
    hide TablesInv, ContentInv, LogInv, OverlayInv, HomesIn;
    FrontOfQueue(s.queue, s.past);
    LastIsLargest(s.past.chain);
  }

  /** Inv without the pieces that schedule_dump_ changes. */
  predicate UnscheduledInv(s: State) {
    && QueueInv(s.queue, s.past)
    && IdInv(s.past.chain, s.queue.active, s.meta.nextRedo, s.future)
    && KnownInv(s.past.chain, s.queue.active, s.memfiles, s.used)
    && TablesInv(s.meta.sorted, s.past.chain, s.memfiles, s.dumps)
    && FlightsInv(s.flights)
    && FreshDumpInv(Front(s.flights), s.memfiles, s.dumps)
    && HomesIn(s.hist, s.past.chain)
    && ContentInv(s.past.chain, s.memfiles, s.hist)
    && RoomInv(s.used, s.queue.active, s.writer)
    && LogInv(s.past.chain, s.queue.active, s.meta.redoId, s.writer, s.logs, s.hist)
    && FutureInv(s.future, s.logs)
    && GcInv(s.gcs, s.meta.redoId)
    && OverlayInv(s.past.chain, s.memfiles, s.hist)
  }

  lemma InstallKeepsPieces(s: State, resubmitted: bool)
    requires Inv(s) && Switching(s) && s.future.Ready?
    ensures UnscheduledInv(Install(s, resubmitted))
  {
    hide QueueInv, IdInv, KnownInv, MetaInv, DumpInv, TablesInv, ContentInv, LogInv, OverlayInv, HomesIn;
    var id := s.future.id;
    IdsAfterSwitch(s.queue, s.past, s.meta.nextRedo, s.future, resubmitted);
    KnownAfterSwitch(s.past.chain, s.queue.active, s.memfiles, s.used, id);
    if s.flights != [] {
      DumpedIsNotActive(s, 0);
    }
    QueueAfterSwitch(s.queue, s.past, id);
    TablesAfterSwitch(s.meta.sorted, s.past.chain, s.memfiles, s.dumps, id);
    ContentAfterSwitch(s.past.chain, s.memfiles, s.hist, id);
    OverlayAfterSwitch(s.past.chain, s.memfiles, s.hist, id);
    LogAfterSwitch(s.past.chain, s.queue.active, s.meta.redoId, s.writer, s.logs, s.hist, id);
  }

  /** schedule_dump_ while nothing is in flight. */
  lemma ScheduleKeepsInv(t: State)
    requires UnscheduledInv(t) && t.flights == [] && MetaInv(t.meta, t.past, t.tables, NoDump)
    ensures Inv(Schedule(t))
  {
    hide QueueInv, IdInv, KnownInv, TablesInv, ContentInv, LogInv, OverlayInv, HomesIn, RoomInv, GcInv, FutureInv;
    if t.queue.immutable != [] {
      var d := Dumping(t.queue.immutable[0], t.meta.nextFile);
      assert [] + [d] == [d];
      AfterSchedule(t.queue, t.meta, t.past, t.tables, NoDump);
      hide MetaInv, DumpInv;
    }
  }

  /** The new memfile behind the queue leaves metadata and dumps as they should be, but for the first dump. */
  lemma InstallKeepsDumps(s: State, resubmitted: bool)
    requires Inv(s) && Switching(s) && s.future.Ready?
    ensures var t := Install(s, resubmitted);
      && FlightsInv(t.flights) && MetaInv(t.meta, t.past, t.tables, Front(t.flights))
      && (|t.queue.immutable| == 1 ==> t.flights == [])
      && (|t.queue.immutable| != 1 ==> DumpInv(t.queue, t.meta, t.tables, Front(t.flights)))
  {
    NothingInFlight(s);
    hide QueueInv, IdInv, KnownInv, MetaInv, DumpInv, TablesInv, ContentInv, LogInv, OverlayInv, HomesIn, RoomInv, GcInv,
         FutureInv, FlightsInv, FreshDumpInv;
    MetaAfterSwitch(s.meta, s.past, s.tables, Front(s.flights), s.future.id);
    DumpAfterEnqueue(s.queue, s.meta, s.tables, Front(s.flights), s.future.id);
  }

  lemma Assemble(t: State)
    requires UnscheduledInv(t)
    requires MetaInv(t.meta, t.past, t.tables, Front(t.flights)) && DumpInv(t.queue, t.meta, t.tables, Front(t.flights))
    ensures Inv(t)
  {
    hide QueueInv, IdInv, KnownInv, MetaInv, DumpInv, TablesInv, ContentInv, LogInv, OverlayInv, HomesIn, RoomInv, GcInv,
         FutureInv, FlightsInv, FreshDumpInv;
  }

  lemma SwitchIs(s: State, resubmitted: bool)
    requires WriterEnabled(s, Switch(resubmitted))
    ensures Switching(s) && s.future.Ready? && !s.writer.Idle?
    ensures var t := Install(s, resubmitted);
      WriterStep(s, Switch(resubmitted)) == if |t.queue.immutable| == 1 then Schedule(t) else t
  {
    hide Schedule, Install;
  }

  lemma SwitchKeepsInv(s: State, resubmitted: bool)
    requires Inv(s) && WriterEnabled(s, Switch(resubmitted))
    ensures Inv(WriterStep(s, Switch(resubmitted)))
  {
    hide *;
    SwitchIs(s, resubmitted);
    InstallKeepsPieces(s, resubmitted);
    InstallKeepsDumps(s, resubmitted);
    var t := Install(s, resubmitted);
    if |t.queue.immutable| == 1 {
      FirstFlight(t);
      ScheduleKeepsInv(t);
    } else {
      Assemble(t);
    }
  }

  lemma FirstFlight(t: State)
    requires t.flights == []
    ensures Front(t.flights) == NoDump
  {
  }

  lemma NothingInFlight(s: State)
    requires Inv(s)
    ensures s.flights == [] <==> s.queue.immutable == []
  {
    hide QueueInv, IdInv, KnownInv, MetaInv, TablesInv, ContentInv, LogInv, OverlayInv, HomesIn, RoomInv, GcInv, FutureInv;
  }

  lemma MemAddKeepsInv(s: State)
    requires Inv(s) && WriterEnabled(s, MemAdd)
    ensures Inv(WriterStep(s, MemAdd))
  {
    hide MetaInv, DumpInv, TablesInv, ContentInv, LogInv, OverlayInv;
    var id := s.queue.active;
    ActiveFacts(s);
    TablesAfterAdd(s.meta.sorted, s.past.chain, s.memfiles, s.dumps, ApplyBatch(s.memfiles[id], s.writer.batch));
    ContentAfterAdd(s.past.chain, s.memfiles, s.hist, id, s.writer.batch);
    OverlayAfterAdd(s.past.chain, s.memfiles, s.hist, s.writer.batch);
    LogAfterAdd(s.past.chain, id, s.meta.redoId, s.writer, s.logs, s.hist);
    if s.flights != [] {
      DumpedIsNotActive(s, 0);
    }
  }

  lemma AppendKeepsInv(s: State, e: WriterEvent)
    requires Inv(s) && WriterEnabled(s, e) && (e.LogAppend? || e.LogFail?)
    ensures Inv(WriterStep(s, e))
  {
    hide QueueInv, KnownInv, TablesInv, ContentInv, LogInv, OverlayInv, HomesIn, MetaInv, DumpInv;
    ActiveFacts(s);
    match e
    case LogAppend => LogAfterAppend(s.past.chain, s.queue.active, s.meta.redoId, s.writer, s.logs, s.hist);
    case LogFail(written) =>
      LogAfterFail(s.past.chain, s.queue.active, s.meta.redoId, s.writer, s.logs, s.hist, s.writer.batch[..written]);
  }

  lemma WriterKeepsInv(s: State, e: WriterEvent)
    requires Inv(s) && WriterEnabled(s, e)
    ensures Inv(WriterStep(s, e))
  {
    hide QueueInv, KnownInv, TablesInv, ContentInv, OverlayInv, HomesIn, MetaInv, DumpInv, GcInv;
    match e
    case Switch(resubmitted) => SwitchKeepsInv(s, resubmitted);
    case MemAdd => MemAddKeepsInv(s);
    case LogAppend => AppendKeepsInv(s, e);
    case LogFail(_) => AppendKeepsInv(s, e);
    case _ =>
  }

  lemma IdsAfterAlloc(chain: seq<nat>, active: nat, nextRedo: nat, future: Future, ok: bool)
    requires IdInv(chain, active, nextRedo, future) && active in chain
    ensures nextRedo !in chain && IdInv(chain, active, nextRedo + 1, if ok then Ready(nextRedo) else Broken)
  {
  }

  lemma MetaIgnoresRedoIds(q: Queue, meta: Meta, past: Past, tables: seq<nat>, dump: Dump)
    requires MetaInv(meta, past, tables, dump) && DumpInv(q, meta, tables, dump)
    ensures var m := meta.(nextRedo := meta.nextRedo + 1); MetaInv(m, past, tables, dump) && DumpInv(q, m, tables, dump)
  {
  }

  lemma AllocKeepsInv(s: State, ok: bool, created: bool)
    requires Inv(s) && s.future.Pending?
    ensures Inv(AllocStep(s, ok, created))
  {
    hide QueueInv, IdInv, KnownInv, TablesInv, ContentInv, LogInv, OverlayInv, HomesIn, MetaInv, DumpInv, RoomInv, GcInv,
         FlightsInv;
    ActiveFacts(s);
    IdsAfterAlloc(s.past.chain, s.queue.active, s.meta.nextRedo, s.future, ok);
    MetaIgnoresRedoIds(s.queue, s.meta, s.past, s.tables, Front(s.flights));
    LogAfterAlloc(s.past.chain, s.queue.active, s.meta.redoId, s.writer, s.logs, s.hist, s.meta.nextRedo);
  }

  /** Both asserts of DBMeta::checkpoint hold for every dump whose callback reaches them. */
  lemma CheckpointMovesForward(s: State, k: nat)
    requires Inv(s) && k < |s.flights| && s.flights[k].Built?
    ensures s.meta.redoId < s.flights[k].redo < s.meta.nextRedo
  {
    hide TablesInv, ContentInv, LogInv, OverlayInv, HomesIn;
    DumpedIsNotActive(s, k);
    FrontOfQueue(s.queue, s.past);
    if s.past.checkpoints != [] {
      IncreasingAt(s.past.chain, |s.past.checkpoints| - 1, |s.past.checkpoints|);
    }
  }

  lemma OnlyFlight(s: State, k: nat)
    requires FlightsInv(s.flights) && k < |s.flights|
    ensures k == 0 && s.flights == [Front(s.flights)]
    ensures forall d: Dump :: Moved(s, k, d) == s.(flights := [d])
    ensures Ended(s, k) == s.(flights := [])
  {
  }

  lemma TablesAfterSave(q: Queue, meta: Meta, past: Past, tables: seq<nat>, dump: Dump,
                        memfiles: map<nat, KvMap>, dumps: map<nat, KvMap>)
    requires QueueInv(q, past) && MetaInv(meta, past, tables, dump) && DumpInv(q, meta, tables, dump) && dump.Built?
    requires TablesInv(meta.sorted, past.chain, memfiles, dumps) && FreshDumpInv(dump, memfiles, dumps)
    ensures TablesInv(meta.sorted + [dump.file], past.chain, memfiles, dumps)
  {
    FrontOfQueue(q, past);
  }

  lemma DumpAfterSave(q: Queue, meta: Meta, tables: seq<nat>, dump: Dump)
    requires DumpInv(q, meta, tables, dump) && dump.Built?
    ensures DumpInv(q, meta.(redoId := dump.redo, sorted := meta.sorted + [dump.file]), tables,
                    Saved(dump.redo, dump.file, dump.files))
  {
  }

  /** The state after the checkpoint of the only dump d in flight. */
  function AfterSave(s: State, d: Dump): State
    requires d.Built?
  {
    s.(flights := [Saved(d.redo, d.file, d.files)],
       meta := s.meta.(redoId := d.redo, sorted := s.meta.sorted + [d.file]),
       past := s.past.(checkpoints := s.past.checkpoints + [d.redo]))
  }

  lemma SaveIs(s: State, k: nat)
    requires Inv(s) && DumpEnabled(s, k, SaveMeta)
    ensures k == 0 && |s.flights| == 1 && s.flights[0].Built? && Front(s.flights) == s.flights[0]
    ensures DumpStep(s, k, SaveMeta) == AfterSave(s, s.flights[0])
  {
    assert FlightsInv(s.flights);
    hide Inv;
    OnlyFlight(s, k);
  }

  lemma SaveKeepsPieces(s: State)
    requires Inv(s) && |s.flights| == 1 && s.flights[0].Built? && s.meta.redoId < s.flights[0].redo
    requires Front(s.flights) == s.flights[0]
    ensures UnscheduledInv(AfterSave(s, s.flights[0]))
  {
    hide QueueInv, IdInv, KnownInv, MetaInv, DumpInv, TablesInv, ContentInv, LogInv, OverlayInv, HomesIn, RoomInv, GcInv,
         FutureInv;
    var d := s.flights[0];
    TablesAfterSave(s.queue, s.meta, s.past, s.tables, d, s.memfiles, s.dumps);
    LogAfterSave(s.past.chain, s.queue.active, s.meta.redoId, s.writer, s.logs, s.hist, d.redo);
    GcAfterSave(s.gcs, s.meta.redoId, d.redo);
    QueueIgnoresCheckpoints(s.queue, s.past, s.past.checkpoints + [d.redo]);
  }

  lemma QueueIgnoresCheckpoints(q: Queue, past: Past, checkpoints: seq<nat>)
    requires QueueInv(q, past)
    ensures QueueInv(q, past.(checkpoints := checkpoints))
  {
  }

  lemma SaveKeepsInv(s: State, k: nat)
    requires Inv(s) && DumpEnabled(s, k, SaveMeta)
    ensures Inv(DumpStep(s, k, SaveMeta))
  {
    SaveIs(s, k);
    var d := s.flights[0];
    MetaAfterSave(s.queue, s.meta, s.past, s.tables, d);
    DumpAfterSave(s.queue, s.meta, s.tables, d);
    hide Inv, UnscheduledInv, MetaInv, DumpInv, QueueInv, DumpStep, DumpEnabled;
    CheckpointMovesForward(s, k);
    SaveKeepsPieces(s);
    Assemble(AfterSave(s, d));
  }

  lemma GcAfterSave(gcs: seq<Gc>, redoId: nat, redo: nat)
    requires GcInv(gcs, redoId) && redoId <= redo
    ensures GcInv(gcs, redo)
  {
  }

  lemma MetaAfterPop(meta: Meta, past: Past, tables: seq<nat>, dump: Dump)
    requires MetaInv(meta, past, tables, dump) && dump.Published?
    ensures MetaInv(meta, past.(popped := past.popped + 1), tables, NoDump)
  {
  }

  /** The state after the pop, before the next dump is scheduled. */
  function AfterPop(s: State): State
    requires s.queue.immutable != []
  {
    s.(flights := [],
       queue := s.queue.(immutable := s.queue.immutable[1..]),
       past := s.past.(popped := s.past.popped + 1),
       gcs := s.gcs + [Owed])
  }

  lemma PopIs(s: State, k: nat)
    requires FlightsInv(s.flights) && DumpEnabled(s, k, Pop)
    ensures s.queue.immutable != [] && Front(s.flights).Published? && DumpStep(s, k, Pop) == Schedule(AfterPop(s))
  {
    OnlyFlight(s, k);
    hide Schedule;
  }

  lemma PopKeepsPieces(s: State)
    requires Inv(s) && s.queue.immutable != [] && Front(s.flights).Published?
    ensures UnscheduledInv(AfterPop(s)) && MetaInv(AfterPop(s).meta, AfterPop(s).past, AfterPop(s).tables, NoDump)
  {
    hide TablesInv, ContentInv, LogInv, OverlayInv, HomesIn, QueueInv, MetaInv, DumpInv, KnownInv, IdInv, RoomInv, FutureInv,
         GcInv, FlightsInv, FreshDumpInv;
    QueueAfterPop(s.queue, s.past);
    MetaAfterPop(s.meta, s.past, s.tables, Front(s.flights));
    GcAfterPop(s.gcs, s.meta.redoId);
    AfterLastFlight(s.memfiles, s.dumps);
  }

  lemma GcAfterPop(gcs: seq<Gc>, redoId: nat)
    requires GcInv(gcs, redoId)
    ensures GcInv(gcs + [Owed], redoId)
  {
  }

  lemma AfterLastFlight(memfiles: map<nat, KvMap>, dumps: map<nat, KvMap>)
    ensures FlightsInv([]) && FreshDumpInv(Front([]), memfiles, dumps)
  {
  }

  lemma PopKeepsInv(s: State, k: nat)
    requires Inv(s) && DumpEnabled(s, k, Pop)
    ensures Inv(DumpStep(s, k, Pop))
  {
    assert FlightsInv(s.flights);
    hide *;
    PopIs(s, k);
    PopKeepsPieces(s);
    NoFlights(s);
    ScheduleKeepsInv(AfterPop(s));
  }

  lemma NoFlights(s: State)
    requires s.queue.immutable != []
    ensures AfterPop(s).flights == []
  {
  }

  /** The dump d has ended, one way or the other, leaving the map m in its file. */
  function AfterDump(s: State, d: Dump, m: KvMap, flights: seq<Dump>): State
    requires d.Dumping?
  {
    s.(flights := flights, dumps := s.dumps[d.file := m])
  }

  lemma DumpIs(s: State, k: nat, e: DumpEvent)
    requires FlightsInv(s.flights) && DumpEnabled(s, k, e) && (e.DumpOk? || e.DumpFail?)
    ensures Front(s.flights).Dumping?
    ensures var d := Front(s.flights);
      if e.DumpOk? then d.redo in s.memfiles && DumpStep(s, k, e) == AfterDump(s, d, s.memfiles[d.redo], [Dumped(d.redo, d.file)])
      else DumpStep(s, k, e) == Schedule(AfterDump(s, d, e.partial, []))
  {
    OnlyFlight(s, k);
    hide Schedule;
  }

  lemma AfterDumpPieces(q: Queue, meta: Meta, past: Past, tables: seq<nat>, d: Dump)
    requires MetaInv(meta, past, tables, d) && DumpInv(q, meta, tables, d) && d.Dumping?
    ensures MetaInv(meta, past, tables, Dumped(d.redo, d.file)) && DumpInv(q, meta, tables, Dumped(d.redo, d.file))
    ensures MetaInv(meta, past, tables, NoDump) && FlightsInv([Dumped(d.redo, d.file)])
    ensures Increasing(meta.sorted) && (meta.sorted != [] ==> meta.sorted[|meta.sorted| - 1] < d.file)
  {
  }

  lemma DumpedIsFresh(d: Dump, memfiles: map<nat, KvMap>, dumps: map<nat, KvMap>)
    requires d.Dumping? && d.redo in memfiles
    ensures FreshDumpInv(Dumped(d.redo, d.file), memfiles, dumps[d.file := memfiles[d.redo]])
  {
  }

  lemma DumpedKeepsPieces(s: State, d: Dump, m: KvMap, flights: seq<Dump>)
    requires Inv(s) && d.Dumping? && d == Front(s.flights)
    requires flights == [] || (flights == [Dumped(d.redo, d.file)] && d.redo in s.memfiles && m == s.memfiles[d.redo])
    ensures var t := AfterDump(s, d, m, flights);
      && UnscheduledInv(t) && MetaInv(t.meta, t.past, t.tables, Front(flights))
      && (flights != [] ==> DumpInv(t.queue, t.meta, t.tables, Front(flights)))
  {
    hide QueueInv, IdInv, KnownInv, MetaInv, DumpInv, TablesInv, ContentInv, LogInv, OverlayInv, HomesIn, RoomInv, GcInv,
         FutureInv, FlightsInv, FreshDumpInv, Increasing;
    AfterDumpPieces(s.queue, s.meta, s.past, s.tables, d);
    TablesAfterDump(s.meta.sorted, s.past.chain, s.memfiles, s.dumps, d.file, m);
    if flights == [] {
      AfterLastFlight(s.memfiles, s.dumps[d.file := m]);
    } else {
      DumpedIsFresh(d, s.memfiles, s.dumps);
    }
  }

  lemma DumpedKeepsInv(s: State, k: nat, e: DumpEvent)
    requires Inv(s) && DumpEnabled(s, k, e) && (e.DumpOk? || e.DumpFail?)
    ensures Inv(DumpStep(s, k, e))
  {
    assert FlightsInv(s.flights);
    DumpIs(s, k, e);
    hide Inv, UnscheduledInv, MetaInv, DumpInv, DumpStep, DumpEnabled, Schedule, FlightsInv;
    var d := Front(s.flights);
    if e.DumpOk? {
      DumpedKeepsPieces(s, d, s.memfiles[d.redo], [Dumped(d.redo, d.file)]);
      Assemble(AfterDump(s, d, s.memfiles[d.redo], [Dumped(d.redo, d.file)]));
    } else {
      DumpedKeepsPieces(s, d, e.partial, []);
      ScheduleKeepsInv(AfterDump(s, d, e.partial, []));
    }
  }

  /** What a step of the callback that is neither checkpoint nor pop makes of the dump, and of the table list. */
  function CallbackDump(d: Dump, e: DumpEvent, tables: seq<nat>): Dump
    requires if e.Publish? then d.Saved? else if e.SaveFail? then d.Built? else d.Dumped?
  {
    if e.Build? then Built(d.redo, d.file, tables + [d.file])
    else if e.Publish? then Published(d.redo, d.file)
    else Dumped(d.redo, d.file)
  }

  predicate IsCallback(e: DumpEvent) {
    e.Build? || e.BuildFail? || e.SaveFail? || e.Publish?
  }

  lemma CallbackIs(s: State, k: nat, e: DumpEvent)
    requires FlightsInv(s.flights) && DumpEnabled(s, k, e) && IsCallback(e)
    ensures var d := Front(s.flights);
      && (if e.Publish? then d.Saved? else if e.SaveFail? then d.Built? else d.Dumped?)
      && DumpStep(s, k, e) == s.(flights := [CallbackDump(d, e, s.tables)], tables := if e.Publish? then d.files else s.tables)
  {
    OnlyFlight(s, k);
  }

  lemma CallbackPieces(q: Queue, meta: Meta, past: Past, tables: seq<nat>, d: Dump, e: DumpEvent)
    requires MetaInv(meta, past, tables, d) && DumpInv(q, meta, tables, d) && IsCallback(e)
    requires if e.Publish? then d.Saved? else if e.SaveFail? then d.Built? else d.Dumped?
    ensures var after, list := CallbackDump(d, e, tables), if e.Publish? then d.files else tables;
      MetaInv(meta, past, list, after) && DumpInv(q, meta, list, after) && FlightsInv([after])
  {
    hide Increasing;
  }

  lemma CallbackFresh(d: Dump, e: DumpEvent, tables: seq<nat>, memfiles: map<nat, KvMap>, dumps: map<nat, KvMap>)
    requires if e.Publish? then d.Saved? else if e.SaveFail? then d.Built? else d.Dumped?
    requires FreshDumpInv(d, memfiles, dumps)
    ensures FreshDumpInv(CallbackDump(d, e, tables), memfiles, dumps)
  {
  }

  lemma CallbackKeepsInv(s: State, k: nat, e: DumpEvent)
    requires Inv(s) && DumpEnabled(s, k, e) && IsCallback(e)
    ensures Inv(DumpStep(s, k, e))
  {
    hide QueueInv, IdInv, KnownInv, MetaInv, DumpInv, TablesInv, ContentInv, LogInv, OverlayInv, HomesIn, RoomInv, GcInv,
         FutureInv, FreshDumpInv, FlightsInv, DumpStep, DumpEnabled, CallbackDump;
    CallbackIs(s, k, e);
    var d := Front(s.flights);
    CallbackPieces(s.queue, s.meta, s.past, s.tables, d, e);
    CallbackFresh(d, e, s.tables, s.memfiles, s.dumps);
    Assemble(s.(flights := [CallbackDump(d, e, s.tables)], tables := if e.Publish? then d.files else s.tables));
  }

  lemma DumpKeepsInv(s: State, k: nat, e: DumpEvent)
    requires Inv(s) && DumpEnabled(s, k, e)
    ensures Inv(DumpStep(s, k, e))
  {
    hide Inv, DumpStep;
    match e
    case SaveMeta => SaveKeepsInv(s, k);
    case Pop => PopKeepsInv(s, k);
    case DumpOk => DumpedKeepsInv(s, k, e);
    case DumpFail(_) => DumpedKeepsInv(s, k, e);
    case _ => CallbackKeepsInv(s, k, e);
  }

  lemma GcKeepsInv(s: State, e: GcEvent)
    requires Inv(s) && GcEnabled(s, e)
    ensures Inv(GcStep(s, e))
  {
    hide QueueInv, KnownInv, TablesInv, ContentInv, LogInv, OverlayInv, HomesIn, MetaInv, DumpInv, RoomInv;
    ActiveFacts(s);
    if e.GcDelete? {
      LogAfterGc(s.past.chain, s.queue.active, s.meta.redoId, s.writer, s.logs, s.hist, {e.id});
    }
  }

  /** Every event of every thread keeps the invariant. */
  lemma StepKeepsInv(s: State, e: Event)
    requires Inv(s) && Enabled(s, e)
    ensures Inv(Step(s, e))
  {
    match e
    case Writing(w) => WriterKeepsInv(s, w);
    case Alloc(ok, created) => AllocKeepsInv(s, ok, created);
    case Dumper(k, d) => DumpKeepsInv(s, k, d);
    case Collect(g) => GcKeepsInv(s, g);
  }
}
