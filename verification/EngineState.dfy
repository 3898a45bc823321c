/**
  The storage engine as a transition system.  Each event is one critical
  section, one disk operation or one atomic swap of the C++ code; the commit
  thread, the redo preallocation task, the dump callback, the retries of the
  executor and any number of running gc calls interleave freely.

  Memfiles are shared objects in the program, so here they live in a map keyed
  by the redo id they were created with; the queue and a reader's capture hold
  ids, never copies.
 */
module EngineState {
  import opened Updates

  const CAPACITY: nat := 2 * 1024 * 1024
  const MAX_IMMUTABLE: nat := 32
  const MAX_GC: nat := 8

  /** One append call on a redo log; an append that failed may have left some records behind. */
  datatype Chunk = Chunk(records: Batch, complete: bool)

  /** The one-ahead preallocated redo log. */
  datatype Future = Absent | Pending | Ready(id: nat) | Broken

  /** Where the commit thread stands inside EngineRace::write. */
  datatype Writer =
    | Idle
    | Waiting(batch: Batch)
    | Blocked(batch: Batch)
    | Roomed(batch: Batch)
    | Logged(batch: Batch)

  /** Where a dump that was submitted stands, from the submission to the end of its callback. */
  datatype Dump =
    | NoDump
    | Dumping(redo: nat, file: nat)
    | Dumped(redo: nat, file: nat)
    | Built(redo: nat, file: nat, files: seq<nat>)
    | Saved(redo: nat, file: nat, files: seq<nat>)
    | Published(redo: nat, file: nat)

  /** A gc call that has not read its bound yet, or has, or deletes one after the other the files it chose. */
  datatype Gc = Owed | Bounded(bound: nat) | Deleting(victims: set<nat>)

  /** memfile_ and immutable_memfiles_, by redo id. */
  datatype Queue = Queue(active: nat, immutable: seq<nat>)

  /** DBMeta. */
  datatype Meta = Meta(redoId: nat, nextRedo: nat, nextFile: nat, sorted: seq<nat>)

  /** History: every memfile ever installed, how many were popped, the redo ids checkpointed so far. */
  datatype Past = Past(chain: seq<nat>, popped: nat, checkpoints: seq<nat>)

  /** An acknowledged batch and the memfile (and log) it went to. */
  datatype Commit = Commit(home: nat, batch: Batch)

  datatype State = State(
    memfiles: map<nat, KvMap>,
    used: map<nat, nat>,
    queue: Queue,
    meta: Meta,
    logs: map<nat, seq<Chunk>>,
    dumps: map<nat, KvMap>,
    tables: seq<nat>,
    future: Future,
    writer: Writer,
    flights: seq<Dump>,
    gcs: seq<Gc>,
    past: Past,
    hist: seq<Commit>)

  // ---------------------------------------------------------- commit thread

  datatype WriterEvent =
    | Begin(batch: Batch)
    | RoomFound
    | QueueFull
    | RoomTimeout
    | AllocSubmit
    | AllocSubmitFail
    | Switch(resubmitted: bool)
    | SwitchFail
    | SwitchLost(resubmitted: bool)
    | LogAppend
    | LogFail(written: nat)
    | MemAdd

  predicate HasRoom(s: State)
    requires !s.writer.Idle? && s.queue.active in s.used
  {
    s.used[s.queue.active] + BatchBytes(s.writer.batch) <= CAPACITY
  }

  /** The commit thread found no room, and the queue is short enough to switch. */
  predicate Switching(s: State) {
    && |s.queue.immutable| < MAX_IMMUTABLE
    && s.queue.active in s.used
    && (s.writer.Blocked? || (s.writer.Waiting? && !HasRoom(s)))
  }

  predicate WriterEnabled(s: State, e: WriterEvent) {
    && s.queue.active in s.used && s.queue.active in s.memfiles && s.queue.active in s.logs
    && match e
       case Begin(_) => s.writer.Idle?
       case RoomFound => s.writer.Waiting? && HasRoom(s)
       case QueueFull => s.writer.Waiting? && !HasRoom(s) && |s.queue.immutable| >= MAX_IMMUTABLE
       case RoomTimeout => s.writer.Blocked?
       case AllocSubmit => Switching(s) && s.future.Absent?
       case AllocSubmitFail => Switching(s) && s.future.Absent?
       case Switch(_) => Switching(s) && s.future.Ready?
       case SwitchFail => Switching(s) && s.future.Broken?
       case SwitchLost(_) => Switching(s) && s.future.Ready?
       case LogAppend => s.writer.Roomed?
       case LogFail(written) => s.writer.Roomed? && written <= |s.writer.batch|
       case MemAdd =>
         && s.writer.Logged?
         && s.used[s.queue.active] + ClonedBytes(s.memfiles[s.queue.active], s.writer.batch) <= CAPACITY
  }

  function AfterTake(resubmitted: bool): Future {
    if resubmitted then Pending else Absent
  }

  /** schedule_dump_ submits a dump of the front of the queue, if any, under a fresh file id, whatever is in flight. */
  function Schedule(s: State): State {
    if s.queue.immutable == [] then s
    else s.(flights := s.flights + [Dumping(s.queue.immutable[0], s.meta.nextFile)],
            meta := s.meta.(nextFile := s.meta.nextFile + 1))
  }

  /** switch_memfile_: the redo log taken from the future becomes the active one. */
  function Install(s: State, resubmitted: bool): State
    requires s.future.Ready? && !s.writer.Idle?
  {
    var id := s.future.id;
    s.(future := AfterTake(resubmitted),
       memfiles := s.memfiles[id := map[]],
       used := s.used[id := 0],
       queue := Queue(id, s.queue.immutable + [s.queue.active]),
       past := s.past.(chain := s.past.chain + [id]),
       writer := Roomed(s.writer.batch))
  }

  function Append(s: State, c: Chunk): State
    requires s.queue.active in s.logs
  {
    s.(logs := s.logs[s.queue.active := s.logs[s.queue.active] + [c]])
  }

  function AddToMemfile(s: State): State
    requires s.writer.Logged? && s.queue.active in s.memfiles && s.queue.active in s.used
  {
    var id := s.queue.active;
    s.(memfiles := s.memfiles[id := ApplyBatch(s.memfiles[id], s.writer.batch)],
       used := s.used[id := s.used[id] + ClonedBytes(s.memfiles[id], s.writer.batch)],
       hist := s.hist + [Commit(id, s.writer.batch)],
       writer := Idle)
  }

  function WriterStep(s: State, e: WriterEvent): State
    requires WriterEnabled(s, e)
  {
    match e
    case Begin(batch) => s.(writer := Waiting(batch))
    case RoomFound => s.(writer := Roomed(s.writer.batch))
    case QueueFull => s.(writer := Blocked(s.writer.batch))
    case RoomTimeout => s.(writer := Idle)
    case AllocSubmit => s.(future := Pending)
    case AllocSubmitFail => s.(writer := Idle)
    case Switch(resubmitted) =>
      var t := Install(s, resubmitted);
      if |t.queue.immutable| == 1 then Schedule(t) else t
    case SwitchFail => s.(future := Absent, writer := Idle)
    case SwitchLost(resubmitted) => s.(future := AfterTake(resubmitted), writer := Idle)
    case LogAppend => Append(s, Chunk(s.writer.batch, true)).(writer := Logged(s.writer.batch))
    case LogFail(written) => Append(s, Chunk(s.writer.batch[..written], false)).(writer := Idle)
    case MemAdd => AddToMemfile(s)
  }

  // ------------------------------------------------------ preallocation task

  /** A log that could not be opened may have been created or truncated all the same. */
  function AllocStep(s: State, ok: bool, created: bool): State
    requires s.future.Pending?
  {
    var id := s.meta.nextRedo;
    s.(meta := s.meta.(nextRedo := id + 1),
       future := if ok then Ready(id) else Broken,
       logs := if ok || created then s.logs[id := []] else s.logs)
  }

  // ----------------------------------------------------- dump and its callback

  datatype DumpEvent =
    | DumpOk
    | DumpFail(partial: KvMap)
    | Build
    | BuildFail
    | SaveMeta
    | SaveFail
    | Publish
    | Pop

  /** The event can happen to the k-th dump in flight. */
  predicate DumpEnabled(s: State, k: nat, e: DumpEvent) {
    && k < |s.flights|
    && match e
       case DumpOk => s.flights[k].Dumping? && s.flights[k].redo in s.memfiles
       case DumpFail(_) => s.flights[k].Dumping?
       case Build => s.flights[k].Dumped?
       case BuildFail => s.flights[k].Dumped?
       case SaveMeta => s.flights[k].Built?
       case SaveFail => s.flights[k].Built?
       case Publish => s.flights[k].Saved?
       case Pop => s.flights[k].Published? && s.queue.immutable != []
  }

  function Moved(s: State, k: nat, d: Dump): State
    requires k < |s.flights|
  {
    s.(flights := s.flights[k := d])
  }

  function Ended(s: State, k: nat): State
    requires k < |s.flights|
  {
    s.(flights := s.flights[..k] + s.flights[k + 1..])
  }

  function DumpStep(s: State, k: nat, e: DumpEvent): State
    requires DumpEnabled(s, k, e)
  {
    var d := s.flights[k];
    match e
    case DumpOk => Moved(s, k, Dumped(d.redo, d.file)).(dumps := s.dumps[d.file := s.memfiles[d.redo]])
    case DumpFail(partial) => Schedule(Ended(s, k).(dumps := s.dumps[d.file := partial]))
    case Build => Moved(s, k, Built(d.redo, d.file, s.tables + [d.file]))
    case BuildFail => s
    case SaveMeta =>
      Moved(s, k, Saved(d.redo, d.file, d.files)).(
        meta := s.meta.(redoId := d.redo, sorted := s.meta.sorted + [d.file]),
        past := s.past.(checkpoints := s.past.checkpoints + [d.redo]))
    case SaveFail => Moved(s, k, Dumped(d.redo, d.file))
    case Publish => Moved(s, k, Published(d.redo, d.file)).(tables := d.files)
    case Pop =>
      Schedule(Ended(s, k).(queue := s.queue.(immutable := s.queue.immutable[1..]),
                            past := s.past.(popped := s.past.popped + 1),
                            gcs := s.gcs + [Owed]))
  }

  // --------------------------------------------------------------------- gc

  datatype GcEvent =
    | GcRead(gc: nat)
    | GcList(gc: nat, victims: set<nat>)
    | GcDelete(gc: nat, id: nat)
    | GcEnd(gc: nat)

  predicate GcEnabled(s: State, e: GcEvent) {
    && e.gc < |s.gcs|
    && match e
       case GcRead(gc) => s.gcs[gc].Owed?
       case GcList(gc, victims) =>
         && s.gcs[gc].Bounded? && |victims| <= MAX_GC
         && (forall id :: id in victims ==> id in s.logs && id < s.gcs[gc].bound)
       case GcDelete(gc, id) => s.gcs[gc].Deleting? && id in s.gcs[gc].victims
       case GcEnd(_) => true
  }

  /** A call ends when it is done or when anything in it threw. */
  function GcStep(s: State, e: GcEvent): State
    requires GcEnabled(s, e)
  {
    match e
    case GcRead(gc) => s.(gcs := s.gcs[gc := Bounded(s.meta.redoId)])
    case GcList(gc, victims) => s.(gcs := s.gcs[gc := Deleting(victims)])
    case GcDelete(gc, id) => s.(logs := s.logs - {id}, gcs := s.gcs[gc := Deleting(s.gcs[gc].victims - {id})])
    case GcEnd(gc) => s.(gcs := s.gcs[..gc] + s.gcs[gc + 1..])
  }

  // ------------------------------------------------------------- all threads

  datatype Event =
    | Writing(w: WriterEvent)
    | Alloc(ok: bool, created: bool)
    | Dumper(k: nat, d: DumpEvent)
    | Collect(g: GcEvent)

  predicate Enabled(s: State, e: Event) {
    match e
    case Writing(w) => WriterEnabled(s, w)
    case Alloc(_, _) => s.future.Pending?
    case Dumper(k, d) => DumpEnabled(s, k, d)
    case Collect(g) => GcEnabled(s, g)
  }

  function Step(s: State, e: Event): State
    requires Enabled(s, e)
  {
    match e
    case Writing(w) => WriterStep(s, w)
    case Alloc(ok, created) => AllocStep(s, ok, created)
    case Dumper(k, d) => DumpStep(s, k, d)
    case Collect(g) => GcStep(s, g)
  }

  /** A freshly opened engine: the first redo log is in use.  Files of an earlier process may lie around. */
  predicate Init(s: State) {
    && s.queue.immutable == []
    && s.past == Past([s.queue.active], 0, []) && s.hist == []
    && 0 < s.queue.active < s.meta.nextRedo
    && s.memfiles == map[s.queue.active := map[]] && s.used == map[s.queue.active := 0]
    && s.queue.active in s.logs && s.logs[s.queue.active] == []
    && (s.future.Absent? || s.future.Pending?)
    && s.meta.redoId == 0 && s.meta.sorted == [] && s.tables == []
    && s.writer.Idle? && s.flights == [] && s.gcs == []
  }

  // ------------------------------------------------------------------ views

  function Batches(hist: seq<Commit>): seq<Batch> {
    if hist == [] then [] else Batches(hist[..|hist| - 1]) + [hist[|hist| - 1].batch]
  }

  /** The acknowledged batches that went to the memfile `home`, in order. */
  function BatchesOf(hist: seq<Commit>, home: nat): seq<Batch> {
    if hist == [] then []
    else
      var last := hist[|hist| - 1];
      BatchesOf(hist[..|hist| - 1], home) + (if last.home == home then [last.batch] else [])
  }

  /** The batches whose append on this log succeeded, in order. */
  function CompleteBatches(log: seq<Chunk>): seq<Batch> {
    if log == [] then []
    else
      var last := log[|log| - 1];
      CompleteBatches(log[..|log| - 1]) + (if last.complete then [last.records] else [])
  }

  predicate AllIn(ids: seq<nat>, m: map<nat, KvMap>) {
    forall id :: id in ids ==> id in m
  }

  /** The maps stored under `ids`, laid over each other in list order. */
  function Overlay(m: map<nat, KvMap>, ids: seq<nat>): KvMap {
    if ids == [] then map[]
    else Overlay(m, ids[..|ids| - 1]) + At(m, ids[|ids| - 1])
  }

  function At(m: map<nat, KvMap>, id: nat): KvMap {
    if id in m then m[id] else map[]
  }

  // -------------------------------------------------------------- invariant

  predicate Increasing(ids: seq<nat>) {
    |ids| > 1 ==> Increasing(ids[..|ids| - 1]) && ids[|ids| - 2] < ids[|ids| - 1]
  }

  /** The queue is the part of the chain between the popped memfiles and the active one. */
  predicate QueueInv(q: Queue, past: Past) {
    && |past.chain| == past.popped + |q.immutable| + 1
    && past.chain[|past.chain| - 1] == q.active
    && (forall i :: 0 <= i < |q.immutable| ==> q.immutable[i] == past.chain[past.popped + i])
    && Increasing(past.chain)
    && |q.immutable| <= MAX_IMMUTABLE
  }

  predicate IdInv(chain: seq<nat>, active: nat, nextRedo: nat, future: Future) {
    && (forall id :: id in chain ==> 0 < id < nextRedo)
    && (future.Ready? ==> active < future.id < nextRedo)
  }

  predicate KnownInv(chain: seq<nat>, active: nat, memfiles: map<nat, KvMap>, used: map<nat, nat>) {
    AllIn(chain, memfiles) && active in used && used[active] <= CAPACITY
  }

  /** The first dump in flight, or NoDump if there is none. */
  function Front(flights: seq<Dump>): Dump {
    if flights == [] then NoDump else flights[0]
  }

  /** No second dump is ever submitted before the first is over. */
  predicate FlightsInv(flights: seq<Dump>) {
    |flights| <= 1 && NoDump !in flights
  }

  /** Checkpoints done but not yet followed by their pop. */
  function Unpopped(dump: Dump): nat {
    if dump.Saved? || dump.Published? then 1 else 0
  }

  /** Checkpoints so far are a prefix of the chain; the table list follows the checkpoints. */
  predicate MetaInv(meta: Meta, past: Past, tables: seq<nat>, dump: Dump) {
    && |past.checkpoints| == past.popped + Unpopped(dump) == |meta.sorted| < |past.chain|
    && (forall i :: 0 <= i < |past.checkpoints| ==> past.checkpoints[i] == past.chain[i])
    && meta.redoId == (if past.checkpoints == [] then 0 else past.checkpoints[|past.checkpoints| - 1])
    && Increasing(meta.sorted)
    && (meta.sorted != [] ==> meta.sorted[|meta.sorted| - 1] < meta.nextFile)
    && (if dump.Saved? then meta.sorted == dump.files else meta.sorted == tables)
  }

  predicate DumpInv(q: Queue, meta: Meta, tables: seq<nat>, dump: Dump) {
    && (dump.NoDump? <==> q.immutable == [])
    && (!dump.NoDump? ==> dump.redo == q.immutable[0] && dump.file < meta.nextFile)
    && (dump.Dumping? || dump.Dumped? || dump.Built? ==>
          meta.sorted != [] ==> meta.sorted[|meta.sorted| - 1] < dump.file)
    && (dump.Built? || dump.Saved? ==> dump.files == tables + [dump.file])
    && (dump.Published? ==> tables != [] && dump.file == tables[|tables| - 1])
  }

  /** Every table named in the metadata is on disk and holds what its memfile holds. */
  predicate TablesInv(sorted: seq<nat>, chain: seq<nat>, memfiles: map<nat, KvMap>, dumps: map<nat, KvMap>)
  {
    && |sorted| < |chain|
    && (forall i :: 0 <= i < |sorted| ==>
          sorted[i] in dumps && chain[i] in memfiles && dumps[sorted[i]] == memfiles[chain[i]])
  }

  predicate FreshDumpInv(dump: Dump, memfiles: map<nat, KvMap>, dumps: map<nat, KvMap>) {
    dump.Dumped? || dump.Built? ==>
      dump.redo in memfiles && dump.file in dumps && dumps[dump.file] == memfiles[dump.redo]
  }

  predicate HomesIn(hist: seq<Commit>, chain: seq<nat>) {
    forall i :: 0 <= i < |hist| ==> hist[i].home in chain
  }

  predicate ContentInv(chain: seq<nat>, memfiles: map<nat, KvMap>, hist: seq<Commit>)
    requires AllIn(chain, memfiles)
  {
    forall id :: id in chain ==> memfiles[id] == Replay(BatchesOf(hist, id))
  }

  /** Once the commit thread passed the room check, the batch fits or the memfile is still empty. */
  predicate RoomInv(used: map<nat, nat>, active: nat, writer: Writer)
    requires active in used
  {
    writer.Roomed? || writer.Logged? ==>
      used[active] == 0 || used[active] + BatchBytes(writer.batch) <= CAPACITY
  }

  /** Batches that the active log holds but the active memfile does not yet. */
  function InFlight(writer: Writer, active: nat, id: nat): seq<Batch> {
    if writer.Logged? && id == active then [writer.batch] else []
  }

  /** Logs at or above the checkpoint exist; an existing log holds exactly its acknowledged batches. */
  predicate LogInv(chain: seq<nat>, active: nat, redoId: nat, writer: Writer, logs: map<nat, seq<Chunk>>, hist: seq<Commit>)
  {
    && (forall id :: id in chain && id >= redoId ==> id in logs)
    && (forall id :: id in chain && id in logs ==>
          CompleteBatches(logs[id]) == BatchesOf(hist, id) + InFlight(writer, active, id))
  }

  predicate FutureInv(future: Future, logs: map<nat, seq<Chunk>>) {
    future.Ready? ==> future.id in logs && logs[future.id] == []
  }

  predicate GcInv(gcs: seq<Gc>, redoId: nat) {
    forall i :: 0 <= i < |gcs| ==>
      && (gcs[i].Bounded? ==> gcs[i].bound <= redoId)
      && (gcs[i].Deleting? ==> forall id :: id in gcs[i].victims ==> id < redoId)
  }

  predicate OverlayInv(chain: seq<nat>, memfiles: map<nat, KvMap>, hist: seq<Commit>) {
    Overlay(memfiles, chain) == Replay(Batches(hist))
  }

  predicate Inv(s: State) {
    && QueueInv(s.queue, s.past)
    && IdInv(s.past.chain, s.queue.active, s.meta.nextRedo, s.future)
    && KnownInv(s.past.chain, s.queue.active, s.memfiles, s.used)
    && FlightsInv(s.flights)
    && MetaInv(s.meta, s.past, s.tables, Front(s.flights))
    && DumpInv(s.queue, s.meta, s.tables, Front(s.flights))
    && TablesInv(s.meta.sorted, s.past.chain, s.memfiles, s.dumps)
    && FreshDumpInv(Front(s.flights), s.memfiles, s.dumps)
    && HomesIn(s.hist, s.past.chain)
    && ContentInv(s.past.chain, s.memfiles, s.hist)
    && RoomInv(s.used, s.queue.active, s.writer)
    && LogInv(s.past.chain, s.queue.active, s.meta.redoId, s.writer, s.logs, s.hist)
    && FutureInv(s.future, s.logs)
    && GcInv(s.gcs, s.meta.redoId)
    && OverlayInv(s.past.chain, s.memfiles, s.hist)
  }
}
