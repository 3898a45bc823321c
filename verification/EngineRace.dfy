/**
  The engine's classes.  Every method is proved to perform events of the
  transition system: a ghost field holds the abstract state, Valid ties it to
  the real fields, and what the rest of the program, the disk or the clock
  decides (a failing open, a wake-up in time) is a parameter.
 */
module EngineRace {
  import opened Updates
  import opened EngineState
  import opened EngineInvariant
  import opened EngineRuns
  import opened EngineReads
  import opened Memfiles

  /** The files of the database directory. */
  class Disk {
    var logs: map<nat, seq<Chunk>>
    var dumps: map<nat, KvMap>

    constructor (logs: map<nat, seq<Chunk>>, dumps: map<nat, KvMap>)
      ensures this.logs == logs && this.dumps == dumps
    {
      this.logs, this.dumps := logs, dumps;
    }
  }

  class DBMeta {
    var redoId: nat
    var nextRedo: nat
    var nextFile: nat
    var sorted: seq<nat>

    ghost function Abs(): Meta
      reads this
    {
      Meta(redoId, nextRedo, nextFile, sorted)
    }

    constructor ()
      ensures Abs() == Meta(0, 1, 1, []) && nextRedo == 1
    {
      redoId, nextRedo, nextFile, sorted := 0, 1, 1, [];
    }

    method NextRedoId() returns (id: nat)
      modifies this
      ensures id == old(nextRedo)
      ensures Abs() == old(Abs()).(nextRedo := id + 1)
    {
      id := nextRedo;
      nextRedo := nextRedo + 1;
    }

    method NextId() returns (id: nat)
      modifies this
      ensures id == old(nextFile)
      ensures Abs() == old(Abs()).(nextFile := id + 1)
    {
      id := nextFile;
      nextFile := nextFile + 1;
    }

    /** The preconditions are the two asserts of the source. */
    method Checkpoint(redo: nat, file: nat)
      requires redo > redoId
      requires redo < nextRedo
      modifies this
      ensures Abs() == old(Abs()).(redoId := redo, sorted := old(sorted) + [file])
    {
      redoId := redo;
      sorted := sorted + [file];
    }
  }

  class DBFileManager {
    var sstables: seq<nat>

    constructor ()
      ensures sstables == []
    {
      sstables := [];
    }

    method Snapshot() returns (tables: seq<nat>)
      ensures tables == sstables
    {
      tables := sstables;
    }

    method BuildNewState(file: nat) returns (files: seq<nat>)
      ensures files == sstables + [file]
    {
      files := Snapshot();
      files := files + [file];
    }

    method Apply(files: seq<nat>)
      modifies this
      ensures sstables == files
    {
      sstables := files;
    }
  }

  class RedoLog {
    const id: nat

    constructor (id: nat)
      ensures this.id == id
    {
      this.id := id;
    }

    /**
      Writes the records one after the other; write number failAt fails (none if failAt >= |batch|),
      and so may the final flush.  On failure some leading records may be in the file.
     */
    method Append(disk: Disk, batch: Batch, failAt: nat, flushed: bool) returns (ok: bool, ghost written: nat)
      requires id in disk.logs
      modifies disk`logs
      ensures ok <==> failAt >= |batch| && flushed
      ensures written <= |batch|
      ensures disk.logs == old(disk.logs)[id := old(disk.logs)[id] + [Chunk(batch[..written], ok)]]
      ensures ok ==> batch[..written] == batch
    {
      var out: Batch := [];
      var i := 0;
      while i < |batch| && i != failAt
        invariant 0 <= i <= |batch| && out == batch[..i]
        invariant i <= failAt || failAt >= |batch|
      {
        out := out + [batch[i]];
        i := i + 1;
      }
      ok := i == |batch| && flushed;
      written := i;
      disk.logs := disk.logs[id := disk.logs[id] + [Chunk(out, ok)]];
    }
  }

  class RedoAllocator {
    var future: Future

    constructor ()
      ensures future == Absent
    {
      future := Absent;
    }

    /**
      The preallocation: takes the next id and opens its file, truncating an old one; a failure after that
      (of setvbuf) leaves the empty file behind.
     */
    method RunTask(meta: DBMeta, disk: Disk, ok: bool, created: bool)
      requires future.Pending?
      modifies this, meta, disk`logs
      ensures meta.Abs() == old(meta.Abs()).(nextRedo := old(meta.nextRedo) + 1)
      ensures future == if ok then Ready(old(meta.nextRedo)) else Broken
      ensures disk.logs == if ok || created then old(disk.logs)[old(meta.nextRedo) := []] else old(disk.logs)
    {
      var id := meta.NextRedoId();
      if ok || created {
        disk.logs := disk.logs[id := []];
      }
      future := if ok then Ready(id) else Broken;
    }
  }

  // ------------------------------------------------------- sequences of events

  /** The events lead from one state to the other. */
  ghost predicate Leads(s: State, es: seq<Event>, t: State)
    decreases |es|
  {
    if es == [] then s == t else Enabled(s, es[0]) && Leads(Step(s, es[0]), es[1..], t)
  }

  lemma {:induction false} LeadsOn(s: State, es: seq<Event>, t: State, e: Event)
    requires Leads(s, es, t) && Enabled(t, e)
    ensures Leads(s, es + [e], Step(t, e))
    decreases |es|
  {
    hide Enabled, Step;
    if es == [] {
      assert (es + [e])[1..] == [];
    } else {
      assert (es + [e])[1..] == es[1..] + [e];
      LeadsOn(Step(s, es[0]), es[1..], t, e);
    }
  }

  lemma {:induction false} LeadsThrough(s: State, es: seq<Event>, t: State, fs: seq<Event>, u: State)
    requires Leads(s, es, t) && Leads(t, fs, u)
    ensures Leads(s, es + fs, u)
    decreases |es|
  {
    hide Enabled, Step;
    if es == [] {
      assert es + fs == fs;
    } else {
      assert (es + fs)[1..] == es[1..] + fs;
      LeadsThrough(Step(s, es[0]), es[1..], t, fs, u);
    }
  }

  lemma {:induction false} LeadingKeepsInv(s: State, es: seq<Event>, t: State)
    requires Leads(s, es, t) && Inv(s)
    ensures Inv(t)
    decreases |es|
  {
    hide Enabled, Step, Inv;
    if es != [] {
      StepKeepsInv(s, es[0]);
      LeadingKeepsInv(Step(s, es[0]), es[1..], t);
    }
  }

  // ------------------------------------------- what single events do to the parts

  lemma AllocEffect(s: State, ok: bool, created: bool)
    requires s.future.Pending?
    ensures Enabled(s, Alloc(ok, created))
    ensures var t := Step(s, Alloc(ok, created));
      && t == s.(meta := t.meta, future := t.future, logs := t.logs)
      && t.meta == s.meta.(nextRedo := s.meta.nextRedo + 1)
      && t.future == (if ok then Ready(s.meta.nextRedo) else Broken)
      && t.logs == (if ok || created then s.logs[s.meta.nextRedo := []] else s.logs)
  {
  }

  lemma SwitchIds(s: State, resubmitted: bool)
    requires Reachable(s) && Enabled(s, Writing(Switch(resubmitted)))
    ensures s.future.Ready? && s.future.id != s.queue.active && s.future.id !in s.queue.immutable
  {
    SwitchIs(s, resubmitted);
    hide Inv, Reachable, Enabled;
    ReachableInv(s);
    ReadyIdIsNew(s);
  }

  lemma ReadyIdIsNew(s: State)
    requires Inv(s) && s.future.Ready?
    ensures s.future.id != s.queue.active && s.future.id !in s.queue.immutable
  {
    IdsAfterSwitch(s.queue, s.past, s.meta.nextRedo, s.future, true);
    QueueIsInChain(s.queue, s.past);
    hide Inv;
  }

  lemma SwitchEffect(s: State, resubmitted: bool)
    requires Enabled(s, Writing(Switch(resubmitted)))
    ensures s.future.Ready?
    ensures var t := Step(s, Writing(Switch(resubmitted)));
      && t.future == AfterTake(resubmitted)
      && t.queue == Queue(s.future.id, s.queue.immutable + [s.queue.active])
      && t.meta == (if s.queue.immutable == [] then s.meta.(nextFile := s.meta.nextFile + 1) else s.meta)
      && t.memfiles == s.memfiles[s.future.id := map[]] && t.used == s.used[s.future.id := 0]
      && t.past == s.past.(chain := s.past.chain + [s.future.id])
      && t.logs == s.logs && t.dumps == s.dumps && t.tables == s.tables && t.hist == s.hist
  {
  }

  /** Events of the commit thread that touch no object but the future. */
  predicate IsControl(w: WriterEvent) {
    !w.Switch? && !w.LogAppend? && !w.LogFail? && !w.MemAdd?
  }

  function ControlWriter(s: State, w: WriterEvent): Writer
    requires IsControl(w) && Enabled(s, Writing(w))
  {
    match w
    case Begin(batch) => Waiting(batch)
    case RoomFound => Roomed(s.writer.batch)
    case QueueFull => Blocked(s.writer.batch)
    case AllocSubmit => s.writer
    case _ => Idle
  }

  function ControlFuture(s: State, w: WriterEvent): Future
    requires IsControl(w)
  {
    match w
    case AllocSubmit => Pending
    case SwitchFail => Absent
    case SwitchLost(resubmitted) => AfterTake(resubmitted)
    case _ => s.future
  }

  lemma ControlEffect(s: State, w: WriterEvent)
    requires IsControl(w) && Enabled(s, Writing(w))
    ensures Step(s, Writing(w)) == s.(writer := ControlWriter(s, w), future := ControlFuture(s, w))
  {
  }

  /** Allocation events become possible in turn while the commit thread waits for its switch. */
  lemma SwitchingEnables(s: State, resubmitted: bool)
    requires Switching(s) && s.queue.active in s.memfiles && s.queue.active in s.logs
    ensures s.future.Absent? ==> Enabled(s, Writing(AllocSubmit)) && Enabled(s, Writing(AllocSubmitFail))
    ensures s.future.Ready? ==> Enabled(s, Writing(Switch(resubmitted))) && Enabled(s, Writing(SwitchLost(resubmitted)))
    ensures s.future.Broken? ==> Enabled(s, Writing(SwitchFail))
  {
  }

  lemma ActiveIsStored(s: State)
    requires Reachable(s)
    ensures s.queue.active in s.memfiles && s.queue.active in s.logs && s.queue.active in s.used
  {
    ReachableInv(s);
    ActiveStored(s);
  }

  /** What is possible at each control point of the commit thread. */
  lemma WriterCan(s: State)
    requires s.queue.active in s.memfiles && s.queue.active in s.logs && s.queue.active in s.used
    ensures s.writer.Idle? ==> forall b :: Enabled(s, Writing(Begin(b)))
    ensures s.writer.Waiting? && HasRoom(s) ==> Enabled(s, Writing(RoomFound))
    ensures s.writer.Waiting? && !HasRoom(s) && |s.queue.immutable| >= MAX_IMMUTABLE ==> Enabled(s, Writing(QueueFull))
    ensures s.writer.Blocked? ==> Enabled(s, Writing(RoomTimeout))
    ensures s.writer.Roomed? ==> Enabled(s, Writing(LogAppend))
    ensures s.writer.Roomed? ==> forall n: nat :: n <= |s.writer.batch| ==> Enabled(s, Writing(LogFail(n)))
  {
  }

  lemma AppendEffect(s: State, ok: bool, written: nat)
    requires s.writer.Roomed? && written <= |s.writer.batch| && s.queue.active in s.logs
    requires s.queue.active in s.memfiles && s.queue.active in s.used
    ensures var w := if ok then LogAppend else LogFail(written);
      && Enabled(s, Writing(w))
      && Step(s, Writing(w)) == s.(
           writer := if ok then Logged(s.writer.batch) else Idle,
           logs := s.logs[s.queue.active := s.logs[s.queue.active]
                          + [Chunk(if ok then s.writer.batch else s.writer.batch[..written], ok)]])
  {
  }

  lemma AddEffect(s: State)
    requires Enabled(s, Writing(MemAdd))
    ensures s.writer.Logged? && s.queue.active in s.memfiles && s.queue.active in s.used
    ensures var id := s.queue.active;
      Step(s, Writing(MemAdd)) == s.(
        writer := Idle,
        memfiles := s.memfiles[id := ApplyBatch(s.memfiles[id], s.writer.batch)],
        used := s.used[id := s.used[id] + ClonedBytes(s.memfiles[id], s.writer.batch)],
        hist := s.hist + [Commit(id, s.writer.batch)])
  {
  }

  lemma SwitchWriter(s: State, resubmitted: bool)
    requires Enabled(s, Writing(Switch(resubmitted)))
    ensures !s.writer.Idle? && Step(s, Writing(Switch(resubmitted))).writer == Roomed(s.writer.batch)
  {
  }

  lemma DumpTargetsFront(s: State, k: nat)
    requires Reachable(s) && k < |s.flights|
    ensures k == 0 && |s.flights| == 1 && !s.flights[0].NoDump?
    ensures s.queue.immutable != [] && s.flights[0].redo == s.queue.immutable[0] && s.flights[0].redo in s.memfiles
  {
    ReachableInv(s);
    DumpedIsNotActive(s, k);
    QueueAndDump(s);
    FlightIsStored(s, k);
    hide Reachable, Inv, Checkpointed;
    assert s.flights[0] in s.flights;
  }

  lemma FlightIsStored(s: State, k: nat)
    requires Inv(s) && k < |s.flights|
    ensures !s.flights[k].NoDump? && s.flights[k].redo in s.memfiles
  {
    DumpedIsNotActive(s, k);
    hide QueueInv, TablesInv, ContentInv, LogInv, OverlayInv, HomesIn, MetaInv, DumpInv, IdInv, RoomInv, GcInv;
  }

  /** The state with its only dump moved on. */
  function With(s: State, d: Dump): State {
    s.(flights := [d])
  }

  lemma RunDumpEffect(s: State, ok: bool, partial: KvMap)
    requires |s.flights| == 1 && s.flights[0].Dumping? && s.flights[0].redo in s.memfiles && s.queue.immutable != []
    ensures var d, e := s.flights[0], Dumper(0, if ok then DumpOk else DumpFail(partial));
      && Enabled(s, e)
      && Step(s, e) ==
           if ok then With(s, Dumped(d.redo, d.file)).(dumps := s.dumps[d.file := s.memfiles[d.redo]])
           else With(s, Dumping(s.queue.immutable[0], s.meta.nextFile)).(
             dumps := s.dumps[d.file := partial], meta := s.meta.(nextFile := s.meta.nextFile + 1))
  {
  }

  lemma CallbackEffect(s: State, d: DumpEvent)
    requires d.Build? || d.BuildFail? || d.SaveFail?
    requires |s.flights| == 1 && if d.SaveFail? then s.flights[0].Built? else s.flights[0].Dumped?
    ensures Enabled(s, Dumper(0, d))
    ensures var f := s.flights[0];
      Step(s, Dumper(0, d)) == With(s, if d.Build? then Built(f.redo, f.file, s.tables + [f.file]) else Dumped(f.redo, f.file))
  {
    if d.BuildFail? {
      assert s.flights == [s.flights[0]];
    }
  }

  lemma SaveEffect(s: State)
    requires |s.flights| == 1 && s.flights[0].Built?
    ensures Enabled(s, Dumper(0, SaveMeta))
    ensures var t, f := Step(s, Dumper(0, SaveMeta)), s.flights[0];
      && t == s.(meta := t.meta, past := t.past, flights := t.flights)
      && t.meta == s.meta.(redoId := f.redo, sorted := s.meta.sorted + [f.file])
      && t.flights == [Saved(f.redo, f.file, f.files)]
  {
  }

  lemma PublishEffect(s: State)
    requires |s.flights| == 1 && s.flights[0].Saved?
    ensures Enabled(s, Dumper(0, Publish))
    ensures var f := s.flights[0]; Step(s, Dumper(0, Publish)) == With(s, Published(f.redo, f.file)).(tables := f.files)
  {
  }

  lemma PopEffect(s: State)
    requires |s.flights| == 1 && s.flights[0].Published? && s.queue.immutable != []
    ensures Enabled(s, Dumper(0, Pop))
    ensures var t := Step(s, Dumper(0, Pop));
      && t == s.(queue := t.queue, past := t.past, gcs := t.gcs, flights := t.flights, meta := t.meta)
      && t.queue == Queue(s.queue.active, s.queue.immutable[1..]) && t.gcs == s.gcs + [Owed]
      && t.meta == (if |s.queue.immutable| > 1 then s.meta.(nextFile := s.meta.nextFile + 1) else s.meta)
  {
  }

  lemma GcReadEffect(s: State, gc: nat)
    requires gc < |s.gcs| && s.gcs[gc].Owed?
    ensures Enabled(s, Collect(GcRead(gc)))
    ensures Step(s, Collect(GcRead(gc))) == s.(gcs := s.gcs[gc := Bounded(s.meta.redoId)])
  {
  }

  lemma GcListEffect(s: State, gc: nat, victims: set<nat>)
    requires gc < |s.gcs| && s.gcs[gc].Bounded? && |victims| <= MAX_GC
    requires forall id :: id in victims ==> id in s.logs && id < s.gcs[gc].bound
    ensures Enabled(s, Collect(GcList(gc, victims)))
    ensures Step(s, Collect(GcList(gc, victims))) == s.(gcs := s.gcs[gc := Deleting(victims)])
  {
  }

  lemma GcDeleteEffect(s: State, gc: nat, id: nat)
    requires gc < |s.gcs| && s.gcs[gc].Deleting? && id in s.gcs[gc].victims
    ensures Enabled(s, Collect(GcDelete(gc, id)))
    ensures Step(s, Collect(GcDelete(gc, id)))
         == s.(logs := s.logs - {id}, gcs := s.gcs[gc := Deleting(s.gcs[gc].victims - {id})])
  {
  }

  lemma GcEndEffect(s: State, gc: nat)
    requires gc < |s.gcs|
    ensures Enabled(s, Collect(GcEnd(gc)))
    ensures Step(s, Collect(GcEnd(gc))) == s.(gcs := s.gcs[..gc] + s.gcs[gc + 1..])
  {
  }

  lemma ActiveNotQueued(s: State)
    requires Reachable(s)
    ensures s.queue.active !in s.queue.immutable
  {
    ReachableInv(s);
    QueueIsInChain(s.queue, s.past);
    hide Reachable, Inv;
  }

  /** An empty memfile can take the batch. */
  predicate Fitting(batch: Batch) {
    ClonedBytes(map[], batch) <= CAPACITY
  }

  predicate Distinct(ids: seq<nat>) {
    forall i, j :: 0 <= i < j < |ids| ==> ids[i] != ids[j]
  }

  function Elements(ids: seq<nat>): set<nat> {
    set id | id in ids
  }

  lemma {:induction false} FewElements(ids: seq<nat>)
    ensures |Elements(ids)| <= |ids|
  {
    if ids == [] {
      assert Elements(ids) == {};
    } else {
      FewElements(ids[..|ids| - 1]);
      assert Elements(ids) == Elements(ids[..|ids| - 1]) + {ids[|ids| - 1]};
    }
  }

  /** Picks up to eight logs below the bound from the directory listing, whatever its order. */
  method PickVictims(bound: nat, listing: seq<nat>) returns (victims: seq<nat>)
    requires Distinct(listing)
    ensures |victims| <= MAX_GC && Distinct(victims)
    ensures forall id :: id in victims ==> id in listing && id < bound
    ensures |victims| < MAX_GC ==> forall id :: id in listing && id < bound ==> id in victims
  {
    victims := [];
    var i := 0;
    while i < |listing| && |victims| < MAX_GC
      invariant 0 <= i <= |listing| && |victims| <= MAX_GC && Distinct(victims)
      invariant forall id :: id in victims ==> id in listing[..i] && id < bound
      invariant forall id :: id in listing[..i] && id < bound ==> id in victims
    {
      var id := listing[i];
      assert listing[..i + 1] == listing[..i] + [id];
      assert id !in listing[..i];
      if id < bound {
        victims := victims + [id];
      }
      i := i + 1;
    }
  }

  lemma NextVictim(ids: seq<nat>, i: nat)
    requires i < |ids| && Distinct(ids)
    ensures ids[i] in Elements(ids[i..])
    ensures Elements(ids[..i + 1]) == Elements(ids[..i]) + {ids[i]}
    ensures Elements(ids[i + 1..]) == Elements(ids[i..]) - {ids[i]}
  {
    assert ids[..i + 1] == ids[..i] + [ids[i]];
    assert ids[i..] == [ids[i]] + ids[i + 1..];
  }

  // ------------------------------------------------------------------ engine

  datatype Room = Fits | Full | NeedsSwitch

  /** Overflow: the batch is logged, but adding it would move the memfile's buffer away under its views. */
  datatype WriteResult = Done | Busy | Threw | StillWaiting | Overflow

  /** A write that is over ended with the event that its result stands for. */
  predicate EndsAs(es: seq<Event>, r: WriteResult) {
    r == Done || r == Busy || r == Threw ==>
      && es != [] && es[|es| - 1].Writing?
      && var w := es[|es| - 1].w;
         && (r == Done <==> w.MemAdd?)
         && (r == Busy <==> w.RoomTimeout?)
         && (r == Threw <==> Throws(w))
  }

  predicate Throws(w: WriterEvent) {
    w.AllocSubmitFail? || w.SwitchFail? || w.SwitchLost? || w.LogFail?
  }

  lemma EndsAfter(es: seq<Event>, fs: seq<Event>, r: WriteResult)
    requires EndsAs(fs, r)
    ensures EndsAs(es + fs, r)
  {
  }

  lemma EndsNow(es: seq<Event>)
    ensures EndsAs(es + [Writing(MemAdd)], Done) && EndsAs(es + [Writing(RoomTimeout)], Busy)
    ensures forall w :: Throws(w) ==> EndsAs(es + [Writing(w)], Threw)
    ensures EndsAs(es, StillWaiting) && EndsAs(es, Overflow)
  {
  }

  /** What the environment decides during one write. */
  datatype Outcomes = Outcomes(
    submitted: bool,     // the first preallocation task could be submitted
    openable: bool,      // the preallocation could open its file
    created: bool,       // if not, the file was created all the same
    built: bool,         // the new memfile could be built
    resubmitted: bool,   // the next preallocation task could be submitted
    failAt: nat,         // the index of the record write that fails
    flushed: bool)       // the flush succeeded

  /** Whether allocate comes by a redo log, given where the preallocation stands. */
  predicate YieldsLog(f: Future, o: Outcomes) {
    match f
    case Absent => o.submitted && o.openable
    case Pending => o.openable
    case Ready(_) => true
    case Broken => false
  }

  predicate Allocates(f: Future, o: Outcomes) {
    YieldsLog(f, o) && o.built
  }

  /** The object stands for the memfile with this id. */
  ghost predicate Holds(m: Memfile, id: nat, memfiles: map<nat, KvMap>)
    reads m
  {
    m.Valid() && m.redoId == id && m.capacity == CAPACITY && id in memfiles && m.contents == memfiles[id]
  }

  ghost predicate QueueHolds(ms: seq<Memfile>, ids: seq<nat>, memfiles: map<nat, KvMap>)
    reads ms
  {
    |ms| == |ids| && forall i :: 0 <= i < |ms| ==> Holds(ms[i], ids[i], memfiles)
  }

  lemma QueueStillHolds(ms: seq<Memfile>, ids: seq<nat>, memfiles: map<nat, KvMap>, id: nat, m: KvMap)
    requires QueueHolds(ms, ids, memfiles) && id !in ids
    ensures QueueHolds(ms, ids, memfiles[id := m])
  {
  }

  /** The active memfile joins the queue, and an empty one with a new id takes its place. */
  lemma QueueTakesActive(ms: seq<Memfile>, ids: seq<nat>, memfiles: map<nat, KvMap>, active: Memfile, activeId: nat, id: nat)
    requires QueueHolds(ms, ids, memfiles) && Holds(active, activeId, memfiles) && id !in ids && id != activeId
    ensures QueueHolds(ms + [active], ids + [activeId], memfiles[id := map[]])
  {
  }

  class EngineRace {
    const meta: DBMeta
    const files: DBFileManager
    const disk: Disk
    const allocator: RedoAllocator
    var memfile: Memfile
    var redolog: RedoLog
    var immutable: seq<Memfile>

    ghost var model: State

    /** The memfiles and the active log are those of the state. */
    ghost predicate MemoryFor(s: State)
      reads this`memfile, this`immutable, this`redolog, memfile, immutable
    {
      && Holds(memfile, s.queue.active, s.memfiles)
      && s.queue.active in s.used && |memfile.buffer| == s.used[s.queue.active]
      && QueueHolds(immutable, s.queue.immutable, s.memfiles)
      && memfile !in immutable
      && redolog.id == s.queue.active
    }

    ghost predicate MemoryOk()
      reads this, memfile, immutable
    {
      MemoryFor(model)
    }

    ghost predicate PartsOk()
      reads this, meta, files, disk, allocator
    {
      && meta.Abs() == model.meta
      && files.sstables == model.tables
      && disk.logs == model.logs && disk.dumps == model.dumps
      && allocator.future == model.future
    }

    ghost predicate Valid()
      reads this, meta, files, disk, allocator, memfile, immutable
    {
      Reachable(model) && MemoryOk() && PartsOk()
    }

    /** A successful open: the first redo log is taken and the next one ordered. */
    constructor (logs: map<nat, seq<Chunk>>, dumps: map<nat, KvMap>, resubmitted: bool)
      ensures Valid() && Init(model)
      ensures disk.logs == logs[1 := []] && disk.dumps == dumps
    {
      hide Reachable, Init, Opened, Memfile.Valid, Run, AfterTake, DBMeta.Abs;
      var m := new DBMeta();
      var first := m.NextRedoId();
      var a := new RedoAllocator();
      a.future := AfterTake(resubmitted);
      meta, allocator := m, a;
      files := new DBFileManager();
      disk := new Disk(logs[first := []], dumps);
      redolog := new RedoLog(first);
      memfile := new Memfile(first, CAPACITY);
      immutable := [];
      model := Opened(logs, dumps, resubmitted);
      new;
      OpenedIsInitial(logs, dumps, resubmitted);
    }

    // ------------------------------------------------------- commit thread

    /** The preallocation task runs. */
    method RunAllocation(open: bool, created: bool)
      requires Valid() && model.future.Pending?
      modifies this`model, allocator, meta, disk`logs
      ensures Valid() && old(Enabled(model, Alloc(open, created))) && model == Step(old(model), Alloc(open, created))
    {
      hide Reachable, Memfile.Valid, Step, Enabled;
      AllocEffect(model, open, created);
      StepReaches(model, Alloc(open, created));
      allocator.RunTask(meta, disk, open, created);
      model := Step(model, Alloc(open, created));
    }

    /** schedule_dump_: the next file id is taken if there is something to dump. */
    method ScheduleDump()
      modifies meta
      ensures meta.Abs() == if immutable == [] then old(meta.Abs()) else old(meta.Abs()).(nextFile := old(meta.Abs()).nextFile + 1)
    {
      if |immutable| > 0 {
        var file := meta.NextId();
      }
    }

    /** The new memfile and its log take over; the old active memfile joins the queue. */
    method InstallMemfile(id: nat, ghost t: State)
      requires MemoryFor(model) && id != model.queue.active && id !in model.queue.immutable
      requires t.queue == Queue(id, model.queue.immutable + [model.queue.active])
      requires t.memfiles == model.memfiles[id := map[]] && t.used == model.used[id := 0]
      modifies this`memfile, this`redolog, this`immutable
      ensures MemoryFor(t) && immutable == old(immutable) + [old(memfile)]
      ensures fresh(memfile) && memfile.contents == map[] && memfile.buffer == []
    {
      hide Memfile.Valid, QueueHolds;
      var log := new RedoLog(id);
      var mem := new Memfile(id, CAPACITY);
      QueueTakesActive(immutable, model.queue.immutable, model.memfiles, memfile, model.queue.active, id);
      immutable := immutable + [memfile];
      memfile, redolog := mem, log;
    }

    /** switch_memfile_ once a redo log is ready, and schedule_dump_ if the queue was empty. */
    method SwitchMemfile(resubmitted: bool)
      requires Valid() && Enabled(model, Writing(Switch(resubmitted)))
      modifies this, allocator, meta
      ensures Valid() && model == Step(old(model), Writing(Switch(resubmitted)))
      ensures immutable == old(immutable) + [old(memfile)]
      ensures fresh(memfile) && memfile.contents == map[] && memfile.buffer == [] && redolog.id == memfile.redoId
      ensures allocator.future == if resubmitted then Pending else Absent
      ensures model.hist == old(model.hist)
    {
      hide Reachable, Memfile.Valid, Step, Enabled;
      SwitchIds(model, resubmitted);
      SwitchEffect(model, resubmitted);
      StepReaches(model, Writing(Switch(resubmitted)));
      ghost var t := Step(model, Writing(Switch(resubmitted)));
      InstallMemfile(allocator.future.id, t);
      if |immutable| == 1 {
        ScheduleDump();
      }
      allocator.future := if resubmitted then Pending else Absent;
      model := t;
    }

    /** A step of the commit thread that only moves its control point and the future. */
    method Control(w: WriterEvent, future: Future)
      requires Valid() && IsControl(w) && Enabled(model, Writing(w)) && future == ControlFuture(model, w)
      modifies this`model, allocator
      ensures Valid() && model == old(model).(writer := old(ControlWriter(model, w)), future := future)
      ensures model == Step(old(model), Writing(w))
    {
      hide Reachable, Memfile.Valid, Step, Enabled;
      ControlEffect(model, w);
      StepReaches(model, Writing(w));
      allocator.future := future;
      model := Step(model, Writing(w));
    }

    /** Redo_allocator::allocate up to its wait for the future: false when it threw. */
    method AwaitLog(o: Outcomes) returns (ok: bool, ghost es: seq<Event>)
      requires Valid() && Switching(model)
      modifies this`model, allocator, meta, disk`logs
      ensures Valid() && Leads(old(model), es, model) && model.hist == old(model.hist)
      ensures ok <==> YieldsLog(old(model.future), o)
      ensures if ok then Switching(model) && model.future.Ready? && model.writer == old(model.writer) else model.writer == Idle
      ensures !ok ==> EndsAs(es, Threw)
    {
      hide Reachable, Memfile.Valid, Step, Enabled, MemoryOk, EndsAs;
      es := [];
      ActiveIsStored(model);
      SwitchingEnables(model, o.resubmitted);
      if allocator.future.Absent? {
        if !o.submitted {
          LeadsOn(old(model), es, model, Writing(AllocSubmitFail));
          Control(AllocSubmitFail, allocator.future);
          EndsNow(es);
          return false, es + [Writing(AllocSubmitFail)];
        }
        LeadsOn(old(model), es, model, Writing(AllocSubmit));
        Control(AllocSubmit, Pending);
        es := es + [Writing(AllocSubmit)];
      }
      if allocator.future.Pending? {
        AllocEffect(model, o.openable, o.created);
        LeadsOn(old(model), es, model, Alloc(o.openable, o.created));
        RunAllocation(o.openable, o.created);
        es := es + [Alloc(o.openable, o.created)];
      }
      ok := !allocator.future.Broken?;
      if !ok {
        ActiveIsStored(model);
        SwitchingEnables(model, o.resubmitted);
        LeadsOn(old(model), es, model, Writing(SwitchFail));
        Control(SwitchFail, Absent);
        EndsNow(es);
        es := es + [Writing(SwitchFail)];
      }
    }

    /** Redo_allocator::allocate, and the switch to the log it returns; false when either threw. */
    method AllocateAndSwitch(o: Outcomes) returns (ok: bool, ghost es: seq<Event>)
      requires Valid() && Switching(model)
      modifies this, allocator, meta, disk`logs
      ensures Valid() && Leads(old(model), es, model)
      ensures if ok then model.writer == Roomed(old(model.writer.batch)) else model.writer == Idle
      ensures !ok ==> EndsAs(es, Threw)
      ensures ok ==> fresh(memfile) && memfile.contents == map[] && memfile.buffer == []
      ensures ok <==> Allocates(old(model.future), o)
      ensures model.hist == old(model.hist)
    {
      hide Reachable, Memfile.Valid, Step, Enabled, MemoryOk, EndsAs;
      ok, es := AwaitLog(o);
      if ok {
        ActiveIsStored(model);
        SwitchingEnables(model, o.resubmitted);
        if !o.built {
          LeadsOn(old(model), es, model, Writing(SwitchLost(o.resubmitted)));
          Control(SwitchLost(o.resubmitted), AfterTake(o.resubmitted));
          EndsNow(es);
          return false, es + [Writing(SwitchLost(o.resubmitted))];
        }
        SwitchWriter(model, o.resubmitted);
        LeadsOn(old(model), es, model, Writing(Switch(o.resubmitted)));
        SwitchMemfile(o.resubmitted);
        es := es + [Writing(Switch(o.resubmitted))];
      }
    }

    /** The append of EngineRace::write, to the log of the active memfile. */
    method LogBatch(batch: Batch, o: Outcomes) returns (ok: bool, ghost e: Event)
      requires Valid() && model.writer == Roomed(batch)
      modifies this`model, disk`logs
      ensures Valid() && old(Enabled(model, e)) && model == Step(old(model), e)
      ensures model.writer == if ok then Logged(batch) else Idle
      ensures !ok ==> EndsAs([e], Threw)
      ensures model.hist == old(model.hist)
      ensures ok <==> o.failAt >= |batch| && o.flushed
    {
      hide Reachable, Memfile.Valid, Step, Enabled, EndsAs;
      ActiveIsStored(model);
      var written: nat;
      ghost var n: nat;
      ok, n := redolog.Append(disk, batch, o.failAt, o.flushed);
      AppendEffect(model, ok, n);
      e := Writing(if ok then LogAppend else LogFail(n));
      EndsNow([]);
      assert [] + [e] == [e];
      StepReaches(model, e);
      model := Step(model, e);
    }

    method AddFittingBatch(batch: Batch)
      requires Valid() && model.writer == Logged(batch) && Enabled(model, Writing(MemAdd))
      requires |memfile.buffer| + ClonedBytes(memfile.contents, batch) <= CAPACITY
      modifies this`model, memfile
      ensures Valid() && model == Step(old(model), Writing(MemAdd)) && model.writer == Idle
      ensures model.hist == old(model.hist) + [Commit(old(model.queue.active), batch)]
      ensures memfile.contents == ApplyBatch(old(memfile.contents), batch)
    {
      hide Reachable, Step, Enabled, Memfile.Valid, QueueHolds, ApplyBatch, ClonedBytes;
      AddEffect(model);
      ActiveNotQueued(model);
      StepReaches(model, Writing(MemAdd));
      QueueStillHolds(immutable, model.queue.immutable, model.memfiles, memfile.redoId, ApplyBatch(memfile.contents, batch));
      var done := memfile.Add(batch);
      model := Step(model, Writing(MemAdd));
    }

    /** The add of EngineRace::write; a logged batch can be added exactly when the bytes to copy fit. */
    method AddBatch(batch: Batch) returns (ok: bool)
      requires Valid() && model.writer == Logged(batch)
      modifies this`model, memfile
      ensures Valid()
      ensures ok <==> old(|memfile.buffer| + ClonedBytes(memfile.contents, batch) <= CAPACITY)
      ensures ok <==> old(Enabled(model, Writing(MemAdd)))
      ensures ok ==> model == Step(old(model), Writing(MemAdd)) && model.writer == Idle
      ensures ok ==> model.hist == old(model.hist) + [Commit(old(model.queue.active), batch)]
      ensures ok ==> memfile.contents == ApplyBatch(old(memfile.contents), batch)
      ensures !ok ==> model == old(model)
    {
      hide Reachable, Step, Enabled, Memfile.Valid, QueueHolds, ApplyBatch, ClonedBytes;
      ActiveIsStored(model);
      MemAddFitsIff(model);
      ok := memfile.CanAdd(batch);
      if ok {
        AddFittingBatch(batch);
      }
    }

    /** The bytes that adding the batch would copy fit behind what the active memfile holds. */
    ghost predicate CanAdd(batch: Batch)
      reads this, memfile
    {
      |memfile.buffer| + ClonedBytes(memfile.contents, batch) <= CAPACITY
    }

    predicate HasSpace(batch: Batch)
      reads this, memfile
    {
      |memfile.buffer| + BatchBytes(batch) <= CAPACITY
    }

    /** The last part of EngineRace::write, once there is room: the log first, then the memfile. */
    method Finish(batch: Batch, o: Outcomes) returns (r: WriteResult, ghost es: seq<Event>)
      requires Valid() && model.writer == Roomed(batch)
      modifies this`model, disk`logs, memfile
      ensures Valid() && Leads(old(model), es, model)
      ensures model.writer == if r == Overflow then Logged(batch) else Idle
      ensures EndsAs(es, r)
      ensures r == if o.failAt >= |batch| && o.flushed then (if old(CanAdd(batch)) then Done else Overflow) else Threw
      ensures old(HasSpace(batch)) ==> r != Overflow
      ensures old(memfile.contents == map[] && memfile.buffer == []) ==> (old(CanAdd(batch)) <==> Fitting(batch))
      ensures if r == Done then Meaning(model) == ApplyBatch(old(Meaning(model)), batch)
              else Meaning(model) == old(Meaning(model))
    {
      hide Valid, Step, Enabled, Inv, EndsAs;
      ClonedAtMostBatch(memfile.contents, batch);
      var ok, e := LogBatch(batch, o);
      LeadsOn(old(model), [], old(model), e);
      assert [] + [e] == [e];
      es := [e];
      if !ok {
        return Threw, es;
      }
      EndsNow(es);
      ghost var s := model;
      ok := AddBatch(batch);
      if !ok {
        return Overflow, es;
      }
      LeadsOn(old(model), es, s, Writing(MemAdd));
      BatchesSnoc(s.hist, Commit(s.queue.active, batch));
      ReplaySnoc(Batches(s.hist), batch);
      es := es + [Writing(MemAdd)];
      r := Done;
    }

    /** wait_for_room_ up to its first wait: there is room, or the queue is full, or it is time to switch. */
    method CheckRoom(batch: Batch) returns (room: Room, ghost es: seq<Event>)
      requires Valid() && model.writer == Waiting(batch)
      modifies this`model, allocator
      ensures Valid() && Leads(old(model), es, model) && model.hist == old(model.hist)
      ensures match room
              case Fits => model.writer == Roomed(batch)
              case Full => model.writer == Blocked(batch)
              case NeedsSwitch => model.writer == Waiting(batch) && Switching(model)
      ensures room.Fits? <==> HasSpace(batch)
      ensures room.Full? <==> !HasSpace(batch) && |immutable| >= MAX_IMMUTABLE
      ensures model.future == old(model.future)
    {
      hide Reachable, Memfile.Valid, Step, Enabled;
      es := [];
      ActiveIsStored(model);
      WriterCan(model);
      var fits := memfile.HasRoomFor(batch);
      if fits {
        LeadsOn(model, es, model, Writing(RoomFound));
        Control(RoomFound, allocator.future);
        return Fits, es + [Writing(RoomFound)];
      }
      if |immutable| >= MAX_IMMUTABLE {
        LeadsOn(model, es, model, Writing(QueueFull));
        Control(QueueFull, allocator.future);
        return Full, es + [Writing(QueueFull)];
      }
      room := NeedsSwitch;
    }

    /** EngineRace::write up to its end, or up to the wait for a dump when the queue is full. */
    method Write(batch: Batch, o: Outcomes) returns (r: WriteResult, ghost es: seq<Event>)
      requires Valid() && model.writer.Idle?
      modifies this, allocator, meta, disk`logs, memfile
      ensures Valid() && Leads(old(model), es, model)
      ensures model.writer == if r == StillWaiting then Blocked(batch) else if r == Overflow then Logged(batch) else Idle
      ensures EndsAs(es, r)
      ensures r != Busy
      ensures r == StillWaiting <==> old(!HasSpace(batch) && |immutable| >= MAX_IMMUTABLE)
      ensures r == Done || r == Overflow <==>
        && o.failAt >= |batch| && o.flushed
        && old(HasSpace(batch) || (|immutable| < MAX_IMMUTABLE && Allocates(model.future, o)))
      ensures r == Done ==> old(HasSpace(batch)) || Fitting(batch)
      ensures r == Overflow ==> !old(HasSpace(batch)) && !Fitting(batch)
      ensures Meaning(model) == if r == Done then ApplyBatch(old(Meaning(model)), batch) else old(Meaning(model))
    {
      hide Valid, Step, Enabled, Inv, EndsAs;
      CanBegin();
      LeadsOn(model, [], model, Writing(Begin(batch)));
      Control(Begin(batch), allocator.future);
      es := [] + [Writing(Begin(batch))];
      ghost var s := model;
      var room, fs := CheckRoom(batch);
      LeadsThrough(old(model), es, s, fs, model);
      es := es + fs;
      if room.Full? {
        EndsNow(es);
        return StillWaiting, es;
      }
      if room.NeedsSwitch? {
        s := model;
        var ok, gs := AllocateAndSwitch(o);
        LeadsThrough(old(model), es, s, gs, model);
        if !ok {
          EndsAfter(es, gs, Threw);
          return Threw, es + gs;
        }
        es := es + gs;
      }
      s := model;
      var end, hs := Finish(batch, o);
      LeadsThrough(old(model), es, s, hs, model);
      EndsAfter(es, hs, end);
      es := es + hs;
      r := end;
    }

    /** The commit thread wakes up from its wait: it gives up on a timeout, waits on, or switches and goes on. */
    method ResumeWrite(batch: Batch, timedOut: bool, o: Outcomes) returns (r: WriteResult, ghost es: seq<Event>)
      requires Valid() && model.writer == Blocked(batch)
      modifies this, allocator, meta, disk`logs, memfile
      ensures Valid() && Leads(old(model), es, model)
      ensures model.writer == if r == StillWaiting then Blocked(batch) else if r == Overflow then Logged(batch) else Idle
      ensures EndsAs(es, r)
      ensures timedOut <==> r == Busy
      ensures r == StillWaiting <==> !timedOut && old(|immutable|) >= MAX_IMMUTABLE
      ensures r == Done || r == Overflow <==>
        !timedOut && o.failAt >= |batch| && o.flushed && old(|immutable| < MAX_IMMUTABLE && Allocates(model.future, o))
      ensures r == Done ==> Fitting(batch)
      ensures r == Overflow ==> !Fitting(batch)
      ensures Meaning(model) == if r == Done then ApplyBatch(old(Meaning(model)), batch) else old(Meaning(model))
    {
      hide Reachable, Memfile.Valid, Step, Enabled, EndsAs;
      es := [];
      ActiveIsStored(model);
      WriterCan(model);
      if timedOut {
        LeadsOn(model, es, model, Writing(RoomTimeout));
        Control(RoomTimeout, allocator.future);
        EndsNow(es);
        return Busy, es + [Writing(RoomTimeout)];
      }
      if |immutable| >= MAX_IMMUTABLE {
        EndsNow(es);
        return StillWaiting, es;
      }
      hide Valid;
      var ok, gs := AllocateAndSwitch(o);
      if !ok {
        return Threw, gs;
      }
      ghost var s := model;
      var end, hs := Finish(batch, o);
      LeadsThrough(old(model), gs, s, hs, model);
      EndsAfter(gs, hs, end);
      es := gs + hs;
      r := end;
    }

    lemma CanBegin()
      requires Valid() && model.writer.Idle?
      ensures forall b :: Enabled(model, Writing(Begin(b)))
      ensures allocator.future == model.future
    {
      hide Reachable;
      ActiveIsStored(model);
      WriterCan(model);
    }

    // ------------------------------------------------- the dump and its callback

    method WriteTable(file: nat, table: KvMap)
      modifies disk`dumps
      ensures disk.dumps == old(disk.dumps)[file := table]
    {
      disk.dumps := disk.dumps[file := table];
    }

    method DumpFront(file: nat)
      requires immutable != [] && immutable[0].Valid()
      modifies disk`dumps
      ensures disk.dumps == old(disk.dumps)[file := immutable[0].contents]
    {
      hide Memfile.Valid;
      var pairs := immutable[0].Values();
      WriteTable(file, ApplyBatch(map[], pairs));
    }

    /** The dumper writes the front memfile in key order; when it fails, part of the file may be there. */
    method RunDump(ghost k: nat, ghost redo: nat, file: nat, ok: bool, partial: KvMap) returns (ghost e: Event)
      requires Valid() && k < |model.flights| && model.flights[k] == Dumping(redo, file)
      modifies this`model, disk`dumps, meta
      ensures Valid() && old(Enabled(model, e)) && model == Step(old(model), e)
      ensures e == Dumper(k, if ok then DumpOk else DumpFail(partial))
      ensures ok ==> model.flights == [Dumped(redo, file)]
      ensures ok ==> immutable != [] && file in disk.dumps && disk.dumps[file] == immutable[0].contents
    {
      hide Reachable, Memfile.Valid, Step, Enabled, DBMeta.Abs;
      e := Dumper(k, if ok then DumpOk else DumpFail(partial));
      DumpTargetsFront(model, k);
      RunDumpEffect(model, ok, partial);
      StepReaches(model, e);
      if ok {
        DumpFront(file);
      } else {
        WriteTable(file, partial);
        ScheduleDump();
      }
      model := Step(model, e);
    }

    method SaveMetadata(redo: nat, file: nat, ghost list: seq<nat>)
      requires Valid() && model.flights == [Built(redo, file, list)]
      modifies this`model, meta
      ensures Valid() && old(Enabled(model, Dumper(0, SaveMeta))) && model == Step(old(model), Dumper(0, SaveMeta))
      ensures model.flights == [Saved(redo, file, list)]
      ensures meta.redoId == redo && meta.sorted == old(meta.sorted) + [file]
    {
      hide Reachable, Memfile.Valid, Step, Enabled, Inv;
      ReachableInv(model);
      CheckpointMovesForward(model, 0);
      SaveEffect(model);
      StepReaches(model, Dumper(0, SaveMeta));
      meta.Checkpoint(redo, file);
      model := Step(model, Dumper(0, SaveMeta));
    }

    method PublishTables(ghost redo: nat, ghost file: nat, list: seq<nat>)
      requires Valid() && model.flights == [Saved(redo, file, list)]
      modifies this`model, files
      ensures Valid() && old(Enabled(model, Dumper(0, Publish))) && model == Step(old(model), Dumper(0, Publish))
      ensures model.flights == [Published(redo, file)] && files.sstables == list
    {
      hide Reachable, Memfile.Valid, Step, Enabled;
      PublishEffect(model);
      StepReaches(model, Dumper(0, Publish));
      files.Apply(list);
      model := Step(model, Dumper(0, Publish));
    }

    method PopFront(ghost redo: nat, ghost file: nat)
      requires Valid() && model.flights == [Published(redo, file)]
      modifies this`model, this`immutable, meta
      ensures Valid() && old(Enabled(model, Dumper(0, Pop))) && model == Step(old(model), Dumper(0, Pop))
      ensures old(immutable) != [] && immutable == old(immutable)[1..]
      ensures meta.redoId == old(meta.redoId) && meta.sorted == old(meta.sorted)
    {
      hide Reachable, Memfile.Valid, Step, Enabled;
      DumpTargetsFront(model, 0);
      PopEffect(model);
      StepReaches(model, Dumper(0, Pop));
      immutable := immutable[1..];
      ScheduleDump();
      model := Step(model, Dumper(0, Pop));
    }

    /** A step of the callback that only moves its control point. */
    method Callback(d: DumpEvent)
      requires Valid() && (d.Build? || d.BuildFail? || d.SaveFail?)
      requires |model.flights| == 1 && if d.SaveFail? then model.flights[0].Built? else model.flights[0].Dumped?
      modifies this`model
      ensures Valid() && old(Enabled(model, Dumper(0, d))) && model == Step(old(model), Dumper(0, d))
      ensures model.tables == old(model.tables)
      ensures model.flights == [if d.Build?
        then Built(old(model.flights[0].redo), old(model.flights[0].file), old(model.tables) + [old(model.flights[0].file)])
        else Dumped(old(model.flights[0].redo), old(model.flights[0].file))]
    {
      hide Reachable, Memfile.Valid, Step, Enabled;
      CallbackEffect(model, d);
      StepReaches(model, Dumper(0, d));
      model := Step(model, Dumper(0, d));
    }

    /**
      on_dump_completed_ of any dump in flight.  When building the list or checkpointing throws, nothing has
      changed and the callback can be run again; otherwise the front of the queue is now a published table.
     */
    method OnDumpCompleted(ghost k: nat, redo: nat, file: nat, buildable: bool, savable: bool)
      returns (done: bool, ghost es: seq<Event>)
      requires Valid() && k < |model.flights| && model.flights[k] == Dumped(redo, file)
      modifies this`model, this`immutable, meta, files
      ensures Valid() && Leads(old(model), es, model)
      ensures done <==> buildable && savable
      ensures !done ==> model.flights == [Dumped(redo, file)] && immutable == old(immutable)
      ensures !done ==> meta.Abs() == old(meta.Abs()) && files.sstables == old(files.sstables)
      ensures done ==> old(immutable) != [] && immutable == old(immutable)[1..] && meta.redoId == redo
      ensures done ==> meta.sorted == old(meta.sorted) + [file] && files.sstables == old(files.sstables) + [file]
    {
      hide Reachable, Memfile.Valid, Step, Enabled, MemoryOk, Inv;
      DumpTargetsFront(model, k);
      if !buildable {
        Callback(BuildFail);
        LeadsOn(old(model), [], old(model), Dumper(0, BuildFail));
        return false, [] + [Dumper(0, BuildFail)];
      }
      var list := files.BuildNewState(file);
      Callback(Build);
      LeadsOn(old(model), [], old(model), Dumper(0, Build));
      es := [] + [Dumper(0, Build)];
      ghost var s := model;
      if !savable {
        Callback(SaveFail);
        LeadsOn(old(model), es, s, Dumper(0, SaveFail));
        return false, es + [Dumper(0, SaveFail)];
      }
      SaveMetadata(redo, file, list);
      LeadsOn(old(model), es, s, Dumper(0, SaveMeta));
      es := es + [Dumper(0, SaveMeta)];
      s := model;
      PublishTables(redo, file, list);
      LeadsOn(old(model), es, s, Dumper(0, Publish));
      es := es + [Dumper(0, Publish)];
      s := model;
      PopFront(redo, file);
      LeadsOn(old(model), es, s, Dumper(0, Pop));
      es := es + [Dumper(0, Pop)];
      done := true;
    }

    // ---------------------------------------------------------------------- gc

    method GcStarts(ghost gc: nat) returns (bound: nat)
      requires Valid() && gc < |model.gcs| && model.gcs[gc].Owed?
      modifies this`model
      ensures Valid() && old(Enabled(model, Collect(GcRead(gc)))) && model == Step(old(model), Collect(GcRead(gc)))
      ensures bound == meta.redoId && gc < |model.gcs| && model.gcs[gc] == Bounded(bound)
    {
      hide Reachable, Memfile.Valid, Step, Enabled;
      GcReadEffect(model, gc);
      StepReaches(model, Collect(GcRead(gc)));
      bound := meta.redoId;
      model := Step(model, Collect(GcRead(gc)));
    }

    method GcLists(ghost gc: nat, bound: nat, listing: seq<nat>) returns (victims: seq<nat>)
      requires Valid() && gc < |model.gcs| && model.gcs[gc] == Bounded(bound)
      requires Distinct(listing) && forall id :: id in listing ==> id in disk.logs
      modifies this`model
      ensures Valid() && old(Enabled(model, Collect(GcList(gc, Elements(victims)))))
      ensures model == Step(old(model), Collect(GcList(gc, Elements(victims))))
      ensures gc < |model.gcs| && model.gcs[gc] == Deleting(Elements(victims)) && Distinct(victims)
      ensures |victims| <= MAX_GC && forall id :: id in victims ==> id in listing && id < bound
      ensures |victims| < MAX_GC ==> forall id :: id in listing && id < bound ==> id in victims
    {
      hide Reachable, Memfile.Valid, Step, Enabled;
      victims := PickVictims(bound, listing);
      FewElements(victims);
      GcListEffect(model, gc, Elements(victims));
      StepReaches(model, Collect(GcList(gc, Elements(victims))));
      model := Step(model, Collect(GcList(gc, Elements(victims))));
    }

    method GcDeletes(ghost gc: nat, ghost left: set<nat>, id: nat)
      requires Valid() && gc < |model.gcs| && model.gcs[gc] == Deleting(left) && id in left
      modifies this`model, disk`logs
      ensures Valid() && old(Enabled(model, Collect(GcDelete(gc, id)))) && model == Step(old(model), Collect(GcDelete(gc, id)))
      ensures disk.logs == old(disk.logs) - {id}
      ensures gc < |old(model.gcs)| && model.gcs == old(model.gcs)[gc := Deleting(left - {id})]
    {
      hide Reachable, Memfile.Valid, Step, Enabled;
      GcDeleteEffect(model, gc, id);
      StepReaches(model, Collect(GcDelete(gc, id)));
      disk.logs := disk.logs - {id};
      model := Step(model, Collect(GcDelete(gc, id)));
    }

    method GcEnds(ghost gc: nat)
      requires Valid() && gc < |model.gcs|
      modifies this`model
      ensures Valid() && old(Enabled(model, Collect(GcEnd(gc)))) && model == Step(old(model), Collect(GcEnd(gc)))
      ensures model.gcs == old(model.gcs)[..gc] + old(model.gcs)[gc + 1..]
    {
      hide Reachable, Memfile.Valid, Step, Enabled;
      GcEndEffect(model, gc);
      StepReaches(model, Collect(GcEnd(gc)));
      model := Step(model, Collect(GcEnd(gc)));
    }

    /** Removes the chosen logs one by one until one removal throws, and ends. */
    method GcRemoves(ghost gc: nat, victims: seq<nat>, failAt: nat) returns (ghost es: seq<Event>)
      requires Valid() && gc < |model.gcs| && model.gcs[gc] == Deleting(Elements(victims)) && Distinct(victims)
      modifies this`model, disk`logs
      ensures Valid() && Leads(old(model), es, model)
      ensures disk.logs == old(disk.logs) - Elements(if failAt < |victims| then victims[..failAt] else victims)
      ensures model.gcs == old(model.gcs)[..gc] + old(model.gcs)[gc + 1..]
    {
      hide Valid, Step, Enabled;
      es := [];
      ghost var gcs := model.gcs;
      var i := 0;
      while i < |victims| && i != failAt
        modifies this`model, disk`logs
        invariant 0 <= i <= |victims| && i <= failAt
        invariant Valid() && Leads(old(model), es, model)
        invariant disk.logs == old(disk.logs) - Elements(victims[..i])
        invariant gc < |gcs| && model.gcs == gcs[gc := Deleting(Elements(victims[i..]))]
      {
        NextVictim(victims, i);
        ghost var s := model;
        GcDeletes(gc, Elements(victims[i..]), victims[i]);
        LeadsOn(old(model), es, s, Collect(GcDelete(gc, victims[i])));
        es := es + [Collect(GcDelete(gc, victims[i]))];
        i := i + 1;
      }
      assert victims[..|victims|] == victims;
      ghost var s := model;
      GcEnds(gc);
      LeadsOn(old(model), es, s, Collect(GcEnd(gc)));
      es := es + [Collect(GcEnd(gc))];
    }

    // ------------------------------------------------------------------- reads

    /** snapshot_: the memfiles under the lock, newest first. */
    method CaptureMemfiles() returns (mems: seq<Memfile>)
      requires Valid()
      ensures QueueHolds(mems, Captured(model), model.memfiles)
      ensures forall m :: m in mems <==> m == memfile || m in immutable
    {
      hide Reachable, Memfile.Valid;
      mems := [memfile];
      var i := |immutable|;
      while i > 0
        invariant 0 <= i <= |immutable|
        invariant |mems| == 1 + |immutable| - i
        invariant mems[0] == memfile
        invariant forall k :: 1 <= k < |mems| ==> mems[k] == immutable[|immutable| - k]
      {
        i := i - 1;
        mems := mems + [immutable[i]];
      }
      forall m | m in immutable ensures m in mems {
        var x :| 0 <= x < |immutable| && immutable[x] == m;
        assert mems[|immutable| - x] == m;
      }
      ghost var ids := model.queue.immutable;
      if ids != [] {
        ReversedAt(ids, 0);
      }
      assert |Captured(model)| == |mems|;
      forall k | 1 <= k < |mems| ensures Holds(mems[k], Captured(model)[k], model.memfiles) {
        ReversedAt(ids, k - 1);
        assert Holds(immutable[|ids| - k], ids[|ids| - k], model.memfiles);
      }
    }

    /** EngineRace::Read while nothing else happens: the current value, or none. */
    method Read(key: Bytes) returns (r: Answer)
      requires Valid()
      ensures r.Found? ==> key in Meaning(model) && Meaning(model)[key] == r.value
      ensures r == NotFound ==> key !in Meaning(model)
      ensures r == StubReached <==> files.sstables != [] && key !in memfile.contents && forall m :: m in immutable ==> key !in m.contents
    {
      hide Reachable, Memfile.Valid, Meaning, Captured, AnswerOf;
      var mems := CaptureMemfiles();
      var tables := files.Snapshot();
      AllValid(mems, Captured(model), model.memfiles);
      r := SnapshotRead(mems, tables, key);
      StillRead(model, Contents(mems), key);
    }
  }

  /** What the memfile objects stand for, in the order of the list. */
  ghost function Contents(mems: seq<Memfile>): (looks: seq<KvMap>)
    reads mems
    ensures |looks| == |mems| && forall k :: 0 <= k < |mems| ==> looks[k] == mems[k].contents
  {
    seq(|mems|, k requires 0 <= k < |mems| reads mems => mems[k].contents)
  }

  /** Snapshot::read over memfiles that are not written meanwhile: the first hit wins, and only then tables matter. */
  method SnapshotRead(mems: seq<Memfile>, tables: seq<nat>, key: Bytes) returns (r: Answer)
    requires forall m :: m in mems ==> m.Valid()
    ensures r == AnswerOf(Contents(mems), tables, key)
    ensures match r
            case Found(v) =>
              exists q :: 0 <= q < |mems| && key in mems[q].contents && mems[q].contents[key] == v
                       && forall k :: 0 <= k < q ==> key !in mems[k].contents
            case NotFound => tables == [] && forall m :: m in mems ==> key !in m.contents
            case StubReached => tables != [] && forall m :: m in mems ==> key !in m.contents
  {
    for q := 0 to |mems|
      invariant forall k :: 0 <= k < q ==> key !in mems[k].contents
    {
      var hit := mems[q].Read(key);
      if hit.Present? {
        FirstIs(Contents(mems), key, q);
        return Found(hit.value);
      }
    }
    FirstIs(Contents(mems), key, |mems|);
    r := if tables == [] then NotFound else StubReached;
  }

  lemma FirstIs(looks: seq<KvMap>, key: Bytes, q: nat)
    requires q <= |looks| && (forall k :: 0 <= k < q ==> key !in looks[k]) && (q < |looks| ==> key in looks[q])
    ensures FirstWith(looks, key) == q
  {
  }

  lemma AllValid(ms: seq<Memfile>, ids: seq<nat>, memfiles: map<nat, KvMap>)
    requires QueueHolds(ms, ids, memfiles)
    ensures forall m :: m in ms ==> m.Valid()
    ensures |ms| == |ids| && forall k :: 0 <= k < |ms| ==> ms[k].contents == At(memfiles, ids[k])
  {
  }

  /** A capture and the looks into it, all in one state, give the current value. */
  lemma StillRead(s: State, looks: seq<KvMap>, key: Bytes)
    requires Reachable(s) && |looks| == |Captured(s)|
    requires forall k :: 0 <= k < |looks| ==> looks[k] == At(s.memfiles, Captured(s)[k])
    ensures var r := AnswerOf(looks, s.tables, key);
      && (r.Found? ==> key in Meaning(s) && Meaning(s)[key] == r.value)
      && (r == NotFound ==> key !in Meaning(s))
  {
    var run :| Run(run) && run[|run| - 1] == s;
    hide Run, Captured, At, Meaning;
    var last := |run| - 1;
    var times := seq(|looks|, k => last);
    assert looks == Looks(run, Captured(s), times);
    ReadsAreCurrent(run, last, last, times, key);
  }
}
