/**
  Reads.  A reader captures the memfiles under the lock, later the table list,
  and then looks into the captured memfiles one by one while everything else
  goes on; the captured active memfile keeps growing under it.
 */
module EngineReads {
  import opened Updates
  import opened EngineState
  import opened EngineInvariant
  import opened EngineRuns

  function Reversed(ids: seq<nat>): seq<nat> {
    if ids == [] then [] else [ids[|ids| - 1]] + Reversed(ids[..|ids| - 1])
  }

  /** The memfiles snapshot_ collects: the active one, then the queue from newest to oldest. */
  function Captured(s: State): seq<nat> {
    [s.queue.active] + Reversed(s.queue.immutable)
  }

  /** What the captured memfiles hold when they are looked at, the k-th one in state times[k]. */
  function Looks(run: seq<State>, mems: seq<nat>, times: seq<nat>): (looks: seq<KvMap>)
    requires |mems| == |times| && forall t :: t in times ==> t < |run|
    ensures |looks| == |mems| && forall k :: 0 <= k < |mems| ==> times[k] in times && looks[k] == At(run[times[k]].memfiles, mems[k])
  {
    seq(|mems|, k requires 0 <= k < |mems| => assert times[k] in times; At(run[times[k]].memfiles, mems[k]))
  }

  /** The position of the first memfile that has the key, or the end. */
  function FirstWith(looks: seq<KvMap>, key: Bytes): (q: nat)
    ensures q <= |looks|
    ensures forall k :: 0 <= k < q ==> key !in looks[k]
    ensures q < |looks| ==> key in looks[q]
  {
    if looks == [] || key in looks[0] then 0 else 1 + FirstWith(looks[1..], key)
  }

  /** The outcome of a read; a miss with a captured table ends in SSTable::read, which is a stub. */
  datatype Answer = Found(value: Bytes) | NotFound | StubReached

  function AnswerOf(looks: seq<KvMap>, tables: seq<nat>, key: Bytes): Answer {
    var q := FirstWith(looks, key);
    if q < |looks| then Found(looks[q][key]) else if tables == [] then NotFound else StubReached
  }

  /** Captures the memfiles in state i and the tables in state j. */
  function Read(run: seq<State>, i: nat, j: nat, times: seq<nat>, key: Bytes): Answer
    requires i <= j < |run| && |times| == |Captured(run[i])| && forall t :: t in times ==> t < |run|
  {
    AnswerOf(Looks(run, Captured(run[i]), times), run[j].tables, key)
  }

  /**
    A read finds the key if and only if some captured memfile has it when it is looked at, whatever tables
    there are, and the value is that of the first such memfile; it ends without a value only if none has it,
    and then the table list decides how.
   */
  lemma ReadFindsFirst(run: seq<State>, i: nat, j: nat, times: seq<nat>, key: Bytes)
    requires i <= j < |run| && |times| == |Captured(run[i])| && forall t :: t in times ==> t < |run|
    ensures forall k :: 0 <= k < |times| ==> times[k] in times
    ensures var r, mems := Read(run, i, j, times, key), Captured(run[i]);
      && (r.Found? <==> exists k :: 0 <= k < |times| && key in At(run[times[k]].memfiles, mems[k]))
      && (forall k :: 0 <= k < |times| && key in At(run[times[k]].memfiles, mems[k])
            && (forall l :: 0 <= l < k ==> key !in At(run[times[l]].memfiles, mems[l]))
            ==> r == Found(At(run[times[k]].memfiles, mems[k])[key]))
      && (r == NotFound <==> run[j].tables == [] && forall k :: 0 <= k < |times| ==> key !in At(run[times[k]].memfiles, mems[k]))
      && (r == StubReached <==> run[j].tables != [] && forall k :: 0 <= k < |times| ==> key !in At(run[times[k]].memfiles, mems[k]))
  {
    var mems := Captured(run[i]);
    var looks := Looks(run, mems, times);
    var q := FirstWith(looks, key);
    hide Captured, At;
    forall k | 0 <= k < |times| && key in At(run[times[k]].memfiles, mems[k])
      && (forall l :: 0 <= l < k ==> key !in At(run[times[l]].memfiles, mems[l]))
      ensures Read(run, i, j, times, key) == Found(At(run[times[k]].memfiles, mems[k])[key])
    {
      assert key in looks[k];
      assert k == q;
    }
  }

  // ------------------------------------------------------- what never goes away

  /** History, chain and tables only grow at their end, only the active memfile changes, and it only gains keys. */
  predicate MemoryGrew(s: State, t: State) {
    && s.past.chain <= t.past.chain
    && s.tables <= t.tables && s.hist <= t.hist
    && (forall id :: id in s.past.chain ==> At(s.memfiles, id).Keys <= At(t.memfiles, id).Keys)
    && (forall id :: id in s.past.chain && id != s.queue.active ==> At(t.memfiles, id) == At(s.memfiles, id))
  }

  lemma MemAddGrows(s: State)
    requires Inv(s) && Enabled(s, Writing(MemAdd))
    ensures MemoryGrew(s, Step(s, Writing(MemAdd)))
    ensures Step(s, Writing(MemAdd)).queue.active == s.queue.active
  {
    hide Inv;
    ApplyKeepsKeys(s.memfiles[s.queue.active], s.writer.batch);
  }

  lemma SwitchGrows(s: State, resubmitted: bool)
    requires Inv(s) && Enabled(s, Writing(Switch(resubmitted)))
    ensures MemoryGrew(s, Step(s, Writing(Switch(resubmitted))))
    ensures forall id :: id in s.past.chain ==>
              At(Step(s, Writing(Switch(resubmitted))).memfiles, id) == At(s.memfiles, id)
  {
    hide QueueInv, IdInv, TablesInv, ContentInv, LogInv, OverlayInv, HomesIn, MetaInv, DumpInv, KnownInv, RoomInv;
    IdsAfterSwitch(s.queue, s.past, s.meta.nextRedo, s.future, resubmitted);
    var t := Install(s, resubmitted);
    assert t.past.chain == s.past.chain + [s.future.id];
    assert t.memfiles == s.memfiles[s.future.id := map[]];
  }

  lemma PublishGrows(s: State, k: nat)
    requires Inv(s) && DumpEnabled(s, k, Publish)
    ensures MemoryGrew(s, DumpStep(s, k, Publish))
    ensures DumpStep(s, k, Publish).memfiles == s.memfiles
  {
    SavedFiles(s, k);
    PublishIs(s, k);
    hide Inv, DumpStep, DumpEnabled;
  }

  lemma PublishIs(s: State, k: nat)
    requires DumpEnabled(s, k, Publish)
    ensures var t := DumpStep(s, k, Publish);
      t.past == s.past && t.hist == s.hist && t.memfiles == s.memfiles && t.queue == s.queue && t.tables == s.flights[k].files
  {
  }

  lemma SavedFiles(s: State, k: nat)
    requires Inv(s) && DumpEnabled(s, k, Publish)
    ensures s.flights[k].files == s.tables + [s.flights[k].file]
  {
    OnlyFlight(s, k);
    hide QueueInv, IdInv, KnownInv, MetaInv, TablesInv, ContentInv, LogInv, OverlayInv, HomesIn, RoomInv, GcInv, FutureInv;
  }

  lemma OtherWritesKeepMemory(s: State, w: WriterEvent)
    requires WriterEnabled(s, w) && !w.MemAdd? && !w.Switch?
    ensures WriterStep(s, w).past.chain == s.past.chain
    ensures WriterStep(s, w).tables == s.tables && WriterStep(s, w).memfiles == s.memfiles
    ensures WriterStep(s, w).hist == s.hist
  {
  }

  lemma DumpsKeepMemory(s: State, k: nat, d: DumpEvent)
    requires DumpEnabled(s, k, d) && !d.Publish?
    ensures DumpStep(s, k, d).past.chain == s.past.chain && DumpStep(s, k, d).hist == s.hist
    ensures DumpStep(s, k, d).tables == s.tables && DumpStep(s, k, d).memfiles == s.memfiles
  {
  }

  lemma GcKeepsMemory(s: State, g: GcEvent)
    requires GcEnabled(s, g)
    ensures GcStep(s, g).past.chain == s.past.chain && GcStep(s, g).hist == s.hist
    ensures GcStep(s, g).tables == s.tables && GcStep(s, g).memfiles == s.memfiles
  {
  }

  /** A memfile whose content changes is the active one, and stays so in that step. */
  lemma StepGrows(s: State, e: Event)
    requires Inv(s) && Enabled(s, e)
    ensures MemoryGrew(s, Step(s, e))
    ensures forall id :: id in s.past.chain && At(Step(s, e).memfiles, id) != At(s.memfiles, id) ==>
              id == Step(s, e).queue.active
  {
    hide Inv, WriterEnabled, WriterStep, DumpEnabled, DumpStep, GcEnabled, GcStep;
    match e
    case Writing(w) =>
      if w.MemAdd? {
        MemAddGrows(s);
      } else if w.Switch? {
        SwitchGrows(s, w.resubmitted);
      } else {
        OtherWritesKeepMemory(s, w);
      }
    case Alloc(_, _) =>
    case Dumper(k, d) =>
      if d.Publish? {
        PublishGrows(s, k);
      } else {
        DumpsKeepMemory(s, k, d);
      }
    case Collect(g) => GcKeepsMemory(s, g);
  }

  /** What a state had retired from writing, later states have retired too. */
  lemma LaterActive(s: State, t: State, id: nat)
    requires Inv(s) && Inv(t) && MemoryGrew(s, t) && id in s.past.chain && id != s.queue.active
    ensures id in t.past.chain && id < t.queue.active
  {
    hide Inv;
    ActiveIsLast(s);
    ActiveIsLast(t);
    ChainIncreases(t);
    var k :| 0 <= k < |s.past.chain| && s.past.chain[k] == id;
    assert t.past.chain[k] == id;
    IncreasingAt(t.past.chain, k, |t.past.chain| - 1);
  }

  lemma ChainIncreases(s: State)
    requires Inv(s)
    ensures Increasing(s.past.chain)
  {
  }

  lemma GrowthComposes(s: State, t: State, u: State)
    requires Inv(s) && Inv(t) && MemoryGrew(s, t) && MemoryGrew(t, u)
    ensures MemoryGrew(s, u)
  {
    hide Inv;
    forall id | id in s.past.chain && id != s.queue.active ensures id in t.past.chain && id < t.queue.active {
      LaterActive(s, t, id);
    }
    assert forall id :: id in s.past.chain ==> id in t.past.chain;
  }

  lemma {:induction false} RunGrows(run: seq<State>, i: nat, k: nat)
    requires Run(run) && i <= k < |run|
    ensures Inv(run[i]) && Inv(run[k]) && MemoryGrew(run[i], run[k])
    decreases k - i
  {
    hide Inv, MemoryGrew, Enabled, Step, Run;
    RunKeepsInv(run, i);
    RunKeepsInv(run, k);
    if i == k {
      GrowthIsReflexive(run[i]);
    } else {
      RunGrows(run, i, k - 1);
      var e := EventAt(run, k - 1);
      StepGrows(run[k - 1], e);
      GrowthComposes(run[i], run[k - 1], run[k]);
    }
  }

  lemma GrowthIsReflexive(s: State)
    ensures MemoryGrew(s, s)
  {
  }

  // --------------------------------------------------------------- the lookups

  lemma {:induction false} OverlayAt(m: map<nat, KvMap>, ids: seq<nat>, p: nat, key: Bytes)
    requires p < |ids| && key in At(m, ids[p])
    requires forall q :: p < q < |ids| ==> key !in At(m, ids[q])
    ensures key in Overlay(m, ids) && Overlay(m, ids)[key] == At(m, ids[p])[key]
  {
    if p < |ids| - 1 {
      OverlayAt(m, ids[..|ids| - 1], p, key);
    }
  }

  lemma {:induction false} OverlayNowhere(m: map<nat, KvMap>, ids: seq<nat>, key: Bytes)
    requires forall q :: 0 <= q < |ids| ==> key !in At(m, ids[q])
    ensures key !in Overlay(m, ids)
  {
    if ids != [] {
      OverlayNowhere(m, ids[..|ids| - 1], key);
    }
  }

  lemma {:induction false} ReversedAt(ids: seq<nat>, k: nat)
    requires k < |ids|
    ensures |Reversed(ids)| == |ids| && Reversed(ids)[k] == ids[|ids| - 1 - k]
  {
    if k > 0 {
      ReversedAt(ids[..|ids| - 1], k - 1);
    } else if |ids| > 1 {
      ReversedAt(ids[..|ids| - 1], 0);
    }
  }

  /** The k-th captured memfile is the k-th from the end of the chain. */
  lemma CapturedAt(s: State, k: nat)
    requires Inv(s) && k < |Captured(s)|
    ensures |Captured(s)| == |s.queue.immutable| + 1 == |s.past.chain| - s.past.popped
    ensures Captured(s)[k] == s.past.chain[|s.past.chain| - 1 - k]
  {
    hide Inv;
    ActiveIsLast(s);
    QueueAt(s);
    if s.queue.immutable != [] {
      ReversedAt(s.queue.immutable, 0);
    }
    if k > 0 {
      ReversedAt(s.queue.immutable, k - 1);
    }
  }

  lemma QueueAt(s: State)
    requires Inv(s)
    ensures |s.past.chain| == s.past.popped + |s.queue.immutable| + 1
    ensures forall i :: 0 <= i < |s.queue.immutable| ==> s.queue.immutable[i] == s.past.chain[s.past.popped + i]
  {
    hide TablesInv, ContentInv, LogInv, OverlayInv, HomesIn, MetaInv, DumpInv, KnownInv, IdInv, RoomInv;
  }

  /** A value found in the captured active memfile was the current value at some instant since the capture. */
  lemma {:induction false} ActiveValueWasCurrent(run: seq<State>, i: nat, k: nat, key: Bytes) returns (t: nat)
    requires Run(run) && i <= k < |run| && key in At(run[k].memfiles, run[i].queue.active)
    ensures i <= t <= k
    ensures key in Meaning(run[t]) && Meaning(run[t])[key] == At(run[k].memfiles, run[i].queue.active)[key]
    decreases k - i
  {
    hide Inv, Enabled, Step, MemoryGrew, Meaning, At, Run;
    var id := run[i].queue.active;
    RunGrows(run, i, k);
    if run[k].queue.active == id {
      t := k;
      ActiveWins(run[k], key);
    } else {
      RunGrows(run, i, k - 1);
      var e := EventAt(run, k - 1);
      StepGrows(run[k - 1], e);
      ActiveStaysKnown(run[i], run[k - 1]);
      t := ActiveValueWasCurrent(run, i, k - 1, key);
    }
  }

  lemma EventAt(run: seq<State>, k: nat) returns (e: Event)
    requires Run(run) && k + 1 < |run|
    ensures Enabled(run[k], e) && run[k + 1] == Step(run[k], e)
  {
    hide Enabled, Step, Init;
    assert Next(run[k], run[k + 1]);
    e :| Enabled(run[k], e) && run[k + 1] == Step(run[k], e);
  }

  lemma ActiveStaysKnown(s: State, t: State)
    requires Inv(s) && MemoryGrew(s, t)
    ensures s.queue.active in t.past.chain
  {
    ActiveIsLast(s);
    hide Inv;
    assert t.past.chain[|s.past.chain| - 1] == s.queue.active;
  }

  lemma ActiveWins(s: State, key: Bytes)
    requires Inv(s) && key in At(s.memfiles, s.queue.active)
    ensures key in Meaning(s) && Meaning(s)[key] == At(s.memfiles, s.queue.active)[key]
  {
    hide Inv, At, Overlay, Meaning;
    ActiveIsLast(s);
    ChainMeansHistory(s);
    OverlayAt(s.memfiles, s.past.chain, |s.past.chain| - 1, key);
  }

  // ------------------------------------------------------------ main theorems

  /** What a captured immutable memfile held when captured is what it holds whenever it is looked at; no key is ever lost. */
  lemma CapturedLater(run: seq<State>, i: nat, k: nat, t: nat, key: Bytes)
    requires Run(run) && i <= t < |run| && k < |Captured(run[i])|
    ensures key in At(run[i].memfiles, Captured(run[i])[k]) ==> key in At(run[t].memfiles, Captured(run[i])[k])
    ensures k > 0 ==> At(run[t].memfiles, Captured(run[i])[k]) == At(run[i].memfiles, Captured(run[i])[k])
  {
    hide Inv, Run;
    RunGrows(run, i, t);
    CapturedAt(run[i], k);
    ActiveIsLast(run[i]);
    var id := Captured(run[i])[k];
    assert id in run[i].past.chain;
  }

  /** A key absent from the first q captured memfiles when looked at was absent from them when captured. */
  lemma AbsentWhenCaptured(run: seq<State>, i: nat, times: seq<nat>, q: nat, key: Bytes)
    requires Run(run) && i < |run| && |times| == |Captured(run[i])| && q <= |times|
    requires forall k :: 0 <= k < q ==> i <= times[k] < |run|
    requires forall k :: 0 <= k < q ==> key !in At(run[times[k]].memfiles, Captured(run[i])[k])
    ensures |run[i].past.chain| >= |times|
    ensures forall p :: |run[i].past.chain| - q <= p < |run[i].past.chain| ==> key !in At(run[i].memfiles, run[i].past.chain[p])
  {
    hide Inv, Run, At;
    var s := run[i];
    RunKeepsInv(run, i);
    CapturedAt(s, 0);
    forall p | |s.past.chain| - q <= p < |s.past.chain| ensures key !in At(s.memfiles, s.past.chain[p]) {
      var k := |s.past.chain| - 1 - p;
      CapturedAt(s, k);
      CapturedLater(run, i, k, times[k], key);
    }
  }

  /** Nothing found in any captured memfile, and no table captured: the key was absent at the capture. */
  lemma MissWasAbsent(run: seq<State>, i: nat, j: nat, times: seq<nat>, key: Bytes)
    requires Run(run) && i <= j < |run| && |times| == |Captured(run[i])| && run[j].tables == []
    requires forall k :: 0 <= k < |times| ==> j <= times[k] < |run|
    requires forall k :: 0 <= k < |times| ==> key !in At(run[times[k]].memfiles, Captured(run[i])[k])
    ensures key !in Meaning(run[i])
  {
    hide Inv, Run, At, Meaning, MemoryGrew;
    RunGrows(run, i, j);
    CapturedAt(run[i], 0);
    ChainMeansHistory(run[i]);
    AbsentWhenCaptured(run, i, times, |times|, key);
    NoTableNothingPopped(run[i], run[j]);
    OverlayNowhere(run[i].memfiles, run[i].past.chain, key);
  }

  /** A value found in the q-th captured memfile was current at some instant up to the look. */
  lemma HitWasCurrent(run: seq<State>, i: nat, times: seq<nat>, q: nat, key: Bytes) returns (t: nat)
    requires Run(run) && i < |run| && |times| == |Captured(run[i])| && q < |times|
    requires forall k :: 0 <= k <= q ==> i <= times[k] < |run|
    requires forall k :: 0 <= k < q ==> key !in At(run[times[k]].memfiles, Captured(run[i])[k])
    requires key in At(run[times[q]].memfiles, Captured(run[i])[q])
    ensures i <= t <= times[q] && key in Meaning(run[t])
    ensures Meaning(run[t])[key] == At(run[times[q]].memfiles, Captured(run[i])[q])[key]
  {
    hide Inv, Run, At, Meaning, MemoryGrew;
    if q == 0 {
      t := ActiveValueWasCurrent(run, i, times[0], key);
    } else {
      t := i;
      var s := run[i];
      RunKeepsInv(run, i);
      ChainMeansHistory(s);
      AbsentWhenCaptured(run, i, times, q, key);
      CapturedLater(run, i, q, times[q], key);
      CapturedAt(s, q);
      OverlayAt(s.memfiles, s.past.chain, |s.past.chain| - 1 - q, key);
    }
  }

  /**
    The memfiles are captured in state i, the tables in state j, the k-th captured memfile is looked at in
    state times[k], and anything may happen in between.  A value found was the key's value in the plain map
    at some instant between the capture and the look that found it; if nothing was found and no table had
    been captured, the key was absent from the plain map at the capture.
   */
  lemma ReadsAreCurrent(run: seq<State>, i: nat, j: nat, times: seq<nat>, key: Bytes)
    requires Run(run) && i <= j < |run| && |times| == |Captured(run[i])|
    requires forall t :: t in times ==> j <= t < |run|
    ensures var r := Read(run, i, j, times, key);
      && (r.Found? ==> exists k, t :: 0 <= k < |times| && i <= t <= times[k] < |run| && key in Meaning(run[t])
                                   && Meaning(run[t])[key] == r.value
                                   && key in At(run[times[k]].memfiles, Captured(run[i])[k])
                                   && At(run[times[k]].memfiles, Captured(run[i])[k])[key] == r.value)
      && (r.NotFound? ==> key !in Meaning(run[i]))
  {
    hide Inv, Run, At, Meaning, Captured;
    var looks := Looks(run, Captured(run[i]), times);
    var q := FirstWith(looks, key);
    hide FirstWith, Looks;
    if q < |looks| {
      var t := HitWasCurrent(run, i, times, q, key);
      assert Read(run, i, j, times, key) == Found(looks[q][key]);
    } else if run[j].tables == [] {
      MissWasAbsent(run, i, j, times, key);
    }
  }

  /**
    Read your writes: a key that some captured memfile has at the capture is found, whatever tables there are
    and whatever happens meanwhile, and the value is at least as new as the capture.
   */
  lemma ReadYourWrites(run: seq<State>, i: nat, j: nat, times: seq<nat>, key: Bytes, k: nat)
    requires Run(run) && i <= j < |run| && |times| == |Captured(run[i])|
    requires forall t :: t in times ==> j <= t < |run|
    requires k < |times| && key in At(run[i].memfiles, Captured(run[i])[k])
    ensures var r := Read(run, i, j, times, key);
      && r.Found?
      && exists t :: i <= t < |run| && key in Meaning(run[t]) && Meaning(run[t])[key] == r.value
  {
    hide Inv, Run, At, Meaning, Captured, Read;
    assert times[k] in times;
    CapturedLater(run, i, k, times[k], key);
    ReadFindsFirst(run, i, j, times, key);
    ReadsAreCurrent(run, i, j, times, key);
  }

  lemma NoTableNothingPopped(s: State, t: State)
    requires Inv(s) && MemoryGrew(s, t) && t.tables == []
    ensures s.past.popped == 0
  {
    PublishedTables(s);
    hide Inv;
  }

  lemma HomeIsInChain(s: State, c: nat)
    requires Inv(s) && c < |s.hist|
    ensures s.hist[c].home in s.past.chain
  {
  }

  lemma {:induction false} BatchesOfGrow(hist: seq<Commit>, later: seq<Commit>, home: nat)
    requires hist <= later
    ensures BatchesOf(hist, home) <= BatchesOf(later, home)
  {
    if hist != later {
      BatchesOfGrow(hist, later[..|later| - 1], home);
    }
  }

  /** The snapshot has the memfile of this id, with the acknowledged batches of that moment in it. */
  predicate InMemory(s: State, home: nat) {
    home in Captured(s) && home in s.memfiles && s.memfiles[home] == Replay(BatchesOf(s.hist, home))
  }

  /** The snapshot has a table holding the acknowledged batches of the memfile of this id. */
  ghost predicate InTables(t: State, home: nat) {
    exists k :: 0 <= k < |t.tables| && t.tables[k] in t.dumps && t.dumps[t.tables[k]] == Replay(BatchesOf(t.hist, home))
  }

  /**
    A snapshot misses nothing: a batch acknowledged before the memfiles were captured is one of the batches
    of a captured memfile, or of a captured table, however many more of that memfile were acknowledged since.
   */
  lemma SnapshotCoversCommits(run: seq<State>, i: nat, j: nat, c: nat)
    requires Run(run) && i <= j < |run| && c < |run[i].hist|
    ensures run[i].hist <= run[j].hist
    ensures var home := run[i].hist[c].home;
      && run[i].hist[c].batch in BatchesOf(run[i].hist, home)
      && BatchesOf(run[i].hist, home) <= BatchesOf(run[j].hist, home)
      && (InMemory(run[i], home) || InTables(run[j], home))
  {
    hide Inv, Run, InMemory, InTables;
    var s, t, home := run[i], run[j], run[i].hist[c].home;
    RunGrows(run, i, j);
    CommitIsInItsHome(s.hist, c);
    BatchesOfGrow(s.hist, t.hist, home);
    HomeIsInChain(s, c);
    var k :| 0 <= k < |s.past.chain| && s.past.chain[k] == home;
    if k < s.past.popped {
      PoppedIsInTables(s, t, k);
    } else {
      UnpoppedIsInMemory(s, k);
    }
  }

  lemma PoppedIsInTables(s: State, t: State, k: nat)
    requires Inv(s) && Inv(t) && MemoryGrew(s, t) && k < s.past.popped && k < |s.past.chain|
    ensures InTables(t, s.past.chain[k])
  {
    PublishedTables(s);
    PublishedTables(t);
    hide Inv;
    assert t.past.chain[k] == s.past.chain[k];
    ContentAt(t, t.past.chain[k]);
  }

  lemma UnpoppedIsInMemory(s: State, k: nat)
    requires Inv(s) && s.past.popped <= k < |s.past.chain|
    ensures InMemory(s, s.past.chain[k])
  {
    hide Inv;
    CapturedAt(s, 0);
    CapturedAt(s, |s.past.chain| - 1 - k);
    ContentAt(s, s.past.chain[k]);
  }
}
