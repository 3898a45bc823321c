/**
  The committer and the engine together: the updater that the committer calls
  is EngineRace::write, and everything else of both goes on while it runs.
 */
module Service {
  import opened Updates
  import E = EngineState
  import EngineInvariant
  import EngineRuns
  import C = BatchCommitter

  /** The events that ended the writes so far are history. */
  datatype State = State(engine: E.State, committer: C.State, ends: seq<E.WriterEvent>)

  datatype Event =
    | Committer(c: C.Event)
    | BeginWrite
    | Engine(e: E.Event)
    | EndWrite(w: E.WriterEvent)

  /** The events with which EngineRace::write returns or throws. */
  predicate Ends(w: E.WriterEvent) {
    w.RoomTimeout? || w.AllocSubmitFail? || w.SwitchFail? || w.SwitchLost? || w.LogFail? || w.MemAdd?
  }

  /** What the committer sees of them: true, false, or an exception. */
  function VerdictOf(w: E.WriterEvent): C.Verdict {
    if w.MemAdd? then C.Accepted else if w.RoomTimeout? then C.Refused else C.Thrown
  }

  predicate Enabled(s: State, e: Event) {
    match e
    case Committer(c) => C.Enabled(s.committer, c) && !c.Call? && !c.Return?
    case BeginWrite => C.Enabled(s.committer, C.Call) && E.WriterEnabled(s.engine, E.Begin(s.committer.batch))
    case Engine(x) => E.Enabled(s.engine, x) && !(x.Writing? && (x.w.Begin? || Ends(x.w)))
    case EndWrite(w) => E.WriterEnabled(s.engine, w) && Ends(w) && C.Enabled(s.committer, C.Return(VerdictOf(w)))
  }

  function Step(s: State, e: Event): State
    requires Enabled(s, e)
  {
    match e
    case Committer(c) => s.(committer := C.Step(s.committer, c))
    case BeginWrite =>
      State(E.WriterStep(s.engine, E.Begin(s.committer.batch)), C.Step(s.committer, C.Call), s.ends)
    case Engine(x) => s.(engine := E.Step(s.engine, x))
    case EndWrite(w) =>
      State(E.WriterStep(s.engine, w), C.Step(s.committer, C.Return(VerdictOf(w))), s.ends + [w])
  }

  ghost predicate Next(s: State, t: State) {
    exists e :: Enabled(s, e) && t == Step(s, e)
  }

  ghost predicate Run(run: seq<State>) {
    && run != [] && E.Init(run[0].engine) && run[0].committer == C.Initial() && run[0].ends == []
    && (forall i, j :: 0 <= i < j < |run| && j == i + 1 ==> Next(run[i], run[j]))
  }

  // --------------------------------------------------------------- invariant

  /** The batches the engine acknowledged are the ones the committer saw accepted; one write runs at a time. */
  predicate LinkInv(writer: E.Writer, batches: seq<Batch>, c: C.State) {
    && batches == C.AcceptedBatches(c.rounds)
    && (c.stage.Calling? <==> !writer.Idle?)
    && (c.stage.Calling? ==> writer.batch == c.batch)
  }

  /** The answers of the updater, in order. */
  function Verdicts(rounds: seq<C.Round>): seq<C.Verdict> {
    if rounds == [] then []
    else
      var last := rounds[|rounds| - 1];
      Verdicts(rounds[..|rounds| - 1]) + (if last.cause.Answered? then [last.cause.verdict] else [])
  }

  /** The batch was added, or the wait for a dump timed out, or no log could be had or the append failed. */
  predicate Answers(w: E.WriterEvent, verdict: C.Verdict) {
    && (verdict.Accepted? <==> w.MemAdd?)
    && (verdict.Refused? <==> w.RoomTimeout?)
    && (verdict.Thrown? <==> w.AllocSubmitFail? || w.SwitchFail? || w.SwitchLost? || w.LogFail?)
  }

  /** The k-th answer is that of the event that ended the k-th write. */
  predicate EndsInv(ends: seq<E.WriterEvent>, verdicts: seq<C.Verdict>) {
    |ends| == |verdicts| && forall k :: 0 <= k < |ends| ==> Answers(ends[k], verdicts[k])
  }

  ghost predicate Inv(s: State) {
    && E.Inv(s.engine) && C.Inv(s.committer)
    && LinkInv(s.engine.writer, E.Batches(s.engine.hist), s.committer)
    && EndsInv(s.ends, Verdicts(s.committer.rounds))
  }

  lemma AcceptedSnoc(rounds: seq<C.Round>, r: C.Round)
    ensures C.AcceptedBatches(rounds + [r]) == C.AcceptedBatches(rounds) + (if r.cause == C.Answered(C.Accepted) then [r.updates] else [])
  {
    assert (rounds + [r])[..|rounds|] == rounds;
  }

  lemma VerdictsSnoc(rounds: seq<C.Round>, r: C.Round)
    ensures Verdicts(rounds + [r]) == Verdicts(rounds) + (if r.cause.Answered? then [r.cause.verdict] else [])
  {
    assert (rounds + [r])[..|rounds|] == rounds;
  }

  /** Pieces of the committer other than the call change no accepted batch and do not touch a running write. */
  lemma CommitterKeepsLink(s: C.State, c: C.Event)
    requires C.Enabled(s, c) && !c.Call? && !c.Return?
    ensures var t := C.Step(s, c);
      && C.AcceptedBatches(t.rounds) == C.AcceptedBatches(s.rounds) && Verdicts(t.rounds) == Verdicts(s.rounds)
      && (t.stage.Calling? <==> s.stage.Calling?) && (t.stage.Calling? ==> t.batch == s.batch)
  {
    hide C.AcceptedBatches, Verdicts;
    if c.CopyFail? {
      AcceptedSnoc(s.rounds, C.Round(C.UpdatesIn(s.inProcess), C.Exception, C.NotCopied));
      VerdictsSnoc(s.rounds, C.Round(C.UpdatesIn(s.inProcess), C.Exception, C.NotCopied));
    } else if c.Leave? {
      AcceptedSnoc(s.rounds, C.Round(C.UpdatesIn(s.queue), C.ServerBusy, C.Drained));
      VerdictsSnoc(s.rounds, C.Round(C.UpdatesIn(s.queue), C.ServerBusy, C.Drained));
    }
  }

  lemma WriterGoesOn(s: E.State, w: E.WriterEvent)
    requires E.WriterEnabled(s, w) && !w.Begin? && !Ends(w)
    ensures !s.writer.Idle? && !E.WriterStep(s, w).writer.Idle? && E.WriterStep(s, w).writer.batch == s.writer.batch
    ensures E.WriterStep(s, w).hist == s.hist
  {
  }

  lemma EngineKeepsLink(s: E.State, e: E.Event)
    requires E.Enabled(s, e) && !(e.Writing? && (e.w.Begin? || Ends(e.w)))
    ensures var t := E.Step(s, e);
      && t.hist == s.hist && (t.writer.Idle? <==> s.writer.Idle?)
      && (!t.writer.Idle? ==> t.writer.batch == s.writer.batch)
  {
    if e.Writing? {
      WriterGoesOn(s, e.w);
      hide E.WriterEnabled, E.WriterStep;
    } else {
      EngineRuns.OtherStepsKeepWriter(s, e);
      hide E.Enabled, E.Step;
    }
  }

  lemma BeginIs(s: E.State, batch: Batch)
    requires E.WriterEnabled(s, E.Begin(batch))
    ensures E.WriterStep(s, E.Begin(batch)) == s.(writer := E.Waiting(batch)) && s.writer.Idle?
  {
  }

  lemma EndIs(s: E.State, w: E.WriterEvent)
    requires E.WriterEnabled(s, w) && Ends(w)
    ensures !s.writer.Idle? && E.WriterStep(s, w).writer.Idle?
    ensures E.WriterStep(s, w).hist == if w.MemAdd? then s.hist + [E.Commit(s.queue.active, s.writer.batch)] else s.hist
  {
  }

  lemma ReturnIs(s: C.State, verdict: C.Verdict)
    requires C.Inv(s) && C.Enabled(s, C.Return(verdict))
    ensures C.Step(s, C.Return(verdict)).stage.Finishing?
    ensures C.AcceptedBatches(C.Step(s, C.Return(verdict)).rounds)
         == C.AcceptedBatches(s.rounds) + (if verdict.Accepted? then [s.batch] else [])
    ensures Verdicts(C.Step(s, C.Return(verdict)).rounds) == Verdicts(s.rounds) + [verdict]
  {
    VerdictsSnoc(s.rounds, C.Round(C.UpdatesIn(s.inProcess), C.OutcomeOf(verdict), C.Answered(verdict)));
    hide Verdicts, C.AcceptedBatches, C.UpdatesOf, C.OutcomesOf, C.OrderInv, C.PromiseInv, C.CauseInv;
    AcceptedSnoc(s.rounds, C.Round(C.UpdatesIn(s.inProcess), C.OutcomeOf(verdict), C.Answered(verdict)));
  }

  lemma CallIs(s: C.State)
    requires C.Enabled(s, C.Call)
    ensures C.Step(s, C.Call) == s.(stage := C.Calling) && !s.stage.Calling?
  {
  }

  lemma EndKeepsInv(s: State, w: E.WriterEvent)
    requires Inv(s) && Enabled(s, EndWrite(w))
    ensures Inv(Step(s, EndWrite(w)))
  {
    hide E.Inv, E.Batches, E.WriterEnabled, E.WriterStep, C.Inv, C.Enabled, C.Step, C.AcceptedBatches, Verdicts;
    EngineInvariant.WriterKeepsInv(s.engine, w);
    C.StepKeepsInv(s.committer, C.Return(VerdictOf(w)));
    EndIs(s.engine, w);
    ReturnIs(s.committer, VerdictOf(w));
    if w.MemAdd? {
      EngineInvariant.BatchesSnoc(s.engine.hist, E.Commit(s.engine.queue.active, s.engine.writer.batch));
    }
    EndsCalling(s.committer, VerdictOf(w));
  }

  lemma EndsCalling(s: C.State, verdict: C.Verdict)
    requires C.Enabled(s, C.Return(verdict))
    ensures s.stage.Calling?
  {
  }

  lemma StepKeepsInv(s: State, e: Event)
    requires Inv(s) && Enabled(s, e)
    ensures Inv(Step(s, e))
  {
    hide E.Inv, E.Batches, E.WriterEnabled, E.WriterStep, E.Enabled, E.Step, C.Inv, C.Enabled, C.Step, C.AcceptedBatches,
         Verdicts, EndsInv;
    match e
    case Committer(c) =>
      C.StepKeepsInv(s.committer, c);
      CommitterKeepsLink(s.committer, c);
    case BeginWrite =>
      CallIs(s.committer);
      EngineInvariant.WriterKeepsInv(s.engine, E.Begin(s.committer.batch));
      C.StepKeepsInv(s.committer, C.Call);
      BeginIs(s.engine, s.committer.batch);
    case Engine(x) =>
      EngineInvariant.StepKeepsInv(s.engine, x);
      EngineKeepsLink(s.engine, x);
    case EndWrite(w) => EndKeepsInv(s, w);
  }

  lemma {:induction false} RunKeepsInv(run: seq<State>, i: nat)
    requires Run(run) && i < |run|
    ensures Inv(run[i])
  {
    hide E.Inv, E.Init, E.Batches, C.Inv, Enabled, Step, LinkInv, EndsInv;
    if i == 0 {
      EngineInvariant.InitEstablishesInv(run[0].engine);
      C.InitialInv();
      InitialLink(run[0].engine);
    } else {
      RunKeepsInv(run, i - 1);
      assert Next(run[i - 1], run[i]);
      var e :| Enabled(run[i - 1], e) && run[i] == Step(run[i - 1], e);
      hide Inv;
      StepKeepsInv(run[i - 1], e);
    }
  }

  lemma InitialLink(s: E.State)
    requires E.Init(s)
    ensures LinkInv(s.writer, E.Batches(s.hist), C.Initial()) && EndsInv([], Verdicts(C.Initial().rounds))
  {
  }

  // ------------------------------------------------------------ main theorems

  /**
    However submissions, rounds, dumps and gc interleave: what the engine holds is exactly the accepted
    batches, applied in submission order to an empty map.
   */
  lemma EngineHoldsAccepted(run: seq<State>, i: nat)
    requires Run(run) && i < |run|
    ensures E.Batches(run[i].engine.hist) == C.AcceptedBatches(run[i].committer.rounds)
    ensures EngineRuns.View(run[i].engine) == Replay(C.AcceptedBatches(run[i].committer.rounds))
  {
    hide Run, E.Inv, C.Inv, EngineRuns.View;
    RunKeepsInv(run, i);
    EngineRuns.ViewIsMeaning(run[i].engine);
  }

  lemma {:induction false} CommitOf(hist: seq<E.Commit>, b: Batch) returns (c: nat)
    requires b in E.Batches(hist)
    ensures c < |hist| && hist[c].batch == b
  {
    if hist[|hist| - 1].batch == b {
      c := |hist| - 1;
    } else {
      c := CommitOf(hist[..|hist| - 1], b);
    }
  }

  lemma {:induction false} BatchHasKeys(m: KvMap, batch: Batch, u: Update)
    requires u in batch
    ensures u.key in ApplyBatch(m, batch)
  {
    if batch[|batch| - 1] != u {
      BatchHasKeys(m, batch[..|batch| - 1], u);
    }
  }

  lemma {:induction false} ReplayHasKeys(batches: seq<Batch>, b: Batch, u: Update)
    requires b in batches && u in b
    ensures u.key in Replay(batches)
  {
    var pre, last := batches[..|batches| - 1], batches[|batches| - 1];
    if last == b {
      BatchHasKeys(Replay(pre), b, u);
    } else {
      ReplayHasKeys(pre, b, u);
      ApplyKeepsKeys(Replay(pre), last);
    }
  }

  /**
    A client that is told done has its pair in a batch the engine acknowledged; the key is in the plain map
    from then on, and the batch is in a listed table, or in the redo log that is still there.
   */
  lemma DoneIsDurable(run: seq<State>, i: nat, id: nat) returns (c: nat)
    requires Run(run) && i < |run|
    requires id in run[i].committer.promises && run[i].committer.promises[id] == C.Done
    ensures id < |run[i].committer.submitted| && c < |run[i].engine.hist|
    ensures var s, u := run[i].engine, run[i].committer.submitted[id];
      && u in s.hist[c].batch && u.key in EngineRuns.View(s)
      && (EngineRuns.InTable(s, c) || EngineRuns.InLog(s, c))
  {
    hide Run, E.Inv, E.Batches, C.Inv, C.AcceptedBatches, EngineRuns.View, EngineRuns.InTable, EngineRuns.InLog, Replay;
    RunKeepsInv(run, i);
    EngineHoldsAccepted(run, i);
    C.DoneMeansAccepted(run[i].committer, id);
    var u := run[i].committer.submitted[id];
    var b :| b in C.AcceptedBatches(run[i].committer.rounds) && u in b;
    c := CommitOf(run[i].engine.hist, b);
    ReplayHasKeys(C.AcceptedBatches(run[i].committer.rounds), b, u);
    if run[i].engine.hist[c].home <= run[i].engine.meta.redoId {
      EngineRuns.CheckpointedIsInTable(run[i].engine, c);
    } else {
      EngineRuns.UncheckpointedIsInLog(run[i].engine, c);
    }
  }

  lemma {:induction false} AnswerOfRound(rounds: seq<C.Round>, r: nat)
    requires r < |rounds| && rounds[r].cause.Answered?
    ensures |Verdicts(rounds[..r])| < |Verdicts(rounds)|
    ensures Verdicts(rounds)[|Verdicts(rounds[..r])|] == rounds[r].cause.verdict
  {
    var pre := rounds[..|rounds| - 1];
    if r < |pre| {
      AnswerOfRound(pre, r);
      assert pre[..r] == rounds[..r];
    }
  }

  /**
    What a client is told says how the write of its pair ended: done exactly if the engine added it, busy
    exactly if the wait for a dump timed out or the committer was drained before, and otherwise an exception.
    The write is the one numbered by the rounds answered before.
   */
  lemma ClientLearnsEnd(run: seq<State>, i: nat, id: nat) returns (r: nat)
    requires Run(run) && i < |run| && id in run[i].committer.promises
    ensures r < |run[i].committer.rounds| && id < |run[i].committer.submitted|
    ensures run[i].committer.submitted[id] in run[i].committer.rounds[r].updates
    ensures var c, k := run[i].committer, |Verdicts(run[i].committer.rounds[..r])|;
      && (c.rounds[r].cause.Answered? ==> k < |run[i].ends|)
      && (c.promises[id] == C.Done <==> c.rounds[r].cause.Answered? && run[i].ends[k].MemAdd?)
      && (c.promises[id] == C.ServerBusy <==>
            c.rounds[r].cause.Drained? || (c.rounds[r].cause.Answered? && run[i].ends[k].RoomTimeout?))
      && (c.promises[id] == C.Exception <==>
            || c.rounds[r].cause.NotCopied?
            || (c.rounds[r].cause.Answered?
                && var w := run[i].ends[k]; w.AllocSubmitFail? || w.SwitchFail? || w.SwitchLost? || w.LogFail?))
  {
    hide Run, E.Inv, C.Inv, LinkInv, C.UpdatesOf, C.OutcomesOf, Verdicts;
    RunKeepsInv(run, i);
    var c := run[i].committer;
    C.Accounts(c);
    C.RoundsAreExplained(c);
    var k;
    r, k := C.TaskHasRound(c.rounds, id);
    assert c.rounds[r] in c.rounds;
    assert c.submitted[id] == c.rounds[r].updates[k];
    if c.rounds[r].cause.Answered? {
      AnswerOfRound(c.rounds, r);
      assert Answers(run[i].ends[|Verdicts(c.rounds[..r])|], c.rounds[r].cause.verdict);
    }
  }
}
