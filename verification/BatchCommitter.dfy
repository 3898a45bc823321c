/**
  The batch committer.  Clients submit pairs under the mutex at any time; the
  commit thread takes the whole queue under the mutex, and copies the pairs,
  calls the updater and keeps the promises without it.  The transition system
  below has one event for each of these pieces, so that submissions fall
  between any two of them.  A task is named by its submission number, which
  stands for its promise.
 */
module BatchCommitter {
  import opened Updates

  datatype Outcome = Done | ServerBusy | Exception

  datatype Task = Task(id: nat, update: Update)

  /** What the updater did with a batch. */
  datatype Verdict = Accepted | Refused | Thrown

  /** What decided a round: the updater's answer, a copy that failed before it was asked, or the end of the committer. */
  datatype Cause = Answered(verdict: Verdict) | NotCopied | Drained

  /** Tasks that left together, their common outcome, and its cause. */
  datatype Round = Round(updates: Batch, outcome: Outcome, cause: Cause)

  /** Where the commit thread stands; after its end, where the destructor does. */
  datatype Stage =
    | Waiting
    | Woken
    | Taken(copied: nat)
    | Calling
    | Finishing(outcome: Outcome, settled: nat)
    | Draining(settled: nat)
    | Gone

  /** Submissions and rounds are history. */
  datatype State = State(
    queue: seq<Task>,
    inProcess: seq<Task>,
    batch: Batch,
    stage: Stage,
    stopped: bool,
    promises: map<nat, Outcome>,
    submitted: seq<Update>,
    rounds: seq<Round>)

  datatype Event =
    | Submit(update: Update)
    | Wake
    | Take
    | Copy
    | CopyFail
    | Call
    | Skip
    | Return(verdict: Verdict)
    | Settle
    | Clear
    | Stop
    | Leave
    | SettleRest
    | Finish

  function UpdatesIn(tasks: seq<Task>): (updates: Batch)
    ensures |updates| == |tasks| && forall i :: 0 <= i < |tasks| ==> updates[i] == tasks[i].update
  {
    seq(|tasks|, i requires 0 <= i < |tasks| => tasks[i].update)
  }

  function OutcomeOf(verdict: Verdict): Outcome {
    match verdict
    case Accepted => Done
    case Refused => ServerBusy
    case Thrown => Exception
  }

  predicate Enabled(s: State, e: Event) {
    match e
    case Submit(_) => !s.stage.Draining? && !s.stage.Gone?
    case Wake => s.stage.Waiting? && !s.stopped && s.queue != []
    case Take => s.stage.Woken?
    case Copy => s.stage.Taken? && s.stage.copied < |s.inProcess|
    case CopyFail => s.stage.Taken? && s.stage.copied < |s.inProcess|
    case Call => s.stage.Taken? && s.stage.copied == |s.inProcess| && s.batch != []
    case Skip => s.stage.Taken? && s.stage.copied == |s.inProcess| && s.batch == []
    case Return(_) => s.stage.Calling?
    case Settle => s.stage.Finishing? && s.stage.settled < |s.inProcess|
    case Clear => s.stage.Finishing? && s.stage.settled == |s.inProcess|
    case Stop => true
    case Leave => s.stage.Waiting? && s.stopped
    case SettleRest => s.stage.Draining? && s.stage.settled < |s.queue|
    case Finish => s.stage.Draining? && s.stage.settled == |s.queue|
  }

  function Keep(s: State, id: nat, outcome: Outcome, next: Stage): State {
    s.(promises := s.promises[id := outcome], stage := next)
  }

  /** The outcome of the tasks in process is settled; what remains is to tell their clients. */
  function Decide(s: State, outcome: Outcome, cause: Cause): State {
    s.(stage := Finishing(outcome, 0), rounds := s.rounds + [Round(UpdatesIn(s.inProcess), outcome, cause)])
  }

  function Step(s: State, e: Event): State
    requires Enabled(s, e)
  {
    match e
    case Submit(update) =>
      s.(queue := s.queue + [Task(|s.submitted|, update)], submitted := s.submitted + [update])
    case Wake => s.(stage := Woken)
    case Take => s.(queue := s.inProcess, inProcess := s.queue, stage := Taken(0))
    case Copy => s.(batch := s.batch + [s.inProcess[s.stage.copied].update], stage := Taken(s.stage.copied + 1))
    case CopyFail => Decide(s, Exception, NotCopied)
    case Call => s.(stage := Calling)
    case Skip => s.(inProcess := [], batch := [], stage := Waiting)
    case Return(verdict) => Decide(s, OutcomeOf(verdict), Answered(verdict))
    case Settle =>
      Keep(s, s.inProcess[s.stage.settled].id, s.stage.outcome, Finishing(s.stage.outcome, s.stage.settled + 1))
    case Clear => s.(inProcess := [], batch := [], stage := Waiting)
    case Stop => s.(stopped := true)
    case Leave => s.(stage := Draining(0), rounds := s.rounds + [Round(UpdatesIn(s.queue), ServerBusy, Drained)])
    case SettleRest => Keep(s, s.queue[s.stage.settled].id, ServerBusy, Draining(s.stage.settled + 1))
    case Finish => s.(queue := [], stage := Gone)
  }

  function Initial(): State {
    State([], [], [], Waiting, false, map[], [], [])
  }

  // --------------------------------------------------------------- invariant

  function UpdatesOf(rounds: seq<Round>): Batch {
    if rounds == [] then [] else UpdatesOf(rounds[..|rounds| - 1]) + rounds[|rounds| - 1].updates
  }

  /** The outcome of every decided task, by submission number: one outcome per round. */
  function OutcomesOf(rounds: seq<Round>): (outcomes: seq<Outcome>)
    ensures |outcomes| == |UpdatesOf(rounds)|
  {
    if rounds == [] then []
    else
      var last := rounds[|rounds| - 1];
      OutcomesOf(rounds[..|rounds| - 1]) + seq(|last.updates|, i => last.outcome)
  }

  /** The tasks carry consecutive submission numbers and the pairs submitted under them. */
  predicate Numbered(tasks: seq<Task>, first: nat, submitted: seq<Update>) {
    && first + |tasks| <= |submitted|
    && forall k :: 0 <= k < |tasks| ==> tasks[k] == Task(first + k, submitted[first + k])
  }

  /** How many of the decided tasks are still in the hands of the thread that keeps their promises. */
  function Settling(s: State): nat {
    match s.stage
    case Finishing(_, _) => |s.inProcess|
    case Draining(_) => |s.queue|
    case _ => 0
  }

  /** How many of these promises were kept. */
  function Settled(stage: Stage): nat {
    match stage
    case Finishing(_, settled) => settled
    case Draining(settled) => settled
    case _ => 0
  }

  function SettlingOutcome(stage: Stage): Outcome {
    if stage.Finishing? then stage.outcome else ServerBusy
  }

  /** The decided tasks, then the others in process, then the others in the queue: all submitted ones, in order. */
  predicate OrderInv(decided: Batch, settling: nat, inProcess: seq<Task>, queue: seq<Task>, submitted: seq<Update>) {
    && decided <= submitted && settling <= |decided|
    && |submitted| == |decided| - settling + |inProcess| + |queue|
    && Numbered(inProcess, |decided| - settling, submitted)
    && Numbered(queue, |decided| - settling + |inProcess|, submitted)
  }

  /** Exactly the first tasks have their outcome; the decided ones without are all to get the same. */
  ghost predicate PromiseInv(promises: map<nat, Outcome>, outcomes: seq<Outcome>, settling: nat, settled: nat, outcome: Outcome) {
    && settled <= settling <= |outcomes|
    && (forall id :: id in promises <==> 0 <= id < |outcomes| - settling + settled)
    && (forall id :: 0 <= id < |outcomes| - settling + settled ==> promises[id] == outcomes[id])
    && (forall id :: |outcomes| - settling <= id < |outcomes| ==> outcomes[id] == outcome)
  }

  predicate StageInv(stage: Stage, inProcess: seq<Task>, batch: Batch, queue: seq<Task>, stopped: bool) {
    match stage
    case Waiting => inProcess == [] && batch == []
    case Woken => inProcess == [] && batch == [] && queue != []
    case Taken(copied) => inProcess != [] && copied <= |inProcess| && batch == UpdatesIn(inProcess)[..copied]
    case Calling => inProcess != [] && batch == UpdatesIn(inProcess)
    case Finishing(_, _) => true
    case Draining(_) => inProcess == [] && batch == [] && stopped
    case Gone => inProcess == [] && batch == [] && queue == [] && stopped
  }

  /** Done means accepted, busy means refused or not even asked at the end, and an exception means thrown or not copied. */
  predicate Explained(r: Round) {
    && (r.outcome == Done <==> r.cause == Answered(Accepted))
    && (r.outcome == ServerBusy <==> r.cause == Answered(Refused) || r.cause == Drained)
    && (r.outcome == Exception <==> r.cause == Answered(Thrown) || r.cause == NotCopied)
  }

  predicate CauseInv(rounds: seq<Round>) {
    forall r :: r in rounds ==> Explained(r)
  }

  ghost predicate Inv(s: State) {
    && OrderInv(UpdatesOf(s.rounds), Settling(s), s.inProcess, s.queue, s.submitted)
    && PromiseInv(s.promises, OutcomesOf(s.rounds), Settling(s), Settled(s.stage), SettlingOutcome(s.stage))
    && StageInv(s.stage, s.inProcess, s.batch, s.queue, s.stopped)
    && CauseInv(s.rounds)
  }

  lemma UpdatesOfSnoc(rounds: seq<Round>, r: Round)
    ensures UpdatesOf(rounds + [r]) == UpdatesOf(rounds) + r.updates
    ensures OutcomesOf(rounds + [r]) == OutcomesOf(rounds) + seq(|r.updates|, i => r.outcome)
  {
    assert (rounds + [r])[..|rounds|] == rounds;
  }

  lemma NumberedUpdates(tasks: seq<Task>, first: nat, submitted: seq<Update>)
    requires Numbered(tasks, first, submitted)
    ensures UpdatesIn(tasks) == submitted[first..first + |tasks|]
  {
  }

  lemma OrderAfterSubmit(decided: Batch, settling: nat, inProcess: seq<Task>, queue: seq<Task>, submitted: seq<Update>, u: Update)
    requires OrderInv(decided, settling, inProcess, queue, submitted)
    ensures OrderInv(decided, settling, inProcess, queue + [Task(|submitted|, u)], submitted + [u])
  {
  }

  lemma OrderAfterTake(decided: Batch, queue: seq<Task>, submitted: seq<Update>)
    requires OrderInv(decided, 0, [], queue, submitted)
    ensures OrderInv(decided, 0, queue, [], submitted)
  {
  }

  lemma OrderAfterDecide(decided: Batch, inProcess: seq<Task>, queue: seq<Task>, submitted: seq<Update>)
    requires OrderInv(decided, 0, inProcess, queue, submitted)
    ensures OrderInv(decided + UpdatesIn(inProcess), |inProcess|, inProcess, queue, submitted)
  {
    NumberedUpdates(inProcess, |decided|, submitted);
  }

  lemma OrderAfterClear(decided: Batch, inProcess: seq<Task>, queue: seq<Task>, submitted: seq<Update>)
    requires OrderInv(decided, |inProcess|, inProcess, queue, submitted)
    ensures OrderInv(decided, 0, [], queue, submitted)
  {
  }

  lemma OrderAfterLeave(decided: Batch, queue: seq<Task>, submitted: seq<Update>)
    requires OrderInv(decided, 0, [], queue, submitted)
    ensures OrderInv(decided + UpdatesIn(queue), |queue|, [], queue, submitted)
  {
    NumberedUpdates(queue, |decided|, submitted);
  }

  lemma PromisesAfterDecide(promises: map<nat, Outcome>, outcomes: seq<Outcome>, any: Outcome, n: nat, outcome: Outcome)
    requires PromiseInv(promises, outcomes, 0, 0, any)
    ensures PromiseInv(promises, outcomes + seq(n, i => outcome), n, 0, outcome)
  {
  }

  lemma PromisesAfterSettle(promises: map<nat, Outcome>, outcomes: seq<Outcome>, settling: nat, settled: nat, outcome: Outcome)
    requires PromiseInv(promises, outcomes, settling, settled, outcome) && settled < settling
    ensures var id := |outcomes| - settling + settled;
      id !in promises && PromiseInv(promises[id := outcome], outcomes, settling, settled + 1, outcome)
  {
  }

  lemma PromisesAfterClear(promises: map<nat, Outcome>, outcomes: seq<Outcome>, settling: nat, outcome: Outcome)
    requires PromiseInv(promises, outcomes, settling, settling, outcome)
    ensures PromiseInv(promises, outcomes, 0, 0, ServerBusy)
  {
  }

  lemma CausesAfter(rounds: seq<Round>, r: Round)
    requires CauseInv(rounds) && Explained(r)
    ensures CauseInv(rounds + [r])
  {
  }

  lemma InitialInv()
    ensures Inv(Initial())
  {
  }

  lemma SubmitKeepsInv(s: State, update: Update)
    requires Inv(s) && Enabled(s, Submit(update))
    ensures Inv(Step(s, Submit(update)))
  {
    hide UpdatesOf, OutcomesOf, OrderInv, PromiseInv, CauseInv;
    OrderAfterSubmit(UpdatesOf(s.rounds), Settling(s), s.inProcess, s.queue, s.submitted, update);
  }

  lemma TakeKeepsInv(s: State)
    requires Inv(s) && Enabled(s, Take)
    ensures Inv(Step(s, Take))
  {
    hide UpdatesOf, OutcomesOf, OrderInv, PromiseInv, CauseInv;
    OrderAfterTake(UpdatesOf(s.rounds), s.queue, s.submitted);
  }

  lemma CopyKeepsInv(s: State, e: Event)
    requires Inv(s) && Enabled(s, e) && (e.Wake? || e.Copy? || e.Call? || e.Skip? || e.Stop?)
    ensures Inv(Step(s, e))
  {
    hide UpdatesOf, OutcomesOf, OrderInv, PromiseInv, CauseInv;
  }

  lemma DecideKeepsInv(s: State, e: Event)
    requires Inv(s) && Enabled(s, e) && (e.CopyFail? || e.Return?)
    ensures Inv(Step(s, e))
  {
    hide UpdatesOf, OutcomesOf, OrderInv, PromiseInv, CauseInv, UpdatesIn;
    var outcome := if e.Return? then OutcomeOf(e.verdict) else Exception;
    var r := Round(UpdatesIn(s.inProcess), outcome, if e.Return? then Answered(e.verdict) else NotCopied);
    UpdatesOfSnoc(s.rounds, r);
    OrderAfterDecide(UpdatesOf(s.rounds), s.inProcess, s.queue, s.submitted);
    PromisesAfterDecide(s.promises, OutcomesOf(s.rounds), ServerBusy, |s.inProcess|, outcome);
    CausesAfter(s.rounds, r);
  }

  lemma LeaveKeepsInv(s: State)
    requires Inv(s) && Enabled(s, Leave)
    ensures Inv(Step(s, Leave))
  {
    hide UpdatesOf, OutcomesOf, OrderInv, PromiseInv, CauseInv, UpdatesIn;
    var r := Round(UpdatesIn(s.queue), ServerBusy, Drained);
    UpdatesOfSnoc(s.rounds, r);
    OrderAfterLeave(UpdatesOf(s.rounds), s.queue, s.submitted);
    PromisesAfterDecide(s.promises, OutcomesOf(s.rounds), ServerBusy, |s.queue|, ServerBusy);
    CausesAfter(s.rounds, r);
  }

  /** The number of the next task to be told. */
  lemma SettleNext(s: State, e: Event)
    requires Inv(s) && Enabled(s, e) && (e.Settle? || e.SettleRest?)
    ensures |UpdatesOf(s.rounds)| == |OutcomesOf(s.rounds)| && Settled(s.stage) < Settling(s) <= |OutcomesOf(s.rounds)|
    ensures var id := |OutcomesOf(s.rounds)| - Settling(s) + Settled(s.stage);
      && Step(s, e).promises == s.promises[id := SettlingOutcome(s.stage)]
      && Settling(Step(s, e)) == Settling(s) && Settled(Step(s, e).stage) == Settled(s.stage) + 1
      && SettlingOutcome(Step(s, e).stage) == SettlingOutcome(s.stage)
  {
    hide UpdatesOf, OutcomesOf, PromiseInv, CauseInv, UpdatesIn;
  }

  /** A promise is kept once. */
  lemma SettleKeepsInv(s: State, e: Event)
    requires Inv(s) && Enabled(s, e) && (e.Settle? || e.SettleRest?)
    ensures Inv(Step(s, e))
    ensures var id := |OutcomesOf(s.rounds)| - Settling(s) + Settled(s.stage);
      id !in s.promises && Step(s, e).promises == s.promises[id := SettlingOutcome(s.stage)]
  {
    hide UpdatesOf, OutcomesOf, OrderInv, PromiseInv, CauseInv, UpdatesIn;
    SettleNext(s, e);
    PromisesAfterSettle(s.promises, OutcomesOf(s.rounds), Settling(s), Settled(s.stage), SettlingOutcome(s.stage));
  }

  lemma ClearKeepsInv(s: State, e: Event)
    requires Inv(s) && Enabled(s, e) && (e.Clear? || e.Finish?)
    ensures Inv(Step(s, e))
  {
    hide UpdatesOf, OutcomesOf, OrderInv, PromiseInv, CauseInv, UpdatesIn;
    PromisesAfterClear(s.promises, OutcomesOf(s.rounds), Settling(s), SettlingOutcome(s.stage));
    if e.Clear? {
      OrderAfterClear(UpdatesOf(s.rounds), s.inProcess, s.queue, s.submitted);
    } else {
      OrderAfterFinish(UpdatesOf(s.rounds), s.queue, s.submitted);
    }
  }

  lemma OrderAfterFinish(decided: Batch, queue: seq<Task>, submitted: seq<Update>)
    requires OrderInv(decided, |queue|, [], queue, submitted)
    ensures OrderInv(decided, 0, [], [], submitted)
  {
  }

  /** Every event keeps the invariant, whatever clients submit meanwhile. */
  lemma StepKeepsInv(s: State, e: Event)
    requires Inv(s) && Enabled(s, e)
    ensures Inv(Step(s, e))
  {
    hide Inv, Enabled, Step;
    match e
    case Submit(update) => SubmitKeepsInv(s, update);
    case Take => TakeKeepsInv(s);
    case CopyFail => DecideKeepsInv(s, e);
    case Return(_) => DecideKeepsInv(s, e);
    case Leave => LeaveKeepsInv(s);
    case Settle => SettleKeepsInv(s, e);
    case SettleRest => SettleKeepsInv(s, e);
    case Clear => ClearKeepsInv(s, e);
    case Finish => ClearKeepsInv(s, e);
    case _ => CopyKeepsInv(s, e);
  }

  // -------------------------------------------------------------------- runs

  ghost predicate Next(s: State, t: State) {
    exists e :: Enabled(s, e) && t == Step(s, e)
  }

  ghost predicate Run(run: seq<State>) {
    && run != [] && run[0] == Initial()
    && (forall i, j :: 0 <= i < j < |run| && j == i + 1 ==> Next(run[i], run[j]))
  }

  lemma {:induction false} RunKeepsInv(run: seq<State>, i: nat)
    requires Run(run) && i < |run|
    ensures Inv(run[i])
  {
    hide Inv, Enabled, Step;
    if i == 0 {
      InitialInv();
    } else {
      RunKeepsInv(run, i - 1);
      assert Next(run[i - 1], run[i]);
      var e :| Enabled(run[i - 1], e) && run[i] == Step(run[i - 1], e);
      StepKeepsInv(run[i - 1], e);
    }
  }

  /** Submissions and decisions only grow at their end, and an outcome told is never changed. */
  ghost predicate Extends(s: State, t: State) {
    && s.submitted <= t.submitted && s.rounds <= t.rounds
    && (forall id :: id in s.promises ==> id in t.promises && t.promises[id] == s.promises[id])
  }

  lemma StepExtends(s: State, e: Event)
    requires Inv(s) && Enabled(s, e)
    ensures Extends(s, Step(s, e))
  {
    hide Inv;
    if e.Settle? || e.SettleRest? {
      SettleKeepsInv(s, e);
      SettleIsLocal(s, e);
      hide Step, Enabled;
    }
  }

  lemma SettleIsLocal(s: State, e: Event)
    requires Enabled(s, e) && (e.Settle? || e.SettleRest?)
    ensures Step(s, e).submitted == s.submitted && Step(s, e).rounds == s.rounds
  {
  }

  lemma {:induction false} RunExtends(run: seq<State>, i: nat, j: nat)
    requires Run(run) && i <= j < |run|
    ensures Extends(run[i], run[j])
    decreases j - i
  {
    hide Inv, Enabled, Step;
    if i < j {
      RunExtends(run, i, j - 1);
      RunKeepsInv(run, j - 1);
      assert Next(run[j - 1], run[j]);
      var e :| Enabled(run[j - 1], e) && run[j] == Step(run[j - 1], e);
      StepExtends(run[j - 1], e);
    }
  }

  /** Tasks that no round has decided yet, in order. */
  function Undecided(s: State): seq<Task> {
    match s.stage
    case Finishing(_, _) => s.queue
    case Draining(_) => []
    case _ => s.inProcess + s.queue
  }

  /**
    Whatever is submitted during the rounds: the tasks of the rounds and the undecided ones are all submitted
    tasks in submission order; each has at most one outcome, that of its round, and never loses it.
   */
  lemma SubmissionOrder(run: seq<State>, i: nat, j: nat)
    requires Run(run) && i <= j < |run|
    ensures Extends(run[i], run[j])
    ensures var s := run[j];
      && s.submitted == UpdatesOf(s.rounds) + UpdatesIn(Undecided(s))
      && forall id :: id in s.promises ==>
           0 <= id < |OutcomesOf(s.rounds)| == |UpdatesOf(s.rounds)| && s.promises[id] == OutcomesOf(s.rounds)[id]
  {
    hide Inv, Run, OutcomesOf, UpdatesOf, Extends;
    RunExtends(run, i, j);
    RunKeepsInv(run, j);
    Accounts(run[j]);
  }

  lemma Accounts(s: State)
    requires Inv(s)
    ensures s.submitted == UpdatesOf(s.rounds) + UpdatesIn(Undecided(s))
    ensures forall id :: id in s.promises ==>
              0 <= id < |OutcomesOf(s.rounds)| == |UpdatesOf(s.rounds)| && s.promises[id] == OutcomesOf(s.rounds)[id]
  {
    hide UpdatesOf, OutcomesOf, CauseInv, UpdatesIn;
    var n := |UpdatesOf(s.rounds)|;
    NumberedFrom(Undecided(s), n, s.submitted);
    hide Inv, OrderInv, PromiseInv;
    assert s.submitted == s.submitted[..n] + s.submitted[n..];
  }

  lemma NumberedFrom(tasks: seq<Task>, first: nat, submitted: seq<Update>)
    requires first + |tasks| == |submitted|
    requires forall k :: 0 <= k < |tasks| ==> tasks[k] == Task(first + k, submitted[first + k])
    ensures UpdatesIn(tasks) == submitted[first..]
  {
  }

  lemma GoneIsAnswered(s: State)
    requires Inv(s) && s.stage.Gone?
    ensures UpdatesOf(s.rounds) == s.submitted
    ensures forall id :: id in s.promises <==> 0 <= id < |s.submitted|
  {
    hide UpdatesOf, OutcomesOf;
  }

  /** Once the committer is gone, nobody is left waiting: exactly the submitted tasks have an outcome. */
  lemma GoneMeansAnswered(run: seq<State>, i: nat)
    requires Run(run) && i < |run| && run[i].stage.Gone?
    ensures UpdatesOf(run[i].rounds) == run[i].submitted
    ensures forall id :: id in run[i].promises <==> 0 <= id < |run[i].submitted|
  {
    hide Run, Inv, UpdatesOf;
    RunKeepsInv(run, i);
    GoneIsAnswered(run[i]);
  }

  /** The updater gets, once each and in order, the pairs that follow all those decided before; never an empty batch. */
  lemma UpdaterSeesNext(s: State)
    requires Inv(s)
    ensures !Enabled(s, Skip)
    ensures s.stage.Calling? ==>
      var n := |UpdatesOf(s.rounds)|;
      s.batch != [] && n + |s.batch| <= |s.submitted| && s.batch == s.submitted[n..n + |s.batch|]
  {
    hide UpdatesOf, OutcomesOf, PromiseInv, CauseInv;
    if s.stage.Calling? {
      NumberedUpdates(s.inProcess, |UpdatesOf(s.rounds)|, s.submitted);
    }
  }

  /** Each decided task is in exactly the round whose outcome it got. */
  lemma {:induction false} TaskHasRound(rounds: seq<Round>, id: nat) returns (r: nat, k: nat)
    requires id < |UpdatesOf(rounds)|
    ensures r < |rounds| && k < |rounds[r].updates|
    ensures UpdatesOf(rounds)[id] == rounds[r].updates[k] && OutcomesOf(rounds)[id] == rounds[r].outcome
    ensures id == |UpdatesOf(rounds[..r])| + k
  {
    var pre := rounds[..|rounds| - 1];
    if id < |UpdatesOf(pre)| {
      r, k := TaskHasRound(pre, id);
      assert pre[..r] == rounds[..r];
    } else {
      r, k := |pre|, id - |UpdatesOf(pre)|;
    }
  }

  /** The batches the updater saw and accepted, in order. */
  function AcceptedBatches(rounds: seq<Round>): seq<Batch> {
    if rounds == [] then []
    else
      var last := rounds[|rounds| - 1];
      AcceptedBatches(rounds[..|rounds| - 1]) + (if last.cause == Answered(Accepted) then [last.updates] else [])
  }

  lemma {:induction false} AcceptedHas(rounds: seq<Round>, r: nat)
    requires r < |rounds| && rounds[r].cause == Answered(Accepted)
    ensures rounds[r].updates in AcceptedBatches(rounds)
  {
    if r < |rounds| - 1 {
      AcceptedHas(rounds[..|rounds| - 1], r);
    }
  }

  /** A client that is told done has its pair in a batch the updater accepted. */
  lemma DoneMeansAccepted(s: State, id: nat)
    requires Inv(s) && id in s.promises && s.promises[id] == Done
    ensures id < |s.submitted| && exists b :: b in AcceptedBatches(s.rounds) && s.submitted[id] in b
  {
    hide Inv, UpdatesOf, OutcomesOf, AcceptedBatches;
    Accounts(s);
    RoundsAreExplained(s);
    var r, k := TaskHasRound(s.rounds, id);
    assert s.rounds[r] in s.rounds;
    AcceptedHas(s.rounds, r);
    assert s.submitted[id] == s.rounds[r].updates[k];
  }

  lemma RoundsAreExplained(s: State)
    requires Inv(s)
    ensures CauseInv(s.rounds)
  {
  }

  /** In every run a promise tells its client exactly what decided the task's round. */
  lemma OutcomeTellsCause(run: seq<State>, i: nat, id: nat) returns (r: nat, k: nat)
    requires Run(run) && i < |run| && id in run[i].promises
    ensures r < |run[i].rounds| && k < |run[i].rounds[r].updates| && id == |UpdatesOf(run[i].rounds[..r])| + k
    ensures id < |run[i].submitted| && run[i].submitted[id] == run[i].rounds[r].updates[k]
    ensures var cause := run[i].rounds[r].cause;
      && (run[i].promises[id] == Done <==> cause == Answered(Accepted))
      && (run[i].promises[id] == ServerBusy <==> cause == Answered(Refused) || cause == Drained)
      && (run[i].promises[id] == Exception <==> cause == Answered(Thrown) || cause == NotCopied)
  {
    hide Run, Inv, UpdatesOf, OutcomesOf;
    RunKeepsInv(run, i);
    Accounts(run[i]);
    RoundsAreExplained(run[i]);
    r, k := TaskHasRound(run[i].rounds, id);
    assert run[i].rounds[r] in run[i].rounds;
  }

  // ---------------------------------------------------------------- shutdown

  /** What the committer's own threads do next; nothing while they wait for a submission or are gone. */
  function Pending(s: State): seq<Event> {
    match s.stage
    case Waiting => if s.stopped then [Leave] else if s.queue != [] then [Wake] else []
    case Woken => [Take]
    case Taken(copied) => if copied < |s.inProcess| then [Copy] else if s.batch != [] then [Call] else [Skip]
    case Calling => [Return(Thrown)]
    case Finishing(_, settled) => if settled < |s.inProcess| then [Settle] else [Clear]
    case Draining(settled) => if settled < |s.queue| then [SettleRest] else [Finish]
    case Gone => []
  }

  /** How many more steps there can be after a stop. */
  function Measure(s: State): nat {
    match s.stage
    case Waiting => 2 + |s.queue|
    case Woken => 6 + 2 * |s.queue|
    case Taken(copied) => if copied <= |s.inProcess| then 5 + |s.queue| + 2 * |s.inProcess| - copied else 0
    case Calling => 4 + |s.queue| + |s.inProcess|
    case Finishing(_, settled) => if settled <= |s.inProcess| then 3 + |s.queue| + |s.inProcess| - settled else 0
    case Draining(settled) => if settled <= |s.queue| then 1 + |s.queue| - settled else 0
    case Gone => 0
  }

  lemma PendingIsEnabled(s: State)
    requires Inv(s)
    ensures Pending(s) != [] ==> Enabled(s, Pending(s)[0])
    ensures Pending(s) == [] <==> s.stage.Gone? || (s.stage.Waiting? && !s.stopped && s.queue == [])
  {
    hide UpdatesOf, OutcomesOf, OrderInv, UpdatesIn, CauseInv;
  }

  /** After a stop every step of the committer's own threads brings the end nearer, whatever the updater answers. */
  lemma ShutdownIsBounded(s: State, e: Event)
    requires Inv(s) && Enabled(s, e) && s.stopped && !e.Submit? && !e.Stop?
    ensures Step(s, e).stopped && Measure(Step(s, e)) < Measure(s)
  {
    hide UpdatesOf, OutcomesOf, OrderInv, UpdatesIn, CauseInv;
  }

  /** The events, the last one ending in t, lead from s to t. */
  ghost predicate Leads(s: State, es: seq<Event>, t: State) {
    if es == [] then s == t
    else
      var e := es[|es| - 1];
      exists u :: Leads(s, es[..|es| - 1], u) && Enabled(u, e) && t == Step(u, e)
  }

  lemma LeadsOn(s: State, es: seq<Event>, t: State, e: Event)
    requires Leads(s, es, t) && Enabled(t, e)
    ensures Leads(s, es + [e], Step(t, e))
  {
    hide Enabled, Step;
    var all := es + [e];
    assert all[..|all| - 1] == es;
    assert Leads(s, all[..|all| - 1], t) && Enabled(t, all[|all| - 1]);
  }

  lemma NothingLeads(s: State)
    ensures Leads(s, [], s)
  {
  }

  lemma {:induction false} LeadsAfter(s: State, e: Event, es: seq<Event>, t: State)
    requires Enabled(s, e) && Leads(Step(s, e), es, t)
    ensures Leads(s, [e] + es, t)
    decreases |es|
  {
    hide Enabled, Step;
    if es == [] {
      NothingLeads(s);
      LeadsOn(s, [], s, e);
      assert [] + [e] == [e] + es;
    } else {
      var pre, last := es[..|es| - 1], es[|es| - 1];
      var u :| Leads(Step(s, e), pre, u) && Enabled(u, last) && t == Step(u, last);
      LeadsAfter(s, e, pre, u);
      LeadsOn(s, [e] + pre, u, last);
      assert [e] + es == [e] + pre + [last];
    }
  }

  /** After a stop the end can be reached from wherever the threads stand, and then every client has its answer. */
  lemma {:induction false} ShutdownCompletes(s: State) returns (es: seq<Event>, t: State)
    requires Inv(s) && s.stopped
    ensures Leads(s, es, t) && t.stage.Gone? && forall e :: e in es ==> !e.Submit?
    decreases Measure(s)
  {
    hide Inv, Enabled, Step, Measure, Leads;
    PendingIsEnabled(s);
    if s.stage.Gone? {
      es, t := [], s;
      NothingLeads(s);
    } else {
      var e := Pending(s)[0];
      StepKeepsInv(s, e);
      ShutdownIsBounded(s, e);
      es, t := ShutdownCompletes(Step(s, e));
      LeadsAfter(s, e, es, t);
      es := [e] + es;
    }
  }

  // --------------------------------------------------------------- the class

  /** Each method is one piece of the program between two points at which other threads may run. */
  class Committer {
    var taskQueue: seq<Task>
    var taskInProcess: seq<Task>
    var batch: Batch
    var stopped: bool
    /** The number of the next submission, which names its promise. */
    var nextTask: nat
    var promises: map<nat, Outcome>

    ghost var stage: Stage
    ghost var submitted: seq<Update>
    ghost var rounds: seq<Round>

    ghost function Abs(): State
      reads this
    {
      State(taskQueue, taskInProcess, batch, stage, stopped, promises, submitted, rounds)
    }

    ghost predicate Valid()
      reads this
    {
      Inv(Abs()) && nextTask == |submitted|
    }

    constructor ()
      ensures Valid() && Abs() == Initial()
    {
      taskQueue, taskInProcess, batch, stopped, nextTask, promises := [], [], [], false, 0, map[];
      stage, submitted, rounds := Waiting, [], [];
      new;
      InitialInv();
    }

    /** submit and plug_, under the mutex, between any two pieces of the commit thread. */
    method Submit(update: Update) returns (id: nat)
      requires Valid() && Enabled(Abs(), Event.Submit(update))
      modifies this`taskQueue, this`nextTask, this`submitted
      ensures Valid() && Abs() == Step(old(Abs()), Event.Submit(update))
      ensures id == old(|submitted|) && submitted == old(submitted) + [update]
    {
      StepKeepsInv(Abs(), Event.Submit(update));
      hide Inv;
      id := nextTask;
      nextTask := nextTask + 1;
      taskQueue := taskQueue + [Task(id, update)];
      submitted := submitted + [update];
    }

    /** One look at the condition wait_unplug_ waits for, and at the flag after it. */
    method WaitUnplug() returns (go: bool)
      requires Valid() && stage.Waiting?
      modifies this`stage
      ensures Valid() && (go <==> !stopped && taskQueue != [])
      ensures Abs() == if go then Step(old(Abs()), Wake) else old(Abs())
    {
      go := !stopped && taskQueue != [];
      if go {
        StepKeepsInv(Abs(), Wake);
        hide Inv;
        stage := Woken;
      }
    }

    /** The locked part of build_batch_. */
    method TakeQueue()
      requires Valid() && stage.Woken?
      modifies this`taskQueue, this`taskInProcess, this`stage
      ensures Valid() && Abs() == Step(old(Abs()), Take)
      ensures taskInProcess == old(taskQueue)
    {
      StepKeepsInv(Abs(), Take);
      hide Inv;
      taskQueue, taskInProcess := taskInProcess, taskQueue;
      stage := Taken(0);
    }

    method CopyNext(i: nat)
      requires Valid() && stage == Taken(i) && i < |taskInProcess|
      modifies this`batch, this`stage
      ensures Valid() && old(Enabled(Abs(), Copy)) && Abs() == Step(old(Abs()), Copy)
      ensures stage == Taken(i + 1)
    {
      hide Inv, Step, Enabled;
      CopyEffect(Abs());
      StepKeepsInv(Abs(), Copy);
      batch, stage := batch + [taskInProcess[i].update], Taken(i + 1);
    }

    method CopyFails()
      requires Valid() && stage.Taken? && stage.copied < |taskInProcess|
      modifies this`stage, this`rounds
      ensures Valid() && old(Enabled(Abs(), CopyFail)) && Abs() == Step(old(Abs()), CopyFail)
      ensures stage == Finishing(Exception, 0)
    {
      hide Inv, Step, Enabled;
      FailEffect(Abs());
      StepKeepsInv(Abs(), CopyFail);
      stage, rounds := Finishing(Exception, 0), rounds + [Round(UpdatesIn(taskInProcess), Exception, NotCopied)];
    }

    /** The rest of build_batch_, without the mutex; copy number failAt runs out of memory, if there is one. */
    method CopyPairs(failAt: nat) returns (ok: bool, ghost es: seq<Event>)
      requires Valid() && stage == Taken(0)
      modifies this`batch, this`stage, this`rounds
      ensures Valid() && Leads(old(Abs()), es, Abs())
      ensures ok <==> failAt >= |taskInProcess|
      ensures ok ==> stage == Taken(|taskInProcess|) && batch == UpdatesIn(taskInProcess) && batch != []
      ensures !ok ==> stage == Finishing(Exception, 0)
    {
      hide Step, Enabled, Leads, Valid;
      es := [];
      var i := 0;
      NothingLeads(Abs());
      while i < |taskInProcess| && i != failAt
        modifies this`batch, this`stage
        invariant 0 <= i <= |taskInProcess| && i <= failAt && stage == Taken(i)
        invariant Valid() && Leads(old(Abs()), es, Abs())
      {
        ghost var s := Abs();
        CopyNext(i);
        LeadsOn(old(Abs()), es, s, Copy);
        es := es + [Copy];
        i := i + 1;
      }
      ok := i == |taskInProcess|;
      if ok {
        AllCopied();
      } else {
        ghost var s := Abs();
        CopyFails();
        LeadsOn(old(Abs()), es, s, CopyFail);
        es := es + [CopyFail];
      }
    }

    lemma AllCopied()
      requires Valid() && stage == Taken(|taskInProcess|)
      ensures batch == UpdatesIn(taskInProcess) && batch != []
    {
      hide UpdatesOf, OutcomesOf, OrderInv, PromiseInv, CauseInv;
    }

    /** The call of the updater begins: it gets the pairs of all tasks in process, in submission order. */
    method BeginWrite() returns (call: Batch)
      requires Valid() && stage == Taken(|taskInProcess|)
      modifies this`stage
      ensures Valid() && Abs() == Step(old(Abs()), Call)
      ensures call == UpdatesIn(taskInProcess) && call != []
      ensures |UpdatesOf(rounds)| + |call| <= |submitted|
      ensures call == submitted[|UpdatesOf(rounds)|..|UpdatesOf(rounds)| + |call|]
    {
      StepKeepsInv(Abs(), Call);
      stage := Calling;
      UpdaterSeesNext(Abs());
      hide UpdatesOf;
      call := batch;
    }

    /** The call of the updater ends: all tasks in process get the one outcome. */
    method EndWrite(verdict: Verdict)
      requires Valid() && stage.Calling?
      modifies this`stage, this`rounds
      ensures Valid() && Abs() == Step(old(Abs()), Return(verdict))
      ensures verdict.Accepted? ==> stage == Finishing(Done, 0)
      ensures verdict.Refused? ==> stage == Finishing(ServerBusy, 0)
      ensures verdict.Thrown? ==> stage == Finishing(Exception, 0)
      ensures |rounds| == old(|rounds|) + 1 && rounds[|rounds| - 1].cause == Answered(verdict)
    {
      StepKeepsInv(Abs(), Return(verdict));
      hide Inv;
      stage, rounds := Finishing(OutcomeOf(verdict), 0), rounds + [Round(UpdatesIn(taskInProcess), OutcomeOf(verdict), Answered(verdict))];
    }

    /** The loop over the promises of the tasks in process, and the clearing behind it. */
    method KeepPromises(outcome: Outcome) returns (ghost es: seq<Event>)
      requires Valid() && stage == Finishing(outcome, 0)
      modifies this`promises, this`stage, this`taskInProcess, this`batch
      ensures Valid() && Leads(old(Abs()), es, Abs())
      ensures stage == Waiting && taskInProcess == [] && batch == []
      ensures forall t :: t in old(taskInProcess) ==> t.id in promises && promises[t.id] == outcome
    {
      hide Step, Enabled, Leads, Inv;
      es := [];
      NothingLeads(Abs());
      for i := 0 to |taskInProcess|
        modifies this`promises, this`stage
        invariant stage == Finishing(outcome, i)
        invariant Valid() && Leads(old(Abs()), es, Abs())
        invariant forall k :: 0 <= k < i ==> taskInProcess[k].id in promises && promises[taskInProcess[k].id] == outcome
      {
        SettleEffect(Abs());
        LeadsOn(old(Abs()), es, Abs(), Settle);
        StepKeepsInv(Abs(), Settle);
        es := es + [Settle];
        promises, stage := promises[taskInProcess[i].id := outcome], Finishing(outcome, i + 1);
      }
      ClearEffect(Abs());
      LeadsOn(old(Abs()), es, Abs(), Clear);
      StepKeepsInv(Abs(), Clear);
      es := es + [Clear];
      taskInProcess, batch, stage := [], [], Waiting;
    }

    method Stop()
      requires Valid()
      modifies this`stopped
      ensures Valid() && Abs() == Step(old(Abs()), Event.Stop)
    {
      StepKeepsInv(Abs(), Event.Stop);
      hide Inv;
      stopped := true;
    }

    /** The end of the commit thread and the rest of the destructor: nobody is left waiting. */
    method Drain() returns (ghost es: seq<Event>)
      requires Valid() && stage.Waiting? && stopped
      modifies this`promises, this`stage, this`taskQueue, this`rounds
      ensures Valid() && Leads(old(Abs()), es, Abs())
      ensures stage == Gone && taskQueue == [] && submitted == old(submitted)
      ensures forall id :: id in promises <==> 0 <= id < |submitted|
      ensures forall t :: t in old(taskQueue) ==> t.id in promises && promises[t.id] == ServerBusy
    {
      hide Step, Enabled, Leads, Inv;
      NothingLeads(Abs());
      LeaveEffect(Abs());
      LeadsOn(old(Abs()), [], Abs(), Leave);
      StepKeepsInv(Abs(), Leave);
      es := [] + [Leave];
      stage, rounds := Draining(0), rounds + [Round(UpdatesIn(taskQueue), ServerBusy, Drained)];
      for i := 0 to |taskQueue|
        modifies this`promises, this`stage
        invariant stage == Draining(i)
        invariant Valid() && Leads(old(Abs()), es, Abs())
        invariant forall k :: 0 <= k < i ==> taskQueue[k].id in promises && promises[taskQueue[k].id] == ServerBusy
      {
        SettleRestEffect(Abs());
        LeadsOn(old(Abs()), es, Abs(), SettleRest);
        StepKeepsInv(Abs(), SettleRest);
        es := es + [SettleRest];
        promises, stage := promises[taskQueue[i].id := ServerBusy], Draining(i + 1);
      }
      FinishEffect(Abs());
      LeadsOn(old(Abs()), es, Abs(), Finish);
      StepKeepsInv(Abs(), Finish);
      es := es + [Finish];
      taskQueue, stage := [], Gone;
      GoneIsAnswered(Abs());
    }
  }

  lemma CopyEffect(s: State)
    requires s.stage.Taken? && s.stage.copied < |s.inProcess|
    ensures Enabled(s, Copy)
    ensures Step(s, Copy) == s.(batch := s.batch + [s.inProcess[s.stage.copied].update], stage := Taken(s.stage.copied + 1))
  {
  }

  lemma FailEffect(s: State)
    requires s.stage.Taken? && s.stage.copied < |s.inProcess|
    ensures Enabled(s, CopyFail) && Step(s, CopyFail) == Decide(s, Exception, NotCopied)
  {
  }

  lemma SettleEffect(s: State)
    requires s.stage.Finishing? && s.stage.settled < |s.inProcess|
    ensures Enabled(s, Settle)
    ensures var o, k := s.stage.outcome, s.stage.settled;
      Step(s, Settle) == s.(promises := s.promises[s.inProcess[k].id := o], stage := Finishing(o, k + 1))
  {
  }

  lemma ClearEffect(s: State)
    requires s.stage.Finishing? && s.stage.settled == |s.inProcess|
    ensures Enabled(s, Clear) && Step(s, Clear) == s.(inProcess := [], batch := [], stage := Waiting)
  {
  }

  lemma LeaveEffect(s: State)
    requires s.stage.Waiting? && s.stopped
    ensures Enabled(s, Leave)
    ensures Step(s, Leave) == s.(stage := Draining(0), rounds := s.rounds + [Round(UpdatesIn(s.queue), ServerBusy, Drained)])
  {
  }

  lemma SettleRestEffect(s: State)
    requires s.stage.Draining? && s.stage.settled < |s.queue|
    ensures Enabled(s, SettleRest)
    ensures var k := s.stage.settled;
      Step(s, SettleRest) == s.(promises := s.promises[s.queue[k].id := ServerBusy], stage := Draining(k + 1))
  {
  }

  lemma FinishEffect(s: State)
    requires s.stage.Draining? && s.stage.settled == |s.queue|
    ensures Enabled(s, Finish) && Step(s, Finish) == s.(queue := [], stage := Gone)
  {
  }
}
