/** thread_pool: workers that take messages from a bounded queue, and the shutdown by one terminate message per worker. */
module ThreadPool {

  datatype Msg = Log(id: nat) | Flush(id: nat) | Terminate

  /** The destructor has sent that many terminate messages and joined that many workers. */
  datatype Phase = Serving | Destroying(sent: nat, joined: nat)

  datatype State = State(
    capacity: nat,
    queue: seq<Msg>,
    running: seq<bool>,
    phase: Phase,
    posted: seq<Msg>,          // everything that was ever enqueued
    taken: seq<(nat, Msg)>,    // what each worker dequeued, in the order of the dequeues
    overruns: nat)

  /** One atomic step; waits are guards, and a worker whose wait times out tries again. */
  datatype Event =
    | Post(msg: Msg, nowait: bool)
    | BeginDestroy
    | SendTerminate
    | Take(worker: nat)
    | Timeout(worker: nat)
    | Join

  predicate Enabled(s: State, e: Event) {
    match e
    case Post(m, nowait) => s.phase.Serving? && m != Terminate && (nowait || |s.queue| != s.capacity)
    case BeginDestroy => s.phase.Serving?
    case SendTerminate => s.phase.Destroying? && s.phase.sent < |s.running| && |s.queue| != s.capacity
    case Take(w) => w < |s.running| && s.running[w] && s.queue != []
    case Timeout(w) => w < |s.running| && s.running[w] && s.queue == []
    case Join => s.phase.Destroying? && s.phase.sent == |s.running| && s.phase.joined < |s.running| && !s.running[s.phase.joined]
  }

  /** push_back: a full queue loses its oldest message. */
  function Pushed(s: State, m: Msg): State {
    var all := s.queue + [m];
    if |s.queue| == s.capacity then s.(queue := all[1..], posted := s.posted + [m], overruns := s.overruns + 1)
    else s.(queue := all, posted := s.posted + [m])
  }

  function Step(s: State, e: Event): State
    requires Enabled(s, e)
  {
    match e
    case Post(m, _) => Pushed(s, m)
    case BeginDestroy => s.(phase := Destroying(0, 0))
    case SendTerminate => Pushed(s, Terminate).(phase := s.phase.(sent := s.phase.sent + 1))
    case Take(w) =>
      var m := s.queue[0];
      s.(queue := s.queue[1..], taken := s.taken + [(w, m)], running := s.running[w := m != Terminate])
    case Timeout(_) => s
    case Join => s.(phase := s.phase.(joined := s.phase.joined + 1))
  }

  /** The constructor accepts from 1 to 1000 threads. */
  predicate Init(s: State) {
    && 1 <= |s.running| <= 1000 && (forall w :: 0 <= w < |s.running| ==> s.running[w])
    && s.queue == [] && s.phase == Serving && s.posted == [] && s.taken == [] && s.overruns == 0
  }

  function Messages(taken: seq<(nat, Msg)>): seq<Msg> {
    seq(|taken|, i requires 0 <= i < |taken| => taken[i].1)
  }

  /** How many terminate messages there are, and how many of them worker w took. */
  function Terminates(ms: seq<Msg>): nat {
    if ms == [] then 0 else Terminates(ms[..|ms| - 1]) + if ms[|ms| - 1] == Terminate then 1 else 0
  }

  function TerminatesOf(taken: seq<(nat, Msg)>, w: nat): nat {
    if taken == [] then 0
    else TerminatesOf(taken[..|taken| - 1], w) + if taken[|taken| - 1] == (w, Terminate) then 1 else 0
  }

  function Stopped(running: seq<bool>): nat {
    if running == [] then 0 else Stopped(running[..|running| - 1]) + if running[|running| - 1] then 0 else 1
  }

  /** The messages still to be handled follow those already handled. */
  function All(s: State): seq<Msg> {
    Messages(s.taken) + s.queue
  }

  function Sent(s: State): nat {
    if s.phase.Serving? then 0 else s.phase.sent
  }

  /** a is what remains of b when some messages are left out. */
  predicate Subsequence(a: seq<Msg>, b: seq<Msg>) {
    || a == []
    || (b != [] && a[|a| - 1] == b[|b| - 1] && Subsequence(a[..|a| - 1], b[..|b| - 1]))
    || (b != [] && Subsequence(a, b[..|b| - 1]))
  }

  /** The messages posted before those that wait now. */
  function Gone(s: State): seq<Msg>
    requires |s.queue| <= |s.posted|
  {
    s.posted[..|s.posted| - |s.queue|]
  }

  /**
    First in, first out: those that wait are always the newest ones, those taken are in order among the ones
    before, and one message is missing there for each overrun.
   */
  ghost predicate FifoInv(s: State) {
    && |s.queue| <= s.capacity
    && |s.posted| == |All(s)| + s.overruns
    && s.posted == Gone(s) + s.queue
    && Subsequence(Messages(s.taken), Gone(s))
    && (s.overruns == 0 ==> All(s) == s.posted)
  }

  /** The terminate messages come last. */
  ghost predicate LastInv(s: State) {
    && Sent(s) <= |All(s)|
    && forall i :: 0 <= i < |All(s)| ==> (All(s)[i] == Terminate <==> i >= |All(s)| - Sent(s))
  }

  /** A worker has stopped exactly when it took a terminate message, and it took only one. */
  ghost predicate WorkersOk(running: seq<bool>, taken: seq<(nat, Msg)>) {
    && 1 <= |running|
    && Stopped(running) == Terminates(Messages(taken))
    && forall w :: 0 <= w < |running| ==> TerminatesOf(taken, w) == if running[w] then 0 else 1
  }

  ghost predicate WorkerInv(s: State) {
    WorkersOk(s.running, s.taken)
  }

  ghost predicate DestroyInv(s: State) {
    s.phase.Destroying? ==>
      && s.phase.sent <= |s.running| && s.phase.joined <= |s.running|
      && (s.phase.joined > 0 ==> s.phase.sent == |s.running|)
      && forall w :: 0 <= w < s.phase.joined ==> !s.running[w]
  }

  ghost predicate Inv(s: State) {
    FifoInv(s) && LastInv(s) && WorkerInv(s) && DestroyInv(s)
  }

  lemma MessagesSnoc(taken: seq<(nat, Msg)>, w: nat, m: Msg)
    ensures Messages(taken + [(w, m)]) == Messages(taken) + [m]
  {
  }

  lemma TerminatesSnoc(ms: seq<Msg>, m: Msg)
    ensures Terminates(ms + [m]) == Terminates(ms) + if m == Terminate then 1 else 0
  {
    assert (ms + [m])[..|ms|] == ms;
  }

  lemma TerminatesOfSnoc(taken: seq<(nat, Msg)>, t: (nat, Msg), w: nat)
    ensures TerminatesOf(taken + [t], w) == TerminatesOf(taken, w) + if t == (w, Terminate) then 1 else 0
  {
    assert (taken + [t])[..|taken|] == taken;
  }

  lemma {:induction false} StoppedUpdate(running: seq<bool>, w: nat, b: bool)
    requires w < |running| && running[w]
    ensures Stopped(running[w := b]) == Stopped(running) + if b then 0 else 1
  {
    var n := |running| - 1;
    if w < n {
      StoppedUpdate(running[..n], w, b);
      assert running[w := b][..n] == running[..n][w := b];
    } else {
      assert running[w := b][..n] == running[..n];
    }
  }

  /** Taking a message moves it from one part of the history to the other. */
  lemma TakeKeepsAll(s: State, w: nat)
    requires Enabled(s, Take(w))
    ensures All(Step(s, Take(w))) == All(s)
  {
    MessagesSnoc(s.taken, w, s.queue[0]);
  }

  lemma PushedAll(s: State, m: Msg)
    requires |s.queue| <= s.capacity
    ensures |s.queue| != s.capacity ==> All(Pushed(s, m)) == All(s) + [m]
    ensures |s.queue| == s.capacity ==> |All(Pushed(s, m))| == |All(s)|
    ensures forall i :: 0 <= i < |All(Pushed(s, m))| ==> All(Pushed(s, m))[i] in All(s) + [m]
  {
  }

  lemma SubsequenceSkips(a: seq<Msg>, b: seq<Msg>, m: Msg)
    requires Subsequence(a, b)
    ensures Subsequence(a, b + [m])
  {
    assert (b + [m])[..|b|] == b;
  }

  lemma SubsequenceTakes(a: seq<Msg>, b: seq<Msg>, m: Msg)
    requires Subsequence(a, b)
    ensures Subsequence(a + [m], b + [m])
  {
    assert (a + [m])[..|a|] == a && (b + [m])[..|b|] == b;
  }

  /** A message that overruns the queue pushes out the oldest one waiting, or itself if there is no room at all. */
  lemma PushKeepsFifo(s: State, m: Msg)
    requires FifoInv(s)
    ensures FifoInv(Pushed(s, m))
  {
    PushedAll(s, m);
    var t, all := Pushed(s, m), s.queue + [m];
    assert t.posted == Gone(s) + all;
    if |s.queue| == s.capacity {
      assert t.posted == (Gone(s) + [all[0]]) + t.queue;
      assert Gone(t) == Gone(s) + [all[0]];
      SubsequenceSkips(Messages(s.taken), Gone(s), all[0]);
    } else {
      assert Gone(t) == Gone(s);
    }
    hide Subsequence;
  }

  lemma TakeKeepsFifo(s: State, w: nat)
    requires FifoInv(s) && Enabled(s, Take(w))
    ensures FifoInv(Step(s, Take(w)))
  {
    TakeKeepsAll(s, w);
    MessagesSnoc(s.taken, w, s.queue[0]);
    SubsequenceTakes(Messages(s.taken), Gone(s), s.queue[0]);
    hide Subsequence;
    assert s.posted == (Gone(s) + [s.queue[0]]) + s.queue[1..];
    assert Gone(Step(s, Take(w))) == Gone(s) + [s.queue[0]];
  }

  lemma StepKeepsFifo(s: State, e: Event)
    requires FifoInv(s) && Enabled(s, e)
    ensures FifoInv(Step(s, e))
  {
    match e
    case Post(m, _) => PushKeepsFifo(s, m);
    case SendTerminate => PushKeepsFifo(s, Terminate);
    case Take(w) => TakeKeepsFifo(s, w);
    case _ =>
  }

  lemma StepKeepsLast(s: State, e: Event)
    requires FifoInv(s) && LastInv(s) && Enabled(s, e)
    ensures LastInv(Step(s, e))
  {
    match e
    case Post(m, _) => PushedAll(s, m);
    case SendTerminate => PushedAll(s, Terminate);
    case Take(w) => TakeKeepsAll(s, w);
    case _ =>
  }

  lemma WorkerAfterTake(running: seq<bool>, taken: seq<(nat, Msg)>, w: nat, m: Msg, v: nat)
    requires WorkersOk(running, taken) && w < |running| && running[w] && v < |running|
    ensures TerminatesOf(taken + [(w, m)], v) == if running[w := m != Terminate][v] then 0 else 1
  {
    TerminatesOfSnoc(taken, (w, m), v);
    assert TerminatesOf(taken, v) == if running[v] then 0 else 1;
    hide *;
  }

  lemma CountAfterTake(running: seq<bool>, taken: seq<(nat, Msg)>, w: nat, m: Msg)
    requires WorkersOk(running, taken) && w < |running| && running[w]
    ensures Stopped(running[w := m != Terminate]) == Terminates(Messages(taken + [(w, m)]))
  {
    hide Stopped, Terminates, TerminatesOf;
    MessagesSnoc(taken, w, m);
    TerminatesSnoc(Messages(taken), m);
    StoppedUpdate(running, w, m != Terminate);
  }

  lemma TakeKeepsWorkers(running: seq<bool>, taken: seq<(nat, Msg)>, w: nat, m: Msg)
    requires WorkersOk(running, taken) && w < |running| && running[w]
    ensures WorkersOk(running[w := m != Terminate], taken + [(w, m)])
  {
    hide Stopped, Terminates, TerminatesOf, Messages;
    CountAfterTake(running, taken, w, m);
    forall v | 0 <= v < |running|
      ensures TerminatesOf(taken + [(w, m)], v) == if running[w := m != Terminate][v] then 0 else 1
    {
      WorkerAfterTake(running, taken, w, m, v);
    }
  }

  lemma StepKeepsWorkers(s: State, e: Event)
    requires WorkerInv(s) && Enabled(s, e)
    ensures WorkerInv(Step(s, e))
  {
    hide WorkersOk;
    if e.Take? {
      TakeKeepsWorkers(s.running, s.taken, e.worker, s.queue[0]);
    }
  }

  lemma StepKeepsInv(s: State, e: Event)
    requires Inv(s) && Enabled(s, e)
    ensures Inv(Step(s, e))
  {
    hide FifoInv, LastInv, WorkerInv;
    StepKeepsFifo(s, e);
    StepKeepsLast(s, e);
    StepKeepsWorkers(s, e);
  }

  lemma {:induction false} NoneStopped(running: seq<bool>)
    requires forall w :: 0 <= w < |running| ==> running[w]
    ensures Stopped(running) == 0
  {
    if running != [] {
      NoneStopped(running[..|running| - 1]);
    }
  }

  lemma InitEstablishesInv(s: State)
    requires Init(s)
    ensures Inv(s)
  {
    NoneStopped(s.running);
  }

  /** A run is a state reached from an initial one by enabled events. */
  ghost predicate Run(states: seq<State>, events: seq<Event>) {
    && |states| == |events| + 1 && Init(states[0])
    && forall i :: 0 <= i < |events| ==> Enabled(states[i], events[i]) && states[i + 1] == Step(states[i], events[i])
  }

  lemma {:induction false} RunKeepsInv(states: seq<State>, events: seq<Event>)
    requires Run(states, events)
    ensures Inv(states[|events|])
    ensures |states[|events|].running| == |states[0].running| && states[|events|].capacity == states[0].capacity
  {
    hide Inv, Init;
    if events == [] {
      InitEstablishesInv(states[0]);
    } else {
      var n := |events| - 1;
      assert Run(states[..n + 1], events[..n]);
      RunKeepsInv(states[..n + 1], events[..n]);
      StepKeepsInv(states[n], events[n]);
    }
  }

  /** With the blocking policy nothing is ever lost, so what was taken and what waits are all that was posted, in its order. */
  lemma {:induction false} BlockingRunIsFifo(states: seq<State>, events: seq<Event>)
    requires Run(states, events) && forall i :: 0 <= i < |events| ==> !(events[i].Post? && events[i].nowait)
    ensures states[|events|].overruns == 0
    ensures Messages(states[|events|].taken) + states[|events|].queue == states[|events|].posted
  {
    hide Init;
    RunKeepsInv(states, events);
    if events == [] {
      InitFacts(states[0]);
    } else {
      var n := |events| - 1;
      assert Run(states[..n + 1], events[..n]);
      BlockingRunIsFifo(states[..n + 1], events[..n]);
    }
  }

  lemma {:induction false} TerminatesBound(ms: seq<Msg>, sent: nat)
    requires sent <= |ms| && forall i :: 0 <= i < |ms| ==> (ms[i] == Terminate <==> i >= |ms| - sent)
    ensures Terminates(ms) == sent
  {
    if ms != [] {
      TerminatesBound(ms[..|ms| - 1], if sent == 0 then 0 else sent - 1);
    }
  }

  lemma {:induction false} TerminatesConcat(a: seq<Msg>, b: seq<Msg>)
    ensures Terminates(a + b) == Terminates(a) + Terminates(b)
  {
    if b == [] {
      assert a + b == a;
    } else {
      assert (a + b)[..|a + b| - 1] == a + b[..|b| - 1];
      TerminatesConcat(a, b[..|b| - 1]);
    }
  }

  lemma {:induction false} AllStopped(running: seq<bool>)
    ensures Stopped(running) <= |running|
    ensures Stopped(running) == |running| <==> forall w :: 0 <= w < |running| ==> !running[w]
  {
    if running != [] {
      AllStopped(running[..|running| - 1]);
    }
  }

  predicate Finished(s: State) {
    s.phase.Destroying? && s.phase.joined == |s.running|
  }

  lemma SentIsTerminates(s: State)
    requires Inv(s)
    ensures Sent(s) == Stopped(s.running) + Terminates(s.queue)
  {
    TerminatesBound(All(s), Sent(s));
    TerminatesConcat(Messages(s.taken), s.queue);
  }

  lemma QueueEndsWithTerminate(s: State)
    requires LastInv(s) && Sent(s) > 0 && s.queue != []
    ensures Terminates(s.queue) > 0
  {
    var last := |All(s)| - 1;
    assert All(s)[last] == s.queue[|s.queue| - 1];
  }

  /** When the destructor returns, the queue is drained, every message was handled in order, and each worker took one terminate. */
  lemma FinishedIsDrained(s: State)
    requires Inv(s) && Finished(s)
    ensures s.queue == []
    ensures s.overruns == 0 ==> Messages(s.taken) == s.posted
    ensures Subsequence(Messages(s.taken), s.posted) && |s.posted| == |s.taken| + s.overruns
    ensures forall w :: 0 <= w < |s.running| ==> !s.running[w] && TerminatesOf(s.taken, w) == 1
  {
    AllStopped(s.running);
    SentIsTerminates(s);
    assert s.phase.sent == |s.running|;
    if s.queue != [] {
      QueueEndsWithTerminate(s);
    }
    assert Messages(s.taken) + [] == Messages(s.taken);
    assert s.posted == Gone(s) + s.queue == Gone(s);
  }

  /** The terminates still to be sent and taken, the messages still to be taken, and the workers still to be joined. */
  function Measure(s: State): int
    requires s.phase.Destroying?
  {
    2 * (|s.running| - s.phase.sent) + |s.queue| + |s.running| - s.phase.joined
  }

  /** During the shutdown each step other than a timeout brings the end nearer. */
  lemma StepDecreases(s: State, e: Event)
    requires Inv(s) && s.phase.Destroying? && Enabled(s, e) && !e.Timeout?
    ensures Step(s, e).phase.Destroying? && 0 <= Measure(Step(s, e)) < Measure(s)
  {
    StepKeepsInv(s, e);
  }

  lemma {:induction false} SomeRunning(running: seq<bool>) returns (w: nat)
    requires Stopped(running) < |running|
    ensures w < |running| && running[w]
  {
    var n := |running| - 1;
    if running[n] {
      w := n;
    } else {
      w := SomeRunning(running[..n]);
    }
  }

  /** With room for a message, the shutdown is never stuck before its end: some step other than a timeout is enabled. */
  lemma ShutdownIsNotStuck(s: State) returns (e: Event)
    requires Inv(s) && s.phase.Destroying? && !Finished(s) && s.capacity >= 1
    ensures Enabled(s, e) && !e.Timeout?
  {
    SentIsTerminates(s);
    AllStopped(s.running);
    if s.phase.sent < |s.running| && |s.queue| != s.capacity {
      e := SendTerminate;
    } else if s.queue != [] {
      StoppedBelowSent(s);
      var w := SomeRunning(s.running);
      e := Take(w);
    } else {
      e := Join;
    }
  }

  /** While messages are in the queue of a shutdown, some worker runs. */
  lemma StoppedBelowSent(s: State)
    requires Inv(s) && s.phase.Destroying? && s.queue != []
    ensures Stopped(s.running) < |s.running|
  {
    SentIsTerminates(s);
    if Sent(s) > 0 {
      QueueEndsWithTerminate(s);
    }
  }

  /** So from any point of the shutdown it can be completed, in at most Measure steps. */
  lemma {:induction false} ShutdownCompletes(s: State) returns (events: seq<Event>, end: State)
    requires Inv(s) && s.phase.Destroying? && s.capacity >= 1
    ensures Finished(end) && Inv(end) && Reaches(s, events, end) && |events| <= Measure(s)
    decreases Measure(s)
  {
    hide Inv;
    MeasureBound(s);
    if Finished(s) {
      events, end := [], s;
    } else {
      var e := ShutdownIsNotStuck(s);
      StepDecreases(s, e);
      StepKeepsInv(s, e);
      StepKeepsCapacity(s, e);
      var rest;
      rest, end := ShutdownCompletes(Step(s, e));
      events := [e] + rest;
    }
  }

  lemma MeasureBound(s: State)
    requires Inv(s) && s.phase.Destroying?
    ensures Measure(s) >= 0
  {
  }

  lemma StepKeepsCapacity(s: State, e: Event)
    requires Enabled(s, e)
    ensures Step(s, e).capacity == s.capacity && |Step(s, e).running| == |s.running|
  {
  }

  ghost predicate Reaches(s: State, events: seq<Event>, end: State)
    decreases |events|
  {
    if events == [] then s == end
    else Enabled(s, events[0]) && Reaches(Step(s, events[0]), events[1..], end)
  }

  /** No run of a shutdown has more steps other than timeouts than its measure, so it cannot go on for ever. */
  lemma {:induction false} ShutdownIsBounded(s: State, events: seq<Event>, end: State)
    requires Inv(s) && s.phase.Destroying? && Reaches(s, events, end)
    requires forall i :: 0 <= i < |events| ==> !events[i].Timeout?
    ensures |events| <= Measure(s)
    decreases |events|
  {
    hide Inv;
    MeasureBound(s);
    if events != [] {
      StepDecreases(s, events[0]);
      StepKeepsInv(s, events[0]);
      ShutdownIsBounded(Step(s, events[0]), events[1..], end);
    }
  }

  /** Without any room no terminate message can be sent: the destructor waits for ever. */
  lemma {:induction false} ZeroCapacityBlocks(s: State, events: seq<Event>, end: State)
    requires Inv(s) && s.capacity == 0 && Sent(s) == 0 && Reaches(s, events, end)
    ensures Inv(end) && Sent(end) == 0 && !Finished(end)
    decreases |events|
  {
    hide FifoInv, LastInv, WorkerInv;
    QueueFits(s);
    if events != [] {
      StepKeepsInv(s, events[0]);
      StepKeepsCapacity(s, events[0]);
      ZeroCapacityBlocks(Step(s, events[0]), events[1..], end);
    } else {
      HasWorkers(s);
    }
  }

  lemma QueueFits(s: State)
    requires Inv(s)
    ensures |s.queue| <= s.capacity
  {
  }

  lemma HasWorkers(s: State)
    requires Inv(s)
    ensures |s.running| >= 1
  {
  }

  /** The destructor can return exactly if the queue has room for at least one message. */
  lemma ShutdownEndsIff(s: State)
    requires Init(s)
    ensures (exists events, end :: Reaches(s, events, end) && Finished(end)) <==> s.capacity >= 1
  {
    hide Inv, Init;
    InitEstablishesInv(s);
    InitFacts(s);
    if s.capacity >= 1 {
      var d := Step(s, BeginDestroy);
      StepKeepsInv(s, BeginDestroy);
      var events, end := ShutdownCompletes(d);
      var all := [BeginDestroy] + events;
      assert all[1..] == events;
      assert Reaches(s, all, end);
    } else {
      forall events, end | Reaches(s, events, end)
        ensures !Finished(end)
      {
        ZeroCapacityBlocks(s, events, end);
      }
    }
  }

  lemma InitFacts(s: State)
    requires Init(s)
    ensures s.phase == Serving && s.overruns == 0
  {
  }
}
