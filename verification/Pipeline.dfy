/**
  The goroutines of examples/go-trace-verifier/main.go as a system of interleaved steps: one
  producer, any number of workers, the closer and the collector, over two bounded channels.
  A send on a closed channel and a second close panic, as in Go; that neither can happen is proved.
 */
module Pipeline {
  import opened Basics
  import opened Locations
  import opened Work
  import P = Proto

  const WORK_CH_BUFFER: nat := 32

  /** What is fixed for a run: the argument n, the number of workers, the stream, and the answers. */
  datatype Config = Config(n: nat, workers: nat, input: seq<P.Notification>, rpc: Rpc)

  /** main exits with code 2 before starting anything unless both are positive. */
  ghost predicate Started(c: Config) {
    c.n > 0 && c.workers > 0
  }

  /** The producer waits in Recv, walks the traces of a notification, has returned, or has run its deferred close. */
  datatype Producer = Receiving | Iterating(rest: seq<P.BlockCallTraces>) | Returned | Closed

  /** A worker waits for work, is about to fetch and compare, is about to send its result, or has returned. */
  datatype Worker = Idle | Busy(work: BlockWork) | Holding(result: BlockResult) | Exited

  datatype State = State(
    input: seq<P.Notification>,
    producer: Producer,
    sent: nat,
    workCh: seq<BlockWork>,
    workClosed: bool,
    workers: seq<Worker>,
    resultCh: seq<BlockResult>,
    resultClosed: bool,
    closerDone: bool,
    collected: seq<BlockResult>,
    totals: Totals,
    collectorDone: bool,
    panicked: bool)

  datatype Step =
    | Recv | RecvFails | NextBlock | CloseWork
    | Take(i: nat) | Compare(i: nat) | Deliver(i: nat) | Exit(i: nat)
    | CloseResults
    | Collect | Finish

  function Init(c: Config): State {
    State(c.input, Receiving, 0, [], false, seq(c.workers, _ => Idle), [], false, false, [], ZERO, false, false)
  }

  // ---- the steps

  /** Whether the goroutine is at this point and, for channel operations, whether the channel lets it go on. */
  predicate Enabled(c: Config, s: State, a: Step) {
    !s.panicked &&
    match a
    case Recv => s.producer.Receiving? && s.input != []
    case RecvFails => s.producer.Receiving? && s.input == []
    case NextBlock =>
      s.producer.Iterating? &&
      (s.producer.rest == [] || |s.producer.rest[0].txs| == 0 || s.workClosed || |s.workCh| < WORK_CH_BUFFER)
    case CloseWork => s.producer.Returned?
    case Take(i) => i < |s.workers| && s.workers[i].Idle? && s.workCh != []
    case Compare(i) => i < |s.workers| && s.workers[i].Busy?
    case Deliver(i) =>
      i < |s.workers| && s.workers[i].Holding? && (s.resultClosed || |s.resultCh| < 2 * c.workers)
    case Exit(i) => i < |s.workers| && s.workers[i].Idle? && s.workCh == [] && s.workClosed
    case CloseResults => !s.closerDone && AllExited(s.workers)
    case Collect => !s.collectorDone && s.resultCh != []
    case Finish => !s.collectorDone && s.resultCh == [] && s.resultClosed
  }

  predicate AllExited(ws: seq<Worker>) {
    forall i :: 0 <= i < |ws| ==> ws[i].Exited?
  }

  /** One turn of the producer's inner loop: end of the list, an empty trace, or a send. */
  function NextBlockStep(c: Config, s: State): State
    requires s.producer.Iterating?
  {
    var rest := s.producer.rest;
    if rest == [] then s.(producer := Receiving)
    else if |rest[0].txs| == 0 then s.(producer := Iterating(rest[1..]))
    else if s.workClosed then s.(panicked := true)
    else
      s.(workCh := s.workCh + [BlockWork(s.sent, rest[0].blockNumber, rest[0].txs)],
         sent := s.sent + 1,
         producer := if s.sent + 1 >= c.n then Returned else Iterating(rest[1..]))
  }

  function Next(c: Config, s: State, a: Step): State
    requires Enabled(c, s, a)
  {
    match a
    case Recv => s.(input := s.input[1..], producer := Iterating(TracesOf(s.input[0])))
    case RecvFails => s.(producer := Returned)
    case NextBlock => NextBlockStep(c, s)
    case CloseWork => if s.workClosed then s.(panicked := true) else s.(producer := Closed, workClosed := true)
    case Take(i) => s.(workCh := s.workCh[1..], workers := s.workers[i := Busy(s.workCh[0])])
    case Compare(i) => s.(workers := s.workers[i := Holding(Process(s.workers[i].work, c.rpc))])
    case Deliver(i) =>
      if s.resultClosed then s.(panicked := true)
      else s.(resultCh := s.resultCh + [s.workers[i].result], workers := s.workers[i := Idle])
    case Exit(i) => s.(workers := s.workers[i := Exited])
    case CloseResults => if s.resultClosed then s.(panicked := true) else s.(closerDone := true, resultClosed := true)
    case Collect =>
      s.(resultCh := s.resultCh[1..], collected := s.collected + [s.resultCh[0]], totals := s.totals.Add(s.resultCh[0]))
    case Finish => s.(collectorDone := true)
  }

  /** A run: a start in the initial state and one enabled step after another. */
  ghost predicate IsRun(c: Config, states: seq<State>, steps: seq<Step>) {
    && |states| == |steps| + 1
    && states[0] == Init(c)
    && forall i :: 0 <= i < |steps| ==> Enabled(c, states[i], steps[i]) && states[i + 1] == Next(c, states[i], steps[i])
  }

  // ---- the invariant

  /** How often `r` occurs in a channel. */
  function Count(rs: seq<BlockResult>, r: BlockResult): nat {
    multiset(rs)[r]
  }

  /** How often a worker still owes the result `r`. */
  function Owed(c: Config, w: Worker, r: BlockResult): nat {
    match w
    case Busy(work) => if Process(work, c.rpc) == r then 1 else 0
    case Holding(result) => if result == r then 1 else 0
    case _ => 0
  }

  function AllOwed(c: Config, ws: seq<Worker>, r: BlockResult): nat {
    if |ws| == 0 then 0 else AllOwed(c, ws[..|ws| - 1], r) + Owed(c, ws[|ws| - 1], r)
  }

  /** How often the result `r` of the work sent so far occurs, wherever it currently is. */
  function Everywhere(c: Config, s: State, r: BlockResult): nat {
    Count(Results(s.workCh, c.rpc), r) + AllOwed(c, s.workers, r) + Count(s.resultCh, r) + Count(s.collected, r)
  }

  /** How many workers have a unit of work in hand. */
  function InFlight(ws: seq<Worker>): nat {
    if |ws| == 0 then 0
    else InFlight(ws[..|ws| - 1]) + if ws[|ws| - 1].Busy? || ws[|ws| - 1].Holding? then 1 else 0
  }

  /** The traces that the producer has still to look at. */
  function Ahead(s: State): seq<P.BlockCallTraces> {
    match s.producer
    case Receiving => AllTraces(s.input)
    case Iterating(rest) => NonEmpty(rest) + AllTraces(s.input)
    case _ => []
  }

  ghost predicate ProducerInv(c: Config, s: State) {
    var all := AllTraces(c.input);
    && s.sent <= |all|
    && s.sent <= c.n
    && (s.producer.Receiving? || s.producer.Iterating? ==> s.sent < c.n && all[s.sent..] == Ahead(s))
    && (s.producer.Returned? || s.producer.Closed? ==> s.sent == |Expected(c.input, c.n)|)
  }

  /** Work is conserved: nothing sent is lost, duplicated or altered on the way to the collector. */
  ghost predicate Conserved(c: Config, s: State)
    requires s.sent <= |AllTraces(c.input)|
  {
    forall r :: Everywhere(c, s, r) == Count(Results(ToWork(AllTraces(c.input), s.sent), c.rpc), r)
  }

  /** Who may have closed what, and what a close implies. */
  ghost predicate ChannelInv(c: Config, s: State) {
    && !s.panicked
    && |s.workers| == c.workers
    && |s.workCh| <= WORK_CH_BUFFER
    && |s.resultCh| <= 2 * c.workers
    && (s.workClosed <==> s.producer.Closed?)
    && (s.resultClosed <==> s.closerDone)
    && (s.closerDone ==> AllExited(s.workers))
    && (forall i :: 0 <= i < |s.workers| && s.workers[i].Exited? ==> s.workClosed && s.workCh == [])
    && (s.collectorDone ==> s.resultClosed && s.resultCh == [])
  }

  ghost predicate Inv(c: Config, s: State) {
    && ChannelInv(c, s)
    && ProducerInv(c, s)
    && Conserved(c, s)
    && s.sent == |s.workCh| + InFlight(s.workers) + |s.resultCh| + |s.collected|
    && s.totals == Sum(s.collected)
  }

  // ---- bookkeeping

  lemma {:induction false} AllOwedUpdate(c: Config, ws: seq<Worker>, i: nat, w: Worker, r: BlockResult)
    requires i < |ws|
    ensures AllOwed(c, ws[i := w], r) + Owed(c, ws[i], r) == AllOwed(c, ws, r) + Owed(c, w, r)
  {
    hide Owed;
    var n := |ws|;
    if i == n - 1 {
      assert ws[i := w][..n - 1] == ws[..n - 1];
    } else {
      AllOwedUpdate(c, ws[..n - 1], i, w, r);
      assert ws[i := w][..n - 1] == ws[..n - 1][i := w];
    }
  }

  lemma {:induction false} NothingOwed(c: Config, ws: seq<Worker>, r: BlockResult)
    requires forall i :: 0 <= i < |ws| ==> ws[i].Idle? || ws[i].Exited?
    ensures AllOwed(c, ws, r) == 0
  {
    if |ws| == 0 {
    } else {
      NothingOwed(c, ws[..|ws| - 1], r);
    }
  }

  lemma {:induction false} InFlightUpdate(ws: seq<Worker>, i: nat, w: Worker)
    requires i < |ws|
    ensures InFlight(ws[i := w]) + (if ws[i].Busy? || ws[i].Holding? then 1 else 0)
         == InFlight(ws) + if w.Busy? || w.Holding? then 1 else 0
  {
    var n := |ws|;
    if i == n - 1 {
      assert ws[i := w][..n - 1] == ws[..n - 1];
    } else {
      InFlightUpdate(ws[..n - 1], i, w);
      assert ws[i := w][..n - 1] == ws[..n - 1][i := w];
    }
  }

  lemma {:induction false} NothingInFlight(ws: seq<Worker>)
    requires forall i :: 0 <= i < |ws| ==> ws[i].Idle? || ws[i].Exited?
    ensures InFlight(ws) == 0
  {
    if |ws| == 0 {
    } else {
      NothingInFlight(ws[..|ws| - 1]);
    }
  }

  lemma CountSnoc(rs: seq<BlockResult>, x: BlockResult, r: BlockResult)
    ensures Count(rs + [x], r) == Count(rs, r) + if x == r then 1 else 0
  {
  }

  lemma CountTail(rs: seq<BlockResult>, r: BlockResult)
    requires rs != []
    ensures Count(rs, r) == Count(rs[1..], r) + if rs[0] == r then 1 else 0
  {
    assert rs == [rs[0]] + rs[1..];
  }

  lemma ResultsSnoc(ws: seq<BlockWork>, w: BlockWork, rpc: Rpc, r: BlockResult)
    ensures Count(Results(ws + [w], rpc), r) == Count(Results(ws, rpc), r) + if Process(w, rpc) == r then 1 else 0
  {
    assert Results(ws + [w], rpc) == Results(ws, rpc) + [Process(w, rpc)];
    CountSnoc(Results(ws, rpc), Process(w, rpc), r);
  }

  lemma ResultsTail(ws: seq<BlockWork>, rpc: Rpc, r: BlockResult)
    requires ws != []
    ensures Count(Results(ws, rpc), r) == Count(Results(ws[1..], rpc), r) + if Process(ws[0], rpc) == r then 1 else 0
  {
    assert Results(ws, rpc)[1..] == Results(ws[1..], rpc);
    CountTail(Results(ws, rpc), r);
  }

  predicate OfProducer(a: Step) {
    a.Recv? || a.RecvFails? || a.NextBlock? || a.CloseWork?
  }

  predicate OfWorker(a: Step) {
    a.Take? || a.Compare? || a.Deliver? || a.Exit?
  }

  // ---- every step keeps the invariant

  lemma InitInv(c: Config)
    requires Started(c)
    ensures Inv(c, Init(c))
  {
    forall r
      ensures AllOwed(c, Init(c).workers, r) == 0
    {
      NothingOwed(c, Init(c).workers, r);
    }
    NothingInFlight(Init(c).workers);
    assert AllTraces(c.input)[0..] == AllTraces(c.input);
  }

  lemma ChannelsKept(c: Config, s: State, a: Step)
    requires Started(c) && Inv(c, s) && Enabled(c, s, a)
    ensures ChannelInv(c, Next(c, s, a))
  {
    hide Conserved, ProducerInv, Sum, Process, TracesOf;
  }

  ghost predicate Sends(s: State, a: Step) {
    a.NextBlock? && s.producer.Iterating? && s.producer.rest != [] && |s.producer.rest[0].txs| > 0
  }

  /** What is ahead of a send: the trace that is sent, and what remains after it. */
  lemma SendAhead(c: Config, s: State)
    requires ProducerInv(c, s) && Sends(s, NextBlock)
    ensures var all, rest := AllTraces(c.input), s.producer.rest;
            all[s.sent..] == [rest[0]] + NonEmpty(rest[1..]) + AllTraces(s.input)
  {
    hide AllTraces, Expected;
  }

  lemma SendKeepsProducer(c: Config, s: State)
    requires Started(c) && Inv(c, s) && Enabled(c, s, NextBlock) && Sends(s, NextBlock)
    ensures ProducerInv(c, Next(c, s, NextBlock))
  {
    hide AllTraces, NonEmpty, TracesOf, ToWork, Conserved, Sum, Everywhere, InFlight;
    var rest := s.producer.rest;
    SendAhead(c, s);
    NextTrace(AllTraces(c.input), s.sent, rest[0], NonEmpty(rest[1..]), AllTraces(s.input));
  }

  lemma SentWork(c: Config, s: State) returns (w: BlockWork)
    requires Started(c) && Inv(c, s) && Enabled(c, s, NextBlock) && Sends(s, NextBlock)
    ensures s.sent < |AllTraces(c.input)|
    ensures ToWork(AllTraces(c.input), s.sent + 1) == ToWork(AllTraces(c.input), s.sent) + [w]
    ensures var t := Next(c, s, NextBlock);
            t.workCh == s.workCh + [w] && t.sent == s.sent + 1
            && t.workers == s.workers && t.resultCh == s.resultCh && t.collected == s.collected
  {
    hide ToWork, Conserved, Sum, Expected;
    var rest := s.producer.rest;
    w := BlockWork(s.sent, rest[0].blockNumber, rest[0].txs);
    NextTrace(AllTraces(c.input), s.sent, rest[0], NonEmpty(rest[1..]), AllTraces(s.input));
  }

  /** A send adds one unit of work to what has been sent, and its result to what is due. */
  lemma SendKept(c: Config, s: State, r: BlockResult)
    requires Started(c) && Inv(c, s) && Enabled(c, s, NextBlock) && Sends(s, NextBlock)
    requires ProducerInv(c, Next(c, s, NextBlock))
    ensures var t := Next(c, s, NextBlock);
            Everywhere(c, t, r) == Count(Results(ToWork(AllTraces(c.input), t.sent), c.rpc), r)
  {
    hide Process, ToWork, Results, Count, AllOwed, AllTraces, NonEmpty, Next, Enabled, Sends, ChannelInv, Sum, Expected;
    var w := SentWork(c, s);
    ResultsSnoc(ToWork(AllTraces(c.input), s.sent), w, c.rpc, r);
    ResultsSnoc(s.workCh, w, c.rpc, r);
    assert Everywhere(c, s, r) == Count(Results(ToWork(AllTraces(c.input), s.sent), c.rpc), r);
  }

  /** Receiving a notification or passing over an empty trace leaves what is ahead as it was. */
  lemma AheadKept(c: Config, s: State, a: Step)
    requires Enabled(c, s, a) && !Sends(s, a) && (a.Recv? || a.NextBlock?)
    ensures var t := Next(c, s, a);
            && Ahead(t) == Ahead(s)
            && t.sent == s.sent
            && (s.producer.Receiving? || s.producer.Iterating?)
            && (t.producer.Receiving? || t.producer.Iterating?)
  {
    hide TracesOf;
  }

  /** A step of the producer that sends nothing. */
  lemma LookKept(c: Config, s: State, a: Step)
    requires Started(c) && Inv(c, s) && Enabled(c, s, a) && !Sends(s, a)
    requires OfProducer(a)
    ensures ProducerInv(c, Next(c, s, a))
  {
    hide Sum, Conserved, TracesOf, NonEmpty, Everywhere, InFlight;
    if a.Recv? || a.NextBlock? {
      AheadKept(c, s, a);
      hide Enabled, Next, Ahead, ChannelInv, AllTraces;
    }
  }

  lemma WorkerMoves(c: Config, s: State, a: Step, r: BlockResult)
    requires ChannelInv(c, s) && Enabled(c, s, a) && OfWorker(a) && !Next(c, s, a).panicked
    ensures Everywhere(c, Next(c, s, a), r) == Everywhere(c, s, r)
  {
    hide AllOwed, Process, Results, Count, ChannelInv;
    AllOwedUpdate(c, s.workers, a.i, Next(c, s, a).workers[a.i], r);
    if a.Take? {
      ResultsTail(s.workCh, c.rpc, r);
    }
    if a.Deliver? {
      CountSnoc(s.resultCh, s.workers[a.i].result, r);
    }
  }

  /** Every step but a send moves at most one result from one place to the next. */
  lemma MoveKept(c: Config, s: State, a: Step, r: BlockResult)
    requires ChannelInv(c, s) && Enabled(c, s, a) && !Sends(s, a) && !Next(c, s, a).panicked
    ensures Everywhere(c, Next(c, s, a), r) == Everywhere(c, s, r) && Next(c, s, a).sent == s.sent
  {
    hide ChannelInv;
    if OfWorker(a) {
      WorkerMoves(c, s, a, r);
      hide Everywhere, Process;
    } else {
      hide Process, TracesOf, AllOwed, Results, Count;
      if a.Collect? {
        CountTail(s.resultCh, r);
        CountSnoc(s.collected, s.resultCh[0], r);
      }
    }
  }

  lemma StepKeepsInv(c: Config, s: State, a: Step)
    requires Started(c) && Inv(c, s) && Enabled(c, s, a)
    ensures Inv(c, Next(c, s, a))
  {
    var t := Next(c, s, a);
    ChannelsKept(c, s, a);
    TotalsKept(c, s, a);
    ItemsKept(c, s, a);
    if Sends(s, a) {
      SendKeepsProducer(c, s);
      forall r
        ensures Everywhere(c, t, r) == Count(Results(ToWork(AllTraces(c.input), t.sent), c.rpc), r)
      {
        SendKept(c, s, r);
      }
    } else {
      hide Next, Enabled, Sends, ChannelInv, Everywhere;
      forall r
        ensures Everywhere(c, t, r) == Everywhere(c, s, r) && t.sent == s.sent
      {
        MoveKept(c, s, a, r);
      }
      MoveKept(c, s, a, BlockResult(0, 0, 0, 0, [], false));
      OthersKeepProducer(c, s, a);
    }
  }

  lemma OthersKeepProducer(c: Config, s: State, a: Step)
    requires Started(c) && Inv(c, s) && Enabled(c, s, a) && !Sends(s, a)
    ensures ProducerInv(c, Next(c, s, a))
  {
    hide Conserved, ChannelInv, Sum, Results;
    if OfProducer(a) {
      LookKept(c, s, a);
    }
  }

  lemma WorkerKeepsItems(c: Config, s: State, a: Step)
    requires ChannelInv(c, s) && Enabled(c, s, a) && OfWorker(a) && !Next(c, s, a).panicked
    ensures var t := Next(c, s, a);
            && |t.workCh| + InFlight(t.workers) + |t.resultCh| == |s.workCh| + InFlight(s.workers) + |s.resultCh|
            && t.sent == s.sent && t.collected == s.collected
  {
    hide Process, InFlight, ChannelInv;
    InFlightUpdate(s.workers, a.i, Next(c, s, a).workers[a.i]);
  }

  lemma ItemsKept(c: Config, s: State, a: Step)
    requires Started(c) && Inv(c, s) && Enabled(c, s, a) && !Next(c, s, a).panicked
    ensures var t := Next(c, s, a);
            t.sent == |t.workCh| + InFlight(t.workers) + |t.resultCh| + |t.collected|
  {
    hide Conserved, ProducerInv, ChannelInv, TracesOf, Sum, InFlight, Process;
    if OfWorker(a) {
      WorkerKeepsItems(c, s, a);
      hide Next, Enabled;
    }
  }

  lemma TotalsKept(c: Config, s: State, a: Step)
    requires Enabled(c, s, a) && s.totals == Sum(s.collected)
    ensures Next(c, s, a).totals == Sum(Next(c, s, a).collected)
  {
    hide TracesOf, Process, AllExited;
    if a.Collect? {
      assert (s.collected + [s.resultCh[0]])[..|s.collected|] == s.collected;
    } else {
      hide Sum;
    }
  }

  /** Every state of every run satisfies the invariant. */
  lemma {:induction false} RunKeepsInv(c: Config, states: seq<State>, steps: seq<Step>, k: nat)
    requires Started(c) && IsRun(c, states, steps) && k < |states|
    ensures Inv(c, states[k])
  {
    if k == 0 {
      InitInv(c);
    } else {
      RunKeepsInv(c, states, steps, k - 1);
      StepKeepsInv(c, states[k - 1], steps[k - 1]);
    }
  }

  // ---- safety

  /** No run ever sends on a closed channel or closes one twice, and at most n blocks are sent. */
  lemma NeverPanics(c: Config, states: seq<State>, steps: seq<Step>, k: nat)
    requires Started(c) && IsRun(c, states, steps) && k < |states|
    ensures var s := states[k];
            && !s.panicked
            && s.sent <= c.n
            && s.sent == |s.workCh| + InFlight(s.workers) + |s.resultCh| + |s.collected|
  {
    RunKeepsInv(c, states, steps, k);
  }

  lemma StepStaysClosed(c: Config, s: State, a: Step)
    requires Enabled(c, s, a)
    ensures s.workClosed ==> Next(c, s, a).workClosed
    ensures s.resultClosed ==> Next(c, s, a).resultClosed
  {
    hide TracesOf, Process, AllExited;
  }

  lemma {:induction false} StaysClosed(c: Config, states: seq<State>, steps: seq<Step>, j: nat, k: nat)
    requires IsRun(c, states, steps) && j <= k < |states|
    ensures states[j].workClosed ==> states[k].workClosed
    ensures states[j].resultClosed ==> states[k].resultClosed
    decreases k
  {
    hide Next, Enabled;
    if j < k {
      StaysClosed(c, states, steps, j, k - 1);
      StepStaysClosed(c, states[k - 1], steps[k - 1]);
    }
  }

  /** Each channel is closed at most once in a run. */
  lemma ClosedOnce(c: Config, states: seq<State>, steps: seq<Step>, j: nat, k: nat)
    requires Started(c) && IsRun(c, states, steps) && j < k < |steps|
    ensures !(steps[j] == CloseWork && steps[k] == CloseWork)
    ensures !(steps[j] == CloseResults && steps[k] == CloseResults)
  {
    hide ProducerInv, Conserved, Sum;
    StaysClosed(c, states, steps, j + 1, k);
    RunKeepsInv(c, states, steps, j);
    RunKeepsInv(c, states, steps, k);
    RunKeepsInv(c, states, steps, k + 1);
    assert Enabled(c, states[j], steps[j]) && states[j + 1] == Next(c, states[j], steps[j]);
    assert Enabled(c, states[k], steps[k]) && states[k + 1] == Next(c, states[k], steps[k]);
  }

  /**
    The work channel holds 32 units and the result channel two for each worker: a send waits
    exactly when its channel is full.
   */
  lemma SendsWaitWhenFull(c: Config, s: State, i: nat)
    requires Started(c) && Inv(c, s) && i < |s.workers|
    ensures |s.workCh| <= 32 && |s.resultCh| <= 2 * c.workers
    ensures Sends(s, NextBlock) ==> (Enabled(c, s, NextBlock) <==> |s.workCh| != 32)
    ensures s.workers[i].Holding? ==> (Enabled(c, s, Deliver(i)) <==> |s.resultCh| != 2 * c.workers)
  {
    hide ProducerInv, Conserved, Sum;
  }

  // ---- progress

  ghost predicate SomeoneWorks(ws: seq<Worker>) {
    exists i :: 0 <= i < |ws| && (ws[i].Busy? || ws[i].Holding?)
  }

  lemma WorkersProgress(c: Config, s: State) returns (a: Step)
    requires Started(c) && Inv(c, s) && s.resultCh == [] && !s.resultClosed
    requires !(forall i :: 0 <= i < |s.workers| ==> s.workers[i].Exited?)
    requires s.workCh != [] || s.workClosed || SomeoneWorks(s.workers)
    ensures Enabled(c, s, a)
  {
    hide Conserved, ProducerInv, Sum;
    if i :| 0 <= i < |s.workers| && s.workers[i].Holding? {
      return Deliver(i);
    }
    if i :| 0 <= i < |s.workers| && s.workers[i].Busy? {
      return Compare(i);
    }
    var i :| 0 <= i < |s.workers| && !s.workers[i].Exited?;
    assert s.workers[i].Idle?;
    return if s.workCh != [] then Take(i) else Exit(i);
  }

  /** As long as the collector has not finished, some goroutine can move. */
  lemma NoDeadlock(c: Config, s: State) returns (a: Step)
    requires Started(c) && Inv(c, s) && !s.collectorDone
    ensures Enabled(c, s, a)
  {
    hide Conserved, ProducerInv, Sum;
    if s.resultCh != [] {
      return Collect;
    }
    if s.resultClosed {
      return Finish;
    }
    if AllExited(s.workers) {
      return CloseResults;
    }
    if s.workCh != [] || s.workClosed || SomeoneWorks(s.workers) {
      a := WorkersProgress(c, s);
      return;
    }
    match s.producer {
      case Receiving => return if s.input == [] then RecvFails else Recv;
      case Iterating(_) => return NextBlock;
      case Returned => return CloseWork;
      case Closed => assert false;
    }
  }

  function InputWeight(input: seq<P.Notification>): nat {
    if |input| == 0 then 0 else 2 + 5 * |TracesOf(input[0])| + InputWeight(input[1..])
  }

  function ProducerWeight(p: Producer): nat {
    match p
    case Receiving => 2
    case Iterating(rest) => 3 + 5 * |rest|
    case Returned => 1
    case Closed => 0
  }

  function WorkerWeight(w: Worker): nat {
    match w
    case Idle => 1
    case Busy(_) => 4
    case Holding(_) => 3
    case Exited => 0
  }

  function WorkersWeight(ws: seq<Worker>): nat {
    if |ws| == 0 then 0 else WorkersWeight(ws[..|ws| - 1]) + WorkerWeight(ws[|ws| - 1])
  }

  /** How many steps can still follow, at most. */
  function Remaining(s: State): nat {
    InputWeight(s.input) + ProducerWeight(s.producer) + 4 * |s.workCh| + WorkersWeight(s.workers) + |s.resultCh|
    + (if s.closerDone then 0 else 1) + (if s.collectorDone then 0 else 1)
  }

  lemma {:induction false} WorkersWeightUpdate(ws: seq<Worker>, i: nat, w: Worker)
    requires i < |ws|
    ensures WorkersWeight(ws[i := w]) + WorkerWeight(ws[i]) == WorkersWeight(ws) + WorkerWeight(w)
  {
    var n := |ws|;
    if i == n - 1 {
      assert ws[i := w][..n - 1] == ws[..n - 1];
    } else {
      WorkersWeightUpdate(ws[..n - 1], i, w);
      assert ws[i := w][..n - 1] == ws[..n - 1][i := w];
    }
  }

  lemma WorkerStepDecreases(c: Config, s: State, a: Step)
    requires Enabled(c, s, a) && OfWorker(a) && !Next(c, s, a).panicked
    ensures Remaining(Next(c, s, a)) < Remaining(s)
  {
    hide Process, WorkersWeight, InputWeight, ProducerWeight;
    WorkersWeightUpdate(s.workers, a.i, Next(c, s, a).workers[a.i]);
  }

  lemma NextBlockDecreases(c: Config, s: State)
    requires s.producer.Iterating? && !NextBlockStep(c, s).panicked
    ensures Remaining(NextBlockStep(c, s)) < Remaining(s)
  {
    hide WorkersWeight, InputWeight;
  }

  lemma ProducerStepDecreases(c: Config, s: State, a: Step)
    requires Enabled(c, s, a) && OfProducer(a) && !Next(c, s, a).panicked
    ensures Remaining(Next(c, s, a)) < Remaining(s)
  {
    hide TracesOf, WorkersWeight, AllExited;
    if a.NextBlock? {
      NextBlockDecreases(c, s);
      hide NextBlockStep;
    }
  }

  /** Every step uses up some of the remaining ones: no goroutine can spin. */
  lemma StepDecreases(c: Config, s: State, a: Step)
    requires Started(c) && Inv(c, s) && Enabled(c, s, a)
    ensures Remaining(Next(c, s, a)) < Remaining(s)
  {
    hide Conserved, ProducerInv, Sum, TracesOf, Process, WorkersWeight, InputWeight;
    ChannelsKept(c, s, a);
    if OfProducer(a) {
      ProducerStepDecreases(c, s, a);
      hide Next, Enabled, Remaining;
    } else if OfWorker(a) {
      WorkerStepDecreases(c, s, a);
      hide Next, Enabled, Remaining;
    }
  }

  /** Every run is finite: its length is bounded by the size of the stream and the number of workers. */
  lemma {:induction false} RunsAreBounded(c: Config, states: seq<State>, steps: seq<Step>, k: nat)
    requires Started(c) && IsRun(c, states, steps) && k < |states|
    ensures k + Remaining(states[k]) <= Remaining(Init(c))
  {
    if k == 0 {
    } else {
      RunsAreBounded(c, states, steps, k - 1);
      RunKeepsInv(c, states, steps, k - 1);
      StepDecreases(c, states[k - 1], steps[k - 1]);
    }
  }

  // ---- refinement of the sequential program

  /** When the collector has finished, it has collected what the sequential program computes. */
  lemma FinishedMeansAll(c: Config, s: State)
    requires Started(c) && Inv(c, s) && s.collectorDone
    ensures multiset(s.collected) == multiset(Results(Expected(c.input, c.n), c.rpc))
    ensures s.totals == Sum(Results(Expected(c.input, c.n), c.rpc))
    ensures s.totals.ExitCode() == 0 <==> forall w :: w in Expected(c.input, c.n) ==> Verified(w, c.rpc)
  {
    var ws := Expected(c.input, c.n);
    var due := Results(ws, c.rpc);
    assert s.workers[0].Exited?;
    assert ToWork(AllTraces(c.input), s.sent) == ws;
    forall r
      ensures multiset(s.collected)[r] == multiset(due)[r]
    {
      NothingOwed(c, s.workers, r);
      assert Everywhere(c, s, r) == Count(due, r);
    }
    assert multiset(s.collected) == multiset(due);
    SumOfPermutation(s.collected, due);
    ExitZeroMeansVerified(ws, c.rpc);
  }

  /**
    Whatever the interleaving: a run that can go no further has collected, as a multiset, the
    results of the first n non-empty block traces of the committed notifications, or of all of
    them if the stream ended before; its totals are those of the sequential fold; and the exit
    code is 0 exactly when every one of these blocks was fetched and matched.
   */
  lemma EveryRunRefinesSequential(c: Config, states: seq<State>, steps: seq<Step>)
    requires Started(c) && IsRun(c, states, steps)
    requires forall a :: !Enabled(c, states[|steps|], a)
    ensures var s := states[|steps|];
            && s.collectorDone
            && multiset(s.collected) == multiset(Results(Expected(c.input, c.n), c.rpc))
            && s.totals == Sum(Results(Expected(c.input, c.n), c.rpc))
            && (s.totals.ExitCode() == 0 <==> forall w :: w in Expected(c.input, c.n) ==> Verified(w, c.rpc))
  {
    var s := states[|steps|];
    RunKeepsInv(c, states, steps, |steps|);
    if !s.collectorDone {
      var a := NoDeadlock(c, s);
      assert false;
    }
    FinishedMeansAll(c, s);
  }

  /**
    What a finished run has collected, with failures and differences in it: a result for each of
    the first n units, carrying its number, counts and differences; and totals that add up to the
    answered transactions, the common frames and logs, and all places of difference.
   */
  lemma FinishedRunMeans(c: Config, states: seq<State>, steps: seq<Step>) returns (places: seq<(nat, BlockLocation)>)
    requires Started(c) && IsRun(c, states, steps)
    requires forall a :: !Enabled(c, states[|steps|], a)
    ensures var s, ws := states[|steps|], Expected(c.input, c.n);
            && |s.collected| == |ws|
            && (forall r :: r in s.collected ==> exists w :: w in ws && Describes(r, w, c.rpc))
            && (forall w :: w in ws ==> exists r :: r in s.collected && Describes(r, w, c.rpc))
            && TotalsMean(s.totals, ws, c.rpc, places)
  {
    hide Enabled, Next, Process, Describes, TotalsMean, Expected;
    EveryRunRefinesSequential(c, states, steps);
    var s, ws := states[|steps|], Expected(c.input, c.n);
    places := SumMeans(ws, c.rpc);
    assert |s.collected| == |multiset(s.collected)| == |multiset(Results(ws, c.rpc))|;
    forall r | r in s.collected
      ensures exists w :: w in ws && Describes(r, w, c.rpc)
    {
      assert r in multiset(Results(ws, c.rpc));
      var i :| 0 <= i < |ws| && Results(ws, c.rpc)[i] == r;
      ResultMeans(ws[i], c.rpc);
      assert ws[i] in ws;
    }
    forall w | w in ws
      ensures exists r :: r in s.collected && Describes(r, w, c.rpc)
    {
      var i :| 0 <= i < |ws| && ws[i] == w;
      ResultMeans(w, c.rpc);
      assert Results(ws, c.rpc)[i] in multiset(s.collected);
    }
  }

  /** A stream that ends before its first non-empty trace: every run that can go no further exits with 0, on nothing. */
  lemma EmptyStreamExitsZero(c: Config, states: seq<State>, steps: seq<Step>)
    requires Started(c) && IsRun(c, states, steps) && c.input == []
    requires forall a :: !Enabled(c, states[|steps|], a)
    ensures states[|steps|].totals == ZERO && states[|steps|].totals.ExitCode() == 0
  {
    hide Enabled, Next, IsRun;
    EveryRunRefinesSequential(c, states, steps);
    assert Expected(c.input, c.n) == [];
  }

  /** Exit code 0 after all n blocks: there were that many, and each of the first n was fetched and matched. */
  lemma AllCountedIff(c: Config, states: seq<State>, steps: seq<Step>)
    requires Started(c) && IsRun(c, states, steps)
    requires forall a :: !Enabled(c, states[|steps|], a)
    ensures var t, all := states[|steps|].totals, AllTraces(c.input);
            t.ExitCode() == 0 && t.blocks == c.n <==>
              c.n <= |all| && forall w :: w in ToWork(all, c.n) ==> Verified(w, c.rpc)
  {
    hide Enabled, Next, IsRun, AllTraces, ToWork, Verified, Sum;
    EveryRunRefinesSequential(c, states, steps);
    FailedMeansSome(Results(Expected(c.input, c.n), c.rpc));
  }

  // ---- one worker

  /** What the only worker has in hand, as a result. */
  function InHand(c: Config, w: Worker): seq<BlockResult> {
    match w
    case Busy(work) => [Process(work, c.rpc)]
    case Holding(result) => [result]
    case _ => []
  }

  /** All results of the work sent so far, from the collector back to the work channel. */
  function Line(c: Config, s: State): seq<BlockResult>
    requires |s.workers| == 1
  {
    s.collected + s.resultCh + InHand(c, s.workers[0]) + Results(s.workCh, c.rpc)
  }

  lemma ResultsConcat(a: seq<BlockWork>, b: seq<BlockWork>, rpc: Rpc)
    ensures Results(a + b, rpc) == Results(a, rpc) + Results(b, rpc)
  {
    hide Process;
  }

  lemma ResultsOne(w: BlockWork, rpc: Rpc)
    ensures Results([w], rpc) == [Process(w, rpc)]
  {
  }

  lemma SendExtendsLine(c: Config, s: State)
    requires Started(c) && c.workers == 1 && Inv(c, s) && Enabled(c, s, NextBlock) && Sends(s, NextBlock)
    requires Line(c, s) == Results(ToWork(AllTraces(c.input), s.sent), c.rpc)
    ensures var t := Next(c, s, NextBlock);
            |t.workers| == 1 && t.sent <= |AllTraces(c.input)|
            && Line(c, t) == Results(ToWork(AllTraces(c.input), t.sent), c.rpc)
  {
    hide Next, Enabled, Process, ToWork, Results, AllTraces, ProducerInv, Conserved, Sum, InHand;
    var w := SentWork(c, s);
    ResultsConcat(s.workCh, [w], c.rpc);
    ResultsConcat(ToWork(AllTraces(c.input), s.sent), [w], c.rpc);
  }

  lemma WorkerKeepsLine(c: Config, s: State, a: Step)
    requires c.workers == 1 && ChannelInv(c, s) && Enabled(c, s, a) && OfWorker(a) && !Next(c, s, a).panicked
    ensures var t := Next(c, s, a);
            |t.workers| == 1 && t.sent == s.sent && Line(c, t) == Line(c, s)
  {
    hide Results, Process, ChannelInv, AllExited;
    assert |s.workers| == 1 by { OneWorker(c, s); }
    if a.Take? {
      assert s.workCh == [s.workCh[0]] + s.workCh[1..];
      ResultsConcat([s.workCh[0]], s.workCh[1..], c.rpc);
      ResultsOne(s.workCh[0], c.rpc);
    }
  }

  lemma OneWorker(c: Config, s: State)
    requires ChannelInv(c, s)
    ensures |s.workers| == c.workers
  {
  }

  lemma MoveKeepsLine(c: Config, s: State, a: Step)
    requires Started(c) && c.workers == 1 && Inv(c, s) && Enabled(c, s, a) && !Sends(s, a)
    ensures var t := Next(c, s, a);
            |t.workers| == 1 && t.sent == s.sent && Line(c, t) == Line(c, s)
  {
    hide Results, Process, ProducerInv, Conserved, Sum, TracesOf, AllTraces, AllExited, InHand;
    ChannelsKept(c, s, a);
    if OfWorker(a) {
      WorkerKeepsLine(c, s, a);
    } else if a.Collect? {
      assert s.resultCh == [s.resultCh[0]] + s.resultCh[1..];
    }
  }

  /** With one worker nothing overtakes anything. */
  lemma {:induction false} OneWorkerKeepsOrder(c: Config, states: seq<State>, steps: seq<Step>, k: nat)
    requires Started(c) && c.workers == 1 && IsRun(c, states, steps) && k < |states|
    ensures var s := states[k];
            && |s.workers| == 1 && s.sent <= |AllTraces(c.input)|
            && Line(c, s) == Results(ToWork(AllTraces(c.input), s.sent), c.rpc)
  {
    hide Next, Enabled, Line;
    RunKeepsInv(c, states, steps, k);
    if k == 0 {
      assert Line(c, Init(c)) == [] by { NothingInLine(c); }
    } else {
      OneWorkerKeepsOrder(c, states, steps, k - 1);
      RunKeepsInv(c, states, steps, k - 1);
      if Sends(states[k - 1], steps[k - 1]) {
        SendExtendsLine(c, states[k - 1]);
      } else {
        MoveKeepsLine(c, states[k - 1], steps[k - 1]);
      }
    }
  }

  lemma NothingInLine(c: Config)
    requires c.workers == 1
    ensures Line(c, Init(c)) == []
  {
  }

  /** With one worker the results are collected in the order of the stream: the two channels are queues. */
  lemma OneWorkerIsSequential(c: Config, states: seq<State>, steps: seq<Step>)
    requires Started(c) && c.workers == 1 && IsRun(c, states, steps)
    requires forall a :: !Enabled(c, states[|steps|], a)
    ensures states[|steps|].collected == Results(Expected(c.input, c.n), c.rpc)
  {
    hide Enabled, Next, Conserved, Sum;
    var s := states[|steps|];
    EveryRunRefinesSequential(c, states, steps);
    OneWorkerKeepsOrder(c, states, steps, |steps|);
    RunKeepsInv(c, states, steps, |steps|);
    assert s.workers[0].Exited? && s.workCh == [] && s.resultCh == [];
    assert ToWork(AllTraces(c.input), s.sent) == Expected(c.input, c.n);
  }

  // ---- a scheduler

  /** The steps of a configuration, numbered. */
  function StepOf(k: nat): Step {
    match k
    case 0 => Recv
    case 1 => RecvFails
    case 2 => NextBlock
    case 3 => CloseWork
    case 4 => CloseResults
    case 5 => Collect
    case 6 => Finish
    case _ =>
      var i := (k - 7) / 4;
      match (k - 7) % 4
      case 0 => Take(i)
      case 1 => Compare(i)
      case 2 => Deliver(i)
      case _ => Exit(i)
  }

  lemma NumberOf(c: Config, s: State, a: Step) returns (k: nat)
    requires Enabled(c, s, a)
    ensures k < 7 + 4 * |s.workers| && StepOf(k) == a
  {
    match a
    case Recv => k := 0;
    case RecvFails => k := 1;
    case NextBlock => k := 2;
    case CloseWork => k := 3;
    case CloseResults => k := 4;
    case Collect => k := 5;
    case Finish => k := 6;
    case Take(i) => k := 7 + 4 * i;
    case Compare(i) => k := 8 + 4 * i;
    case Deliver(i) => k := 9 + 4 * i;
    case Exit(i) => k := 10 + 4 * i;
  }

  /** Runs the system under a scheduler that picks any enabled step: it terminates, with the sequential answer. */
  method Execute(c: Config) returns (totals: Totals)
    requires Started(c)
    ensures totals == Sum(Results(Expected(c.input, c.n), c.rpc))
    ensures totals.ExitCode() == 0 <==> forall w :: w in Expected(c.input, c.n) ==> Verified(w, c.rpc)
  {
    var s := Init(c);
    InitInv(c);
    while !s.collectorDone
      invariant Inv(c, s)
      decreases Remaining(s)
    {
      ghost var a := NoDeadlock(c, s);
      ghost var number := NumberOf(c, s, a);
      var k: nat :| k < 7 + 4 * |s.workers| && Enabled(c, s, StepOf(k));
      StepKeepsInv(c, s, StepOf(k));
      StepDecreases(c, s, StepOf(k));
      s := Next(c, s, StepOf(k));
    }
    FinishedMeansAll(c, s);
    totals := s.totals;
  }
}
