/**
  The repository end to end: what the node executed, converted and broadcast by src/exex.rs,
  read by one subscriber that asks for call traces only, and checked against JSON-RPC answers by
  the concurrent verifier of examples/go-trace-verifier/main.go.
 */
module System {
  import opened Basics
  import opened ConvertTrace
  import opened Work
  import ConvertChain
  import Diff
  import EndToEnd
  import FanOut
  import Loss
  import Pipeline
  import ReadRpc
  import Server
  import P = Proto
  import R = Reth

  /** What the verifier subscribes with. */
  const CALL_TRACES_ONLY := ConvertChain.SubscribeFlags(false, false, false, false, false, true)

  /** Whether the block yields any frame: transactions and traces are paired up. */
  predicate Yields(b: TracedBlock) {
    b.txs != [] && b.frames != []
  }

  function Yielding(bs: seq<TracedBlock>): seq<TracedBlock> {
    if |bs| == 0 then [] else (if Yields(bs[0]) then [bs[0]] else []) + Yielding(bs[1..])
  }

  /** The blocks of a notification that are to be verified: the traced ones of a committed chain. */
  function ToVerify(n: R.Notification): seq<TracedBlock> {
    match n
    case ChainCommitted(c) => Yielding(TracedBlocks(c))
    case _ => []
  }

  function AllToVerify(ns: seq<R.Notification>): seq<TracedBlock> {
    if |ns| == 0 then [] else ToVerify(ns[0]) + AllToVerify(ns[1..])
  }

  // ---- the subscriber's stream carries exactly these blocks

  lemma {:induction false} YieldingOnTheWire(bs: seq<TracedBlock>)
    ensures NonEmpty(Map(Wire, bs)) == Map(Wire, Yielding(bs))
  {
    if |bs| == 0 {
    } else {
      YieldingOnTheWire(bs[1..]);
      assert Map(Wire, bs)[1..] == Map(Wire, bs[1..]);
    }
  }

  lemma NotificationOnTheWire(n: R.Notification)
    ensures NonEmpty(TracesOf(ConvertChain.NotificationToProto(n, CALL_TRACES_ONLY))) == Map(Wire, ToVerify(n))
  {
    match n
    case ChainCommitted(c) =>
      ChainOnTheWire(c);
      YieldingOnTheWire(TracedBlocks(c));
    case _ =>
  }

  lemma MapConcat(a: seq<TracedBlock>, b: seq<TracedBlock>)
    ensures Map(Wire, a + b) == Map(Wire, a) + Map(Wire, b)
  {
    hide Wire;
  }

  lemma {:induction false} StreamOnTheWire(ns: seq<R.Notification>, input: seq<P.Notification>)
    requires |input| == |ns|
    requires forall i :: 0 <= i < |ns| ==> input[i] == ConvertChain.NotificationToProto(ns[i], CALL_TRACES_ONLY)
    ensures AllTraces(input) == Map(Wire, AllToVerify(ns))
  {
    if |ns| == 0 {
    } else {
      NotificationOnTheWire(ns[0]);
      hide ConvertChain.NotificationToProto, TracesOf, NonEmpty, ToVerify, Wire;
      StreamOnTheWire(ns[1..], input[1..]);
      MapConcat(ToVerify(ns[0]), AllToVerify(ns[1..]));
    }
  }

  // ---- one subscriber

  ghost function ReadBy(history: seq<R.Notification>, c: FanOut.Client): seq<R.Notification>
    requires |c.read| <= |c.sent| && forall m :: 0 <= m < |c.sent| ==> c.sent[m] < |history|
  {
    seq(|c.read|, i requires 0 <= i < |c.read| => history[c.sent[i]])
  }

  /** The notifications that a client has read, as they were broadcast. */
  ghost function Delivered(run: seq<Server.Step>, id: nat): seq<R.Notification>
    requires Server.IsRun(run) && id in Server.After(run).value.clients
  {
    var s := Server.After(run).value;
    var c := s.clients[id];
    Server.RunKeepsInv(run);
    FanOut.ExactAccount(s.history, c);
    ReadBy(s.history, c)
  }

  /** As long as at most 16 are outstanding, these are all notifications since the subscription, up to some point. */
  lemma DeliveredWithoutGaps(run: seq<Server.Step>, id: nat)
    requires Server.IsRun(run) && id in Server.After(run).value.clients
    requires Loss.OutstandingAtMost(run, id, 16)
    ensures var s := Server.After(run).value;
            var c := s.clients[id];
            && c.start + |c.read| <= |s.history|
            && Delivered(run, id) == s.history[c.start..c.start + |c.read|]
  {
    Server.RunKeepsInv(run);
    Loss.LossFreeUnderAnySchedule(run, id);
    SentWithoutGaps(Server.After(run).value.history, Server.After(run).value.clients[id]);
  }

  lemma SentWithoutGaps(history: seq<R.Notification>, c: FanOut.Client)
    requires FanOut.ClientInv(history, c) && Loss.NoLoss(c)
    ensures |c.read| <= |c.sent| && c.start + |c.sent| <= |history|
    ensures forall m :: 0 <= m < |c.sent| ==> c.sent[m] < |history|
    ensures ReadBy(history, c) == history[c.start..c.start + |c.read|]
  {
    hide FanOut.LogInv, FanOut.Gots, FanOut.Lost, FanOut.LostBefore, FanOut.Convert;
    FanOut.ExactAccount(history, c);
    forall m | 0 <= m < |c.sent|
      ensures c.sent[m] == c.start + m
    {
      NothingLostBefore(c.log, m);
    }
  }

  lemma {:induction false} NothingLostBefore(log: seq<FanOut.Received>, m: nat)
    requires forall e :: e in log ==> e.Got?
    ensures FanOut.LostBefore(log, m) == 0
  {
    if |log| == 0 {
    } else {
      assert log[|log| - 1] in log;
      NothingLostBefore(log[..|log| - 1], m);
    }
  }

  /** What the verifier works on are the blocks of what it was delivered, in that order. */
  lemma WorkComesFromExecution(run: seq<Server.Step>, id: nat, n: nat)
    requires Server.IsRun(run) && id in Server.After(run).value.clients
    requires Server.After(run).value.clients[id].flags == CALL_TRACES_ONLY
    ensures var bs := AllToVerify(Delivered(run, id));
            var ws := Expected(Server.After(run).value.clients[id].read, n);
            && |ws| == (if n <= |bs| then n else |bs|)
            && forall i :: 0 <= i < |ws| ==>
                 ws[i] == BlockWork(i, bs[i].number, TxTracesToProto(bs[i].txs, bs[i].frames))
  {
    var s := Server.After(run).value;
    Server.RunKeepsInv(run);
    FanOut.ExactAccount(s.history, s.clients[id]);
    StreamOnTheWire(Delivered(run, id), s.clients[id].read);
  }

  /** The block was answered, and the answer reads as the traces broadcast for it. */
  ghost predicate Confirmed(b: TracedBlock, w: BlockWork, rpc: Rpc) {
    rpc(w).Some? && ReadRpc.ReadRpcBlock(rpc(w).value) == Some(Roots(b))
  }

  lemma WorkIsRead(b: TracedBlock, w: BlockWork, rpc: Rpc)
    requires w.grpcFrames == TxTracesToProto(b.txs, b.frames)
    ensures Verified(w, rpc) <==> Confirmed(b, w, rpc)
  {
    hide ReadRpc.ReadRpcBlock, Roots, Diff.BlocksMatch;
    if rpc(w).Some? {
      ReadRpc.BlockReads(b, rpc(w).value);
    }
  }

  /** A subscriber to call traces, and a run of the verifier on what it has read that can go no further. */
  ghost predicate WholeRun(run: seq<Server.Step>, id: nat, c: Pipeline.Config,
                           states: seq<Pipeline.State>, steps: seq<Pipeline.Step>)
  {
    && Server.IsRun(run) && id in Server.After(run).value.clients
    && Server.After(run).value.clients[id].flags == CALL_TRACES_ONLY
    && Pipeline.Started(c) && c.input == Server.After(run).value.clients[id].read
    && Pipeline.IsRun(c, states, steps) && forall a :: !Pipeline.Enabled(c, states[|steps|], a)
  }

  /**
    For every run of the server, every schedule of the verifier's goroutines, every number of
    workers and any answers whatever: the verifier stops with exit code 0 exactly when each of the
    first n blocks delivered to it (or all of them, if there were fewer) was answered, and its
    answer reads as the traces that were broadcast, up to absent = empty.
   */
  lemma ExitCodeIsTheTruth(run: seq<Server.Step>, id: nat, c: Pipeline.Config, states: seq<Pipeline.State>,
                           steps: seq<Pipeline.Step>)
    requires WholeRun(run, id, c, states, steps)
    ensures var bs := AllToVerify(Delivered(run, id));
            var ws := Expected(c.input, c.n);
            && |ws| == (if c.n <= |bs| then c.n else |bs|)
            && states[|steps|].totals.blocks == |ws|
            && (states[|steps|].totals.ExitCode() == 0 <==>
                  forall i :: 0 <= i < |ws| ==> Confirmed(bs[i], ws[i], c.rpc))
  {
    hide Pipeline.Enabled, Pipeline.Next, Pipeline.IsRun, TxTracesToProto, Delivered, AllToVerify, Expected, Verified;
    hide Confirmed;
    var bs := AllToVerify(Delivered(run, id));
    var ws := Expected(c.input, c.n);
    WorkComesFromExecution(run, id, c.n);
    Pipeline.EveryRunRefinesSequential(c, states, steps);
    FailedMeansSome(Results(ws, c.rpc));
    forall i | 0 <= i < |ws|
      ensures Verified(ws[i], c.rpc) <==> Confirmed(bs[i], ws[i], c.rpc)
    {
      WorkIsRead(bs[i], ws[i], c.rpc);
    }
  }

  // ---- a node that answers with blocks

  /** Every answer that comes encodes a block in which each transaction has its trace. */
  ghost predicate Answers(ws: seq<BlockWork>, rpc: Rpc, node: seq<TracedBlock>) {
    && |node| == |ws|
    && forall i :: 0 <= i < |ws| ==>
         && |node[i].txs| == |node[i].frames|
         && (rpc(ws[i]).Some? ==> EndToEnd.EncodesBlock(node[i].txs, node[i].frames, rpc(ws[i]).value))
  }

  lemma AnswerIsBlock(b: TracedBlock, w: BlockWork, rpc: Rpc, node: TracedBlock)
    requires w.grpcFrames == TxTracesToProto(b.txs, b.frames)
    requires |node.txs| == |node.frames|
    requires rpc(w).Some? ==> EndToEnd.EncodesBlock(node.txs, node.frames, rpc(w).value)
    ensures Confirmed(b, w, rpc) <==> rpc(w).Some? && SameTraces(b.txs, b.frames, node.txs, node.frames)
  {
    hide ReadRpc.ReadRpcBlock, Roots, SameTraces, EndToEnd.EncodesBlock;
    if rpc(w).Some? {
      ReadRpc.BlockReads(b, rpc(w).value);
      EndToEnd.VerifierIsExact(b.txs, b.frames, node.txs, node.frames, rpc(w).value);
      Diff.BlockDiffsSoundAndComplete(w.grpcFrames, rpc(w).value);
    }
  }

  /** If the answers are blocks, exit code 0 says that these are the blocks that were broadcast. */
  lemma ExitCodeComparesBlocks(run: seq<Server.Step>, id: nat, c: Pipeline.Config, states: seq<Pipeline.State>,
                               steps: seq<Pipeline.Step>, node: seq<TracedBlock>)
    requires WholeRun(run, id, c, states, steps)
    requires Answers(Expected(c.input, c.n), c.rpc, node)
    ensures var bs := AllToVerify(Delivered(run, id));
            var ws := Expected(c.input, c.n);
            && |ws| <= |bs|
            && (states[|steps|].totals.ExitCode() == 0 <==>
                  forall i :: 0 <= i < |ws| ==>
                    c.rpc(ws[i]).Some? && SameTraces(bs[i].txs, bs[i].frames, node[i].txs, node[i].frames))
  {
    hide Confirmed, SameTraces, TxTracesToProto, Delivered, AllToVerify, Expected;
    var bs := AllToVerify(Delivered(run, id));
    var ws := Expected(c.input, c.n);
    ExitCodeIsTheTruth(run, id, c, states, steps);
    WorkComesFromExecution(run, id, c.n);
    forall i | 0 <= i < |ws|
      ensures Confirmed(bs[i], ws[i], c.rpc) <==>
                c.rpc(ws[i]).Some? && SameTraces(bs[i].txs, bs[i].frames, node[i].txs, node[i].frames)
    {
      AnswerIsBlock(bs[i], ws[i], c.rpc, node[i]);
    }
  }

  lemma SameAsItself(b: TracedBlock)
    ensures SameTraces(b.txs, b.frames, b.txs, b.frames)
  {
    hide WithGasLimit, SameFrame, FrameToProto;
    forall i | 0 <= i < Min(|b.txs|, |b.frames|)
      ensures SameFrame(WithGasLimit(b.txs[i], b.frames[i]), WithGasLimit(b.txs[i], b.frames[i]))
    {
      FrameCollapse(WithGasLimit(b.txs[i], b.frames[i]), WithGasLimit(b.txs[i], b.frames[i]));
    }
  }

  /** Blocks with one trace a transaction, checked against a node that reports the same, always pass. */
  lemma HonestNodePasses(run: seq<Server.Step>, id: nat, c: Pipeline.Config, states: seq<Pipeline.State>,
                         steps: seq<Pipeline.Step>, node: seq<TracedBlock>)
    requires WholeRun(run, id, c, states, steps)
    requires Answers(Expected(c.input, c.n), c.rpc, node)
    requires node <= AllToVerify(Delivered(run, id))
    requires forall w :: w in Expected(c.input, c.n) ==> c.rpc(w).Some?
    ensures states[|steps|].totals.ExitCode() == 0
  {
    hide SameTraces, Delivered, AllToVerify, Expected;
    ExitCodeComparesBlocks(run, id, c, states, steps, node);
    forall b: TracedBlock
      ensures SameTraces(b.txs, b.frames, b.txs, b.frames)
    {
      SameAsItself(b);
    }
  }
}
