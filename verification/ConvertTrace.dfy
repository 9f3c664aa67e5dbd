/**
  The call-trace part of src/convert.rs, with a reader for its messages and the exact statement
  of what it merges. In a frame, absent and empty coincide for output, data, error, revert reason
  and topics, and nothing else does. In a block, besides, the gas of a root frame gives way to the
  gas limit of its transaction, and what has no partner when transactions and traces are paired
  up is cut.
 */
module ConvertTrace {
  import opened Basics
  import opened Frames
  import R = Reth
  import P = Proto

  // ---- writing

  function OptionalAddress(a: Option<Address>): Bytes {
    match a
    case Some(b) => b
    case None => []
  }

  function OptionalU256(v: Option<U256>): Bytes {
    match v
    case Some(n) => U256ToBytes(n)
    case None => []
  }

  function LogToProto(l: R.TraceLog): CallLogFrame {
    CallLogFrame(
      OptionalAddress(l.address),
      Map(HashToBytes, OrEmpty(l.topics)),
      OrEmpty(l.data),
      l.position.Some?,
      l.position.GetOr(0),
      l.index.Some?,
      l.index.GetOr(0))
  }

  function FrameToProto(f: R.TraceFrame): CallFrame {
    CallFrame(
      f.typ,
      f.from,
      OptionalAddress(f.to),
      OptionalU256(f.value),
      U256ToBytes(f.gas),
      U256ToBytes(f.gasUsed),
      f.input,
      OrEmpty(f.output),
      OrEmpty(f.error),
      OrEmpty(f.revertReason),
      seq(|f.calls|, i requires 0 <= i < |f.calls| => FrameToProto(f.calls[i])),
      Map(LogToProto, f.logs))
  }

  /** A root frame reports the gas limit of its transaction instead of the gas of the frame. */
  function RootToProto(tx: R.Transaction, frame: R.TraceFrame): CallFrame {
    FrameToProto(frame).(gas := U256ToBytes(tx.gasLimit))
  }

  /** A root frame with the gas that is reported for it: the gas limit of its transaction. */
  function WithGasLimit(tx: R.Transaction, frame: R.TraceFrame): R.TraceFrame {
    frame.(gas := tx.gasLimit)
  }

  lemma RootIsFrame(tx: R.Transaction, frame: R.TraceFrame)
    ensures RootToProto(tx, frame) == FrameToProto(WithGasLimit(tx, frame))
  {
  }

  function Min(a: nat, b: nat): nat {
    if a <= b then a else b
  }

  /** The frames of one block: transactions and traces are paired up until either list ends. */
  function TxTracesToProto(txs: seq<R.Transaction>, frames: seq<R.TraceFrame>): seq<CallFrame> {
    seq(Min(|txs|, |frames|), i requires 0 <= i < Min(|txs|, |frames|) => RootToProto(txs[i], frames[i]))
  }

  /** The entries of the first `k` blocks; a block whose number has no traces has no entry. */
  function BlocksTracesToProto(blocks: seq<R.Block>, traces: map<U64, seq<R.TraceFrame>>, k: nat)
    : seq<P.BlockCallTraces>
    requires k <= |blocks|
  {
    if k == 0 then []
    else
      var block := blocks[k - 1];
      var number := block.header.number;
      BlocksTracesToProto(blocks, traces, k - 1)
      + if number in traces then
          [P.BlockCallTraces(number, TxTracesToProto(block.transactions, traces[number]))]
        else
          []
  }

  function CallTracesToProto(chain: R.Chain): seq<P.BlockCallTraces> {
    match chain.callTraces
    case None => []
    case Some(traces) => BlocksTracesToProto(chain.blocks, traces, |chain.blocks|)
  }

  // ---- what is merged

  /** Equality of two logs up to absent = empty for topics and data. */
  ghost predicate SameLog(a: R.TraceLog, b: R.TraceLog) {
    && a.address == b.address
    && OrEmpty(a.topics) == OrEmpty(b.topics)
    && OrEmpty(a.data) == OrEmpty(b.data)
    && a.position == b.position
    && a.index == b.index
  }

  /** Equality of two frames, all the way down, up to absent = empty for output, error and revert reason. */
  ghost predicate SameFrame(a: R.TraceFrame, b: R.TraceFrame) {
    && a.typ == b.typ
    && a.from == b.from
    && a.to == b.to
    && a.value == b.value
    && a.gas == b.gas
    && a.gasUsed == b.gasUsed
    && a.input == b.input
    && OrEmpty(a.output) == OrEmpty(b.output)
    && OrEmpty(a.error) == OrEmpty(b.error)
    && OrEmpty(a.revertReason) == OrEmpty(b.revertReason)
    && |a.calls| == |b.calls|
    && (forall i :: 0 <= i < |a.calls| ==> SameFrame(a.calls[i], b.calls[i]))
    && |a.logs| == |b.logs|
    && (forall j :: 0 <= j < |a.logs| ==> SameLog(a.logs[j], b.logs[j]))
  }

  lemma U256BytesInjective(v: U256, w: U256)
    ensures U256ToBytes(v) == U256ToBytes(w) <==> v == w
  {
  }

  lemma LogCollapse(a: R.TraceLog, b: R.TraceLog)
    ensures LogToProto(a) == LogToProto(b) <==> SameLog(a, b)
  {
    var s, t := OrEmpty(a.topics), OrEmpty(b.topics);
    if Map(HashToBytes, s) == Map(HashToBytes, t) {
      assert forall i :: 0 <= i < |s| ==> s[i] == Map(HashToBytes, s)[i] == Map(HashToBytes, t)[i] == t[i];
      assert s == t;
    }
  }

  lemma OptionalFieldsInjective(a: R.TraceFrame, b: R.TraceFrame)
    ensures OptionalAddress(a.to) == OptionalAddress(b.to) <==> a.to == b.to
    ensures OptionalU256(a.value) == OptionalU256(b.value) <==> a.value == b.value
  {
  }

  /** Two frames are converted to the same message exactly when they are the same up to absent = empty. */
  lemma {:induction false} FrameCollapse(a: R.TraceFrame, b: R.TraceFrame)
    ensures FrameToProto(a) == FrameToProto(b) <==> SameFrame(a, b)
    decreases a
  {
    hide U256ToBytes, OptionalU256, OptionalAddress, OrEmpty, LogToProto, SameLog;
    var p, q := FrameToProto(a), FrameToProto(b);
    U256BytesInjective(a.gas, b.gas);
    U256BytesInjective(a.gasUsed, b.gasUsed);
    OptionalFieldsInjective(a, b);
    assert p.calls == q.calls <==>
        |a.calls| == |b.calls| && forall i :: 0 <= i < |a.calls| ==> SameFrame(a.calls[i], b.calls[i]) by {
      if |a.calls| == |b.calls| {
        forall i | 0 <= i < |a.calls|
          ensures p.calls[i] == q.calls[i] <==> SameFrame(a.calls[i], b.calls[i])
        {
          FrameCollapse(a.calls[i], b.calls[i]);
        }
      }
    }
    LogsCollapse(a.logs, b.logs);
  }

  lemma LogsCollapse(a: seq<R.TraceLog>, b: seq<R.TraceLog>)
    ensures Map(LogToProto, a) == Map(LogToProto, b) <==>
              |a| == |b| && forall j :: 0 <= j < |a| ==> SameLog(a[j], b[j])
  {
    if |a| == |b| {
      forall j | 0 <= j < |a|
        ensures Map(LogToProto, a)[j] == Map(LogToProto, b)[j] <==> SameLog(a[j], b[j])
      {
        LogCollapse(a[j], b[j]);
      }
    }
  }

  /** Equality of two traced blocks in all that is converted of them. */
  ghost predicate SameTraces(txsA: seq<R.Transaction>, framesA: seq<R.TraceFrame>,
                             txsB: seq<R.Transaction>, framesB: seq<R.TraceFrame>)
  {
    && Min(|txsA|, |framesA|) == Min(|txsB|, |framesB|)
    && forall i :: 0 <= i < Min(|txsA|, |framesA|) ==>
         SameFrame(WithGasLimit(txsA[i], framesA[i]), WithGasLimit(txsB[i], framesB[i]))
  }

  /** Two traced blocks share their frames exactly when the paired ones are the same but for the gas of the roots. */
  lemma BlockCollapse(txsA: seq<R.Transaction>, framesA: seq<R.TraceFrame>,
                      txsB: seq<R.Transaction>, framesB: seq<R.TraceFrame>)
    ensures TxTracesToProto(txsA, framesA) == TxTracesToProto(txsB, framesB) <==>
              SameTraces(txsA, framesA, txsB, framesB)
  {
    hide RootToProto, SameFrame, FrameToProto;
    var p, q := TxTracesToProto(txsA, framesA), TxTracesToProto(txsB, framesB);
    if |p| == |q| {
      forall i | 0 <= i < |p|
        ensures p[i] == q[i] <==> SameFrame(WithGasLimit(txsA[i], framesA[i]), WithGasLimit(txsB[i], framesB[i]))
      {
        RootIsFrame(txsA[i], framesA[i]);
        RootIsFrame(txsB[i], framesB[i]);
        FrameCollapse(WithGasLimit(txsA[i], framesA[i]), WithGasLimit(txsB[i], framesB[i]));
      }
    }
  }

  /** An executed block together with its recorded traces. */
  datatype TracedBlock = TracedBlock(number: U64, txs: seq<R.Transaction>, frames: seq<R.TraceFrame>)

  function Wire(b: TracedBlock): P.BlockCallTraces {
    P.BlockCallTraces(b.number, TxTracesToProto(b.txs, b.frames))
  }

  function TracedOf(blocks: seq<R.Block>, traces: map<U64, seq<R.TraceFrame>>, k: nat): seq<TracedBlock>
    requires k <= |blocks|
  {
    if k == 0 then []
    else
      var number := blocks[k - 1].header.number;
      TracedOf(blocks, traces, k - 1)
      + if number in traces then [TracedBlock(number, blocks[k - 1].transactions, traces[number])] else []
  }

  /** The blocks of a chain that have recorded traces. */
  function TracedBlocks(chain: R.Chain): seq<TracedBlock> {
    match chain.callTraces
    case None => []
    case Some(traces) => TracedOf(chain.blocks, traces, |chain.blocks|)
  }

  lemma {:induction false} TracedOnTheWire(blocks: seq<R.Block>, traces: map<U64, seq<R.TraceFrame>>, k: nat)
    requires k <= |blocks|
    ensures BlocksTracesToProto(blocks, traces, k) == Map(Wire, TracedOf(blocks, traces, k))
  {
    if k == 0 {
    } else {
      TracedOnTheWire(blocks, traces, k - 1);
    }
  }

  lemma ChainOnTheWire(chain: R.Chain)
    ensures CallTracesToProto(chain) == Map(Wire, TracedBlocks(chain))
  {
    if chain.callTraces.Some? {
      TracedOnTheWire(chain.blocks, chain.callTraces.value, |chain.blocks|);
    }
  }

  /** Two chains share their traces exactly when they have the same traced blocks, in order, up to merging. */
  lemma ChainCollapse(a: R.Chain, b: R.Chain)
    ensures var s, t := TracedBlocks(a), TracedBlocks(b);
            CallTracesToProto(a) == CallTracesToProto(b) <==>
              && |s| == |t|
              && forall i :: 0 <= i < |s| ==>
                   s[i].number == t[i].number && SameTraces(s[i].txs, s[i].frames, t[i].txs, t[i].frames)
  {
    hide TxTracesToProto, SameTraces, CallTracesToProto, TracedBlocks;
    ChainOnTheWire(a);
    ChainOnTheWire(b);
    var s, t := TracedBlocks(a), TracedBlocks(b);
    if |s| == |t| {
      forall i | 0 <= i < |s|
        ensures Map(Wire, s)[i] == Map(Wire, t)[i] <==>
                  s[i].number == t[i].number && SameTraces(s[i].txs, s[i].frames, t[i].txs, t[i].frames)
      {
        BlockCollapse(s[i].txs, s[i].frames, t[i].txs, t[i].frames);
      }
    }
  }

  /** The gas recorded for a root frame does not reach the message. */
  lemma RootGasIsReplaced(tx: R.Transaction, frame: R.TraceFrame, gas: U256)
    ensures TxTracesToProto([tx], [frame]) == TxTracesToProto([tx], [frame.(gas := gas)])
  {
    RootIsFrame(tx, frame);
    RootIsFrame(tx, frame.(gas := gas));
  }

  // ---- what survives, and reading it

  /** One of the values that coincide on the wire: absent instead of empty. */
  function AbsentIfEmpty<T>(o: Option<seq<T>>): Option<seq<T>> {
    if o == Some([]) then None else o
  }

  function Present<T>(s: seq<T>): Option<seq<T>> {
    if |s| == 0 then None else Some(s)
  }

  function NormalLog(l: R.TraceLog): R.TraceLog {
    l.(topics := AbsentIfEmpty(l.topics), data := AbsentIfEmpty(l.data))
  }

  function NormalFrame(f: R.TraceFrame): R.TraceFrame {
    f.(output := AbsentIfEmpty(f.output),
       error := AbsentIfEmpty(f.error),
       revertReason := AbsentIfEmpty(f.revertReason),
       calls := seq(|f.calls|, i requires 0 <= i < |f.calls| => NormalFrame(f.calls[i])),
       logs := Map(NormalLog, f.logs))
  }

  function ReadOptionalAddress(b: Bytes): Option<Option<Address>> {
    if |b| == 0 then Some(None)
    else
      var a :- ReadAddress(b);
      Some(Some(a))
  }

  function ReadOptionalU256(b: Bytes): Option<Option<U256>> {
    if |b| == 0 then Some(None)
    else
      var v :- ReadU256(b);
      Some(Some(v))
  }

  /** A number with its flag; without the flag it has to be 0. */
  function ReadOptionalU64(has: bool, v: U64): Option<Option<U64>> {
    if has then Some(Some(v))
    else if v == 0 then Some(None)
    else None
  }

  function ReadLog(p: CallLogFrame): Option<R.TraceLog> {
    var address :- ReadOptionalAddress(p.address);
    var topics :- ReadAll(ReadB256, p.topics);
    var position :- ReadOptionalU64(p.hasPosition, p.position);
    var index :- ReadOptionalU64(p.hasIndex, p.index);
    Some(R.TraceLog(address, Present(topics), Present(p.data), position, index))
  }

  function ReadFrame(p: CallFrame): Option<R.TraceFrame>
    decreases p, |p.calls| + 1
  {
    var from :- ReadAddress(p.from);
    var to :- ReadOptionalAddress(p.to);
    var value :- ReadOptionalU256(p.value);
    var gas :- ReadU256(p.gas);
    var gasUsed :- ReadU256(p.gasUsed);
    var calls :- ReadCalls(p, |p.calls|);
    var logs :- ReadAll(ReadLog, p.logs);
    Some(R.TraceFrame(
           p.typ, from, to, value, gas, gasUsed, p.input,
           Present(p.output), Present(p.error), Present(p.revertReason), calls, logs))
  }

  /** The first `k` child calls. */
  function ReadCalls(p: CallFrame, k: nat): Option<seq<R.TraceFrame>>
    requires k <= |p.calls|
    decreases p, k
  {
    if k == 0 then Some([])
    else
      var init :- ReadCalls(p, k - 1);
      var last :- ReadFrame(p.calls[k - 1]);
      Some(init + [last])
  }

  lemma OptionalFieldsRoundTrip(a: Option<Address>, v: Option<U256>)
    ensures ReadOptionalAddress(OptionalAddress(a)) == Some(a)
    ensures ReadOptionalU256(OptionalU256(v)) == Some(v)
  {
    IntegersRoundTrip();
  }

  lemma TopicsRoundTrip(topics: seq<B256>)
    ensures ReadAll(ReadB256, Map(HashToBytes, topics)) == Some(topics)
  {
    ReadAllWritten(HashToBytes, ReadB256, Same<B256>, topics);
    MapSame(topics);
  }

  lemma LogRoundTrip(l: R.TraceLog)
    ensures ReadLog(LogToProto(l)) == Some(NormalLog(l))
  {
    hide ReadAll, OptionalAddress, ReadOptionalAddress;
    OptionalFieldsRoundTrip(l.address, None);
    TopicsRoundTrip(OrEmpty(l.topics));
  }

  lemma LogsRoundTrip(ls: seq<R.TraceLog>)
    ensures ReadAll(ReadLog, Map(LogToProto, ls)) == Some(Map(NormalLog, ls))
  {
    hide ReadLog, LogToProto, NormalLog;
    forall l | l in ls
      ensures ReadLog(LogToProto(l)) == Some(NormalLog(l))
    {
      LogRoundTrip(l);
    }
    ReadAllWritten(LogToProto, ReadLog, NormalLog, ls);
  }

  lemma {:induction false} ReadCallsIff(p: CallFrame, k: nat, fs: seq<R.TraceFrame>)
    requires k <= |p.calls|
    ensures ReadCalls(p, k) == Some(fs) <==>
              |fs| == k && forall i :: 0 <= i < k ==> ReadFrame(p.calls[i]) == Some(fs[i])
    decreases k
  {
    hide ReadFrame;
    if k == 0 {
    } else if |fs| == 0 {
      assert ReadCalls(p, k).Some? ==> |ReadCalls(p, k).value| > 0;
    } else {
      var init, last := fs[..|fs| - 1], fs[|fs| - 1];
      ReadCallsIff(p, k - 1, init);
      assert fs == init + [last];
      if ReadCalls(p, k) == Some(fs) {
        assert fs == ReadCalls(p, k - 1).value + [ReadFrame(p.calls[k - 1]).value];
      }
    }
  }

  /** The reader recovers every frame at every depth, up to absent = empty. */
  lemma {:induction false} FrameRoundTrip(f: R.TraceFrame)
    ensures ReadFrame(FrameToProto(f)) == Some(NormalFrame(f))
  {
    hide ReadAll, ReadCalls, ReadLog, LogToProto, NormalLog, OptionalAddress, OptionalU256, U256ToBytes, ReadU256;
    hide ReadOptionalAddress, ReadOptionalU256;
    var p, n := FrameToProto(f), NormalFrame(f);
    IntegersRoundTrip();
    OptionalFieldsRoundTrip(f.to, f.value);
    forall i | 0 <= i < |f.calls|
      ensures ReadFrame(p.calls[i]) == Some(n.calls[i])
    {
      FrameRoundTrip(f.calls[i]);
    }
    ReadCallsIff(p, |f.calls|, n.calls);
    LogsRoundTrip(f.logs);
  }

  // ---- writing undoes reading

  lemma OptionalFieldsExact(a: Bytes, v: Bytes)
    ensures ReadOptionalAddress(a).Some? ==> OptionalAddress(ReadOptionalAddress(a).value) == a
    ensures ReadOptionalU256(v).Some? ==> OptionalU256(ReadOptionalU256(v).value) == v
  {
    hide U256ToBytes, ReadU256;
    IntegersExact();
  }

  lemma LogExact(p: CallLogFrame)
    ensures ReadLog(p).Some? ==> LogToProto(ReadLog(p).value) == p
  {
    hide ReadAll, OptionalAddress, ReadOptionalAddress;
    OptionalFieldsExact(p.address, []);
    ReadAllExact(HashToBytes, ReadB256, p.topics);
  }

  lemma LogsExact(ps: seq<CallLogFrame>)
    ensures ReadAll(ReadLog, ps).Some? ==> Map(LogToProto, ReadAll(ReadLog, ps).value) == ps
  {
    hide ReadLog, LogToProto;
    forall p
      ensures ReadLog(p).Some? ==> LogToProto(ReadLog(p).value) == p
    {
      LogExact(p);
    }
    ReadAllExact(LogToProto, ReadLog, ps);
  }

  /** The reader accepts only frames that the conversion makes: of what it returns, it makes that very frame. */
  lemma {:induction false} FrameExact(p: CallFrame)
    ensures ReadFrame(p).Some? ==> FrameToProto(ReadFrame(p).value) == p
  {
    hide ReadAll, ReadCalls, ReadLog, LogToProto, OptionalAddress, OptionalU256, U256ToBytes, ReadU256;
    hide ReadOptionalAddress, ReadOptionalU256;
    if ReadFrame(p).Some? {
      var f := ReadFrame(p).value;
      IntegersExact();
      OptionalFieldsExact(p.to, p.value);
      ReadCallsIff(p, |p.calls|, f.calls);
      forall i | 0 <= i < |p.calls|
        ensures FrameToProto(f.calls[i]) == p.calls[i]
      {
        FrameExact(p.calls[i]);
      }
      assert FrameToProto(f).calls == p.calls;
      LogsExact(p.logs);
    }
  }

  /** The normal forms of two frames are equal exactly when the frames are the same up to absent = empty. */
  lemma NormalFrameIff(a: R.TraceFrame, b: R.TraceFrame)
    ensures NormalFrame(a) == NormalFrame(b) <==> SameFrame(a, b)
  {
    hide NormalFrame, SameFrame, ReadFrame, FrameToProto;
    FrameCollapse(a, b);
    FrameRoundTrip(a);
    FrameRoundTrip(b);
    FrameExact(FrameToProto(a));
    FrameExact(FrameToProto(b));
  }

  /** What can be read of a traced block: its number, and its paired frames with the gas limits as root gas. */
  datatype TracesView = TracesView(blockNumber: U64, roots: seq<R.TraceFrame>)

  function Root(b: TracedBlock, i: nat): R.TraceFrame
    requires i < |b.txs| && i < |b.frames|
  {
    NormalFrame(WithGasLimit(b.txs[i], b.frames[i]))
  }

  function Roots(b: TracedBlock): (roots: seq<R.TraceFrame>)
    ensures |roots| == Min(|b.txs|, |b.frames|)
  {
    seq(Min(|b.txs|, |b.frames|), i requires 0 <= i < Min(|b.txs|, |b.frames|) => Root(b, i))
  }

  function ViewTraces(b: TracedBlock): TracesView {
    TracesView(b.number, Roots(b))
  }

  function ReadTraces(p: P.BlockCallTraces): Option<TracesView> {
    var roots :- ReadAll(ReadFrame, p.txs);
    Some(TracesView(p.blockNumber, roots))
  }

  /** The reader recovers every traced block. */
  lemma TracesRoundTrip(b: TracedBlock)
    ensures ReadTraces(Wire(b)) == Some(ViewTraces(b))
  {
    hide ReadFrame, FrameToProto, NormalFrame, RootToProto, WithGasLimit, ReadAll;
    var n := Min(|b.txs|, |b.frames|);
    var roots := seq(n, i requires 0 <= i < n => WithGasLimit(b.txs[i], b.frames[i]));
    forall i | 0 <= i < n
      ensures TxTracesToProto(b.txs, b.frames)[i] == FrameToProto(roots[i])
    {
      RootIsFrame(b.txs[i], b.frames[i]);
    }
    assert TxTracesToProto(b.txs, b.frames) == Map(FrameToProto, roots);
    forall f | f in roots
      ensures ReadFrame(FrameToProto(f)) == Some(NormalFrame(f))
    {
      FrameRoundTrip(f);
    }
    ReadAllWritten(FrameToProto, ReadFrame, NormalFrame, roots);
    assert Map(NormalFrame, roots) == Roots(b);
  }

  /** The reader recovers the traces of a whole chain. */
  lemma ChainTracesRoundTrip(chain: R.Chain)
    ensures ReadAll(ReadTraces, CallTracesToProto(chain)) == Some(Map(ViewTraces, TracedBlocks(chain)))
  {
    hide ReadTraces, Wire, ViewTraces, CallTracesToProto, TracedBlocks;
    ChainOnTheWire(chain);
    forall b | b in TracedBlocks(chain)
      ensures ReadTraces(Wire(b)) == Some(ViewTraces(b))
    {
      TracesRoundTrip(b);
    }
    ReadAllWritten(Wire, ReadTraces, ViewTraces, TracedBlocks(chain));
  }

  // ---- one entry per traced block

  /** Whether block `i` of the chain has recorded traces. */
  predicate Traced(chain: R.Chain, i: nat)
    requires i < |chain.blocks|
  {
    chain.callTraces.Some? && chain.blocks[i].header.number in chain.callTraces.value
  }

  /** How many of the first `k` blocks have recorded traces. */
  function TracedBefore(chain: R.Chain, k: nat): nat
    requires k <= |chain.blocks|
  {
    if k == 0 then 0 else TracedBefore(chain, k - 1) + if Traced(chain, k - 1) then 1 else 0
  }

  lemma {:induction false} EntriesSoFar(chain: R.Chain, k: nat)
    requires chain.callTraces.Some? && k <= |chain.blocks|
    ensures var es := BlocksTracesToProto(chain.blocks, chain.callTraces.value, k);
            && |es| == TracedBefore(chain, k)
            && forall i :: 0 <= i < k && Traced(chain, i) ==>
                 && TracedBefore(chain, i) < |es|
                 && es[TracedBefore(chain, i)] ==
                    P.BlockCallTraces(chain.blocks[i].header.number,
                      TxTracesToProto(chain.blocks[i].transactions,
                        chain.callTraces.value[chain.blocks[i].header.number]))
  {
    if k == 0 {
    } else {
      EntriesSoFar(chain, k - 1);
    }
  }

  /** The entries are those of the traced blocks, in block order, one each and no others. */
  lemma OneEntryPerTracedBlock(chain: R.Chain)
    ensures |CallTracesToProto(chain)| == TracedBefore(chain, |chain.blocks|)
    ensures forall i :: 0 <= i < |chain.blocks| && Traced(chain, i) ==>
              && TracedBefore(chain, i) < |CallTracesToProto(chain)|
              && CallTracesToProto(chain)[TracedBefore(chain, i)].blockNumber == chain.blocks[i].header.number
              && CallTracesToProto(chain)[TracedBefore(chain, i)].txs ==
                 TxTracesToProto(chain.blocks[i].transactions, chain.callTraces.value[chain.blocks[i].header.number])
  {
    if chain.callTraces.Some? {
      EntriesSoFar(chain, |chain.blocks|);
    } else {
      NothingTraced(chain, |chain.blocks|);
    }
  }

  lemma {:induction false} NothingTraced(chain: R.Chain, k: nat)
    requires chain.callTraces.None? && k <= |chain.blocks|
    ensures TracedBefore(chain, k) == 0
  {
    if k == 0 {
    } else {
      NothingTraced(chain, k - 1);
    }
  }
}
