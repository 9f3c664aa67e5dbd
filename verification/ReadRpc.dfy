/**
  A reader for the JSON-RPC answers that examples/go-trace-verifier/rpc.go decodes, on every text
  that an answer may hold. It gives the normal form of a frame, or nothing if some text denotes no
  value of its field. The comparison is silent on a converted frame and an answer exactly when the
  answer reads as that frame: nothing is assumed of the answer.
 */
module ReadRpc {
  import opened Basics
  import opened ConvertTrace
  import opened Diff
  import opened Frames
  import opened Normalize
  import Hex
  import R = Reth

  // ---- texts

  /** Data with either case of prefix and digits; nothing and a bare 0x stand for no bytes, a bare 0X for nothing. */
  function ReadData(s: string): Option<Bytes> {
    if s == "" || s == "0x" then Some([])
    else if |s| > 2 && s[0] == '0' && (s[1] == 'x' || s[1] == 'X') then Hex.Decode(s[2..])
    else None
  }

  /** A quantity with lower-case prefix and digits, leading zeros tolerated; no text stands for no number. */
  ghost function ReadQuantity(s: string): Option<Option<U256>> {
    Widths();
    if s == "" then Some(None)
    else if HasPrefix(s) && Hex.AllLowerHex(s[2..]) && Hex.Value(s[2..]) < Pow256(32) then
      Some(Some(Hex.Value(s[2..])))
    else None
  }

  function ReadAddressText(s: string): Option<Address> {
    var b :- ReadData(s);
    ReadAddress(b)
  }

  function ReadOptionalAddressText(s: string): Option<Option<Address>> {
    var b :- ReadData(s);
    ReadOptionalAddress(b)
  }

  function ReadTopic(s: string): Option<B256> {
    var b :- ReadData(s);
    ReadB256(b)
  }

  lemma DataReads(b: Bytes, s: string)
    ensures DataAgrees(b, s) <==> ReadData(s) == Some(b)
  {
  }

  lemma AddressReads(a: Address, s: string)
    ensures DataAgrees(a, s) <==> ReadAddressText(s) == Some(a)
  {
    hide DataAgrees, ReadData;
    DataReads(a, s);
  }

  lemma OptionalAddressReads(a: Option<Address>, s: string)
    ensures DataAgrees(OptionalAddress(a), s) <==> ReadOptionalAddressText(s) == Some(a)
  {
    hide DataAgrees, ReadData;
    DataReads(OptionalAddress(a), s);
  }

  lemma QuantityReads(v: Option<U256>, s: string)
    ensures QuantityAgrees(OptionalU256(v), s) <==> ReadQuantity(s) == Some(v)
  {
    Widths();
  }

  // ---- logs

  function ReadRpcLog(r: RpcLogFrame): Option<R.TraceLog> {
    var address :- ReadOptionalAddressText(r.address);
    var topics :- ReadAll(ReadTopic, r.topics);
    var data :- ReadData(r.data);
    Some(R.TraceLog(address, Present(topics), Present(data), r.position, r.index))
  }

  lemma TopicsRead(topics: seq<B256>, ss: seq<string>)
    ensures ReadAll(ReadTopic, ss) == Some(topics) <==>
              |ss| == |topics| && forall i :: 0 <= i < |ss| ==> DataAgrees(topics[i], ss[i])
  {
    hide DataAgrees, ReadData;
    ReadAllIff(ReadTopic, ss, topics);
    if |ss| == |topics| {
      forall i | 0 <= i < |ss|
        ensures ReadTopic(ss[i]) == Some(topics[i]) <==> DataAgrees(topics[i], ss[i])
      {
        DataReads(topics[i], ss[i]);
      }
    }
  }

  lemma LogReads(l: R.TraceLog, r: RpcLogFrame)
    ensures LogsMatch(LogToProto(l), r) <==> ReadRpcLog(r) == Some(NormalLog(l))
  {
    hide DataAgrees, ReadData, ReadAll, ReadOptionalAddressText, OptionalAddress;
    OptionalAddressReads(l.address, r.address);
    TopicsRead(OrEmpty(l.topics), r.topics);
    DataReads(OrEmpty(l.data), r.data);
    assert LogToProto(l).topics == OrEmpty(l.topics);
  }

  // ---- frames

  ghost function ReadRpcFrame(r: RpcCallFrame): Option<R.TraceFrame>
    decreases r, |r.calls| + 1
  {
    var from :- ReadAddressText(r.from);
    var to :- ReadOptionalAddressText(r.to);
    var value :- ReadQuantity(r.value);
    var gas :- ReadQuantity(r.gas);
    var gas' :- gas;
    var gasUsed :- ReadQuantity(r.gasUsed);
    var gasUsed' :- gasUsed;
    var input :- ReadData(r.input);
    var output :- ReadData(r.output);
    var calls :- ReadRpcCalls(r, |r.calls|);
    var logs :- ReadAll(ReadRpcLog, r.logs);
    Some(R.TraceFrame(
           r.typ, from, to, value, gas', gasUsed', input,
           Present(output), Present(r.error), Present(r.revertReason), calls, logs))
  }

  /** The first `k` child calls. */
  ghost function ReadRpcCalls(r: RpcCallFrame, k: nat): Option<seq<R.TraceFrame>>
    requires k <= |r.calls|
    decreases r, k
  {
    if k == 0 then Some([])
    else
      var init :- ReadRpcCalls(r, k - 1);
      var last :- ReadRpcFrame(r.calls[k - 1]);
      Some(init + [last])
  }

  lemma LogsRead(ls: seq<R.TraceLog>, rs: seq<RpcLogFrame>)
    ensures ReadAll(ReadRpcLog, rs) == Some(Map(NormalLog, ls)) <==>
              |rs| == |ls| && forall j :: 0 <= j < |ls| ==> LogsMatch(LogToProto(ls[j]), rs[j])
  {
    hide LogsMatch, ReadRpcLog, NormalLog, LogToProto;
    ReadAllIff(ReadRpcLog, rs, Map(NormalLog, ls));
    if |rs| == |ls| {
      forall j | 0 <= j < |ls|
        ensures ReadRpcLog(rs[j]) == Some(NormalLog(ls[j])) <==> LogsMatch(LogToProto(ls[j]), rs[j])
      {
        LogReads(ls[j], rs[j]);
      }
    }
  }

  lemma CallsMatchIff(a: R.TraceFrame, r: RpcCallFrame)
    requires |a.calls| == |r.calls| ==> forall i :: 0 <= i < |a.calls| ==>
               (FramesMatch(FrameToProto(a.calls[i]), r.calls[i]) <==>
                ReadRpcFrame(r.calls[i]) == Some(NormalFrame(a.calls[i])))
    ensures ReadRpcCalls(r, |r.calls|) == Some(NormalFrame(a).calls) <==>
              && |a.calls| == |r.calls|
              && forall i :: 0 <= i < |a.calls| ==> FramesMatch(FrameToProto(a).calls[i], r.calls[i])
  {
    hide FramesMatch, ReadRpcFrame, ReadRpcCalls;
    ReadRpcCallsIff(r, |r.calls|, NormalFrame(a).calls);
  }

  /** An answer matches a converted frame exactly when it reads as that frame, at every depth. */
  lemma {:induction false} FrameReads(a: R.TraceFrame, r: RpcCallFrame)
    ensures FramesMatch(FrameToProto(a), r) <==> ReadRpcFrame(r) == Some(NormalFrame(a))
    decreases a
  {
    hide DataAgrees, QuantityAgrees, ReadData, ReadQuantity, ReadAddressText, ReadOptionalAddressText, ReadRpcCalls;
    hide LogsMatch, ReadRpcLog, NormalLog, LogToProto, ReadAll, OptionalAddress, OptionalU256, U256ToBytes;
    AddressReads(a.from, r.from);
    OptionalAddressReads(a.to, r.to);
    QuantityReads(a.value, r.value);
    RequiredQuantityReads(a.gas, r.gas);
    RequiredQuantityReads(a.gasUsed, r.gasUsed);
    DataReads(a.input, r.input);
    DataReads(OrEmpty(a.output), r.output);
    if |a.calls| == |r.calls| {
      forall i | 0 <= i < |a.calls|
        ensures FramesMatch(FrameToProto(a.calls[i]), r.calls[i]) <==>
                  ReadRpcFrame(r.calls[i]) == Some(NormalFrame(a.calls[i]))
      {
        FrameReads(a.calls[i], r.calls[i]);
      }
    }
    CallsMatchIff(a, r);
    LogsRead(a.logs, r.logs);
  }

  lemma RequiredQuantityReads(v: U256, s: string)
    ensures QuantityAgrees(U256ToBytes(v), s) <==> ReadQuantity(s) == Some(Some(v))
  {
    QuantityReads(Some(v), s);
  }

  lemma {:induction false} ReadRpcCallsIff(r: RpcCallFrame, k: nat, fs: seq<R.TraceFrame>)
    requires k <= |r.calls|
    ensures ReadRpcCalls(r, k) == Some(fs) <==>
              |fs| == k && forall i :: 0 <= i < k ==> ReadRpcFrame(r.calls[i]) == Some(fs[i])
    decreases k
  {
    hide ReadRpcFrame;
    if k == 0 {
    } else if |fs| == 0 {
      assert ReadRpcCalls(r, k).Some? ==> |ReadRpcCalls(r, k).value| > 0;
    } else {
      var init, last := fs[..|fs| - 1], fs[|fs| - 1];
      ReadRpcCallsIff(r, k - 1, init);
      assert fs == init + [last];
      if ReadRpcCalls(r, k) == Some(fs) {
        assert fs == ReadRpcCalls(r, k - 1).value + [ReadRpcFrame(r.calls[k - 1]).value];
      }
    }
  }

  // ---- blocks

  ghost function ReadRpcBlock(rs: seq<RpcCallFrame>): Option<seq<R.TraceFrame>> {
    ReadAll(ReadRpcFrame, rs)
  }

  /** An answer matches a converted block exactly when it reads as the block's roots, whatever its texts. */
  lemma BlockReads(b: TracedBlock, rs: seq<RpcCallFrame>)
    ensures BlocksMatch(TxTracesToProto(b.txs, b.frames), rs) <==> ReadRpcBlock(rs) == Some(Roots(b))
  {
    hide FramesMatch, ReadRpcFrame, NormalFrame, RootToProto, WithGasLimit;
    ReadAllIff(ReadRpcFrame, rs, Roots(b));
    if |rs| == |Roots(b)| {
      forall i | 0 <= i < |rs|
        ensures FramesMatch(TxTracesToProto(b.txs, b.frames)[i], rs[i]) <==> ReadRpcFrame(rs[i]) == Some(Roots(b)[i])
      {
        RootIsFrame(b.txs[i], b.frames[i]);
        FrameReads(WithGasLimit(b.txs[i], b.frames[i]), rs[i]);
      }
    }
  }
}
