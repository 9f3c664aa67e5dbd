/**
  Conversion and comparison together: the traces of one block, converted for the wire and
  compared with JSON-RPC text that encodes the traces of another, pass without a mismatch
  exactly when the two are the same up to the merging of module ConvertTrace.
 */
module EndToEnd {
  import opened Basics
  import opened Frames
  import opened Normalize
  import opened Diff
  import opened ConvertTrace
  import Compare
  import Hex
  import R = Reth

  // ---- JSON-RPC text, as the "Hex value encoding" section of the Ethereum JSON-RPC API gives it

  /** Data: prefix 0x and two digits of either case a byte. */
  ghost predicate EncodesData(b: Bytes, s: string) {
    HasPrefix(s) && Hex.Decode(s[2..]) == Some(b)
  }

  ghost predicate EncodesOptionalData(b: Option<Bytes>, s: string) {
    if b.None? then s == "" else EncodesData(b.value, s)
  }

  ghost predicate EncodesOptionalAddress(b: Option<Address>, s: string) {
    if b.None? then s == "" else EncodesData(b.value, s)
  }

  /** Quantity: prefix 0x and lower-case digits of the same value, leading zeros tolerated. */
  ghost predicate EncodesQuantity(v: U256, s: string) {
    HasPrefix(s) && Hex.AllLowerHex(s[2..]) && Hex.Value(s[2..]) == v
  }

  ghost predicate EncodesOptionalQuantity(v: Option<U256>, s: string) {
    if v.None? then s == "" else EncodesQuantity(v.value, s)
  }

  ghost predicate EncodesLog(b: R.TraceLog, r: RpcLogFrame) {
    && EncodesOptionalAddress(b.address, r.address)
    && |r.topics| == |OrEmpty(b.topics)|
    && (forall i :: 0 <= i < |r.topics| ==> EncodesData(OrEmpty(b.topics)[i], r.topics[i]))
    && EncodesOptionalData(b.data, r.data)
    && r.position == b.position
    && r.index == b.index
  }

  /** `r` is the JSON-RPC form of the frame `b`: optional fields are left out when absent, lists when empty. */
  ghost predicate EncodesFrame(b: R.TraceFrame, r: RpcCallFrame)
    decreases b
  {
    && r.typ == b.typ
    && EncodesData(b.from, r.from)
    && EncodesOptionalAddress(b.to, r.to)
    && EncodesOptionalQuantity(b.value, r.value)
    && EncodesQuantity(b.gas, r.gas)
    && EncodesQuantity(b.gasUsed, r.gasUsed)
    && EncodesData(b.input, r.input)
    && EncodesOptionalData(b.output, r.output)
    && r.error == OrEmpty(b.error)
    && r.revertReason == OrEmpty(b.revertReason)
    && |r.calls| == |b.calls|
    && (forall i :: 0 <= i < |b.calls| ==> EncodesFrame(b.calls[i], r.calls[i]))
    && |r.logs| == |b.logs|
    && (forall j :: 0 <= j < |b.logs| ==> EncodesLog(b.logs[j], r.logs[j]))
  }

  /** The root frames as a node's callTracer reports them: with the gas limits of the transactions. */
  ghost predicate EncodesBlock(txs: seq<R.Transaction>, frames: seq<R.TraceFrame>, rs: seq<RpcCallFrame>) {
    && |rs| == |frames| == |txs|
    && forall i :: 0 <= i < |rs| ==> EncodesFrame(WithGasLimit(txs[i], frames[i]), rs[i])
  }

  // ---- every frame has such a form

  function RenderQuantity(v: U256): string {
    var digits := Hex.TrimZeros(Hex.Encode(U256ToBytes(v)));
    if digits == "" then "0x0" else "0x" + digits
  }

  function RenderData(b: Bytes): string {
    "0x" + Hex.Encode(b)
  }

  function RenderLog(b: R.TraceLog): RpcLogFrame {
    var topics := OrEmpty(b.topics);
    RpcLogFrame(
      if b.address.Some? then RenderData(b.address.value) else "",
      seq(|topics|, i requires 0 <= i < |topics| => RenderData(topics[i])),
      if b.data.Some? then RenderData(b.data.value) else "",
      b.position,
      b.index)
  }

  function RenderFrame(b: R.TraceFrame): RpcCallFrame {
    RpcCallFrame(
      b.typ,
      RenderData(b.from),
      if b.to.Some? then RenderData(b.to.value) else "",
      if b.value.Some? then RenderQuantity(b.value.value) else "",
      RenderQuantity(b.gas),
      RenderQuantity(b.gasUsed),
      RenderData(b.input),
      if b.output.Some? then RenderData(b.output.value) else "",
      OrEmpty(b.error),
      OrEmpty(b.revertReason),
      seq(|b.calls|, i requires 0 <= i < |b.calls| => RenderFrame(b.calls[i])),
      seq(|b.logs|, j requires 0 <= j < |b.logs| => RenderLog(b.logs[j])))
  }

  lemma RenderDataEncodes(b: Bytes)
    ensures EncodesData(b, RenderData(b))
  {
    Hex.EncodeIsLowerHex(b);
    assert RenderData(b)[2..] == Hex.Encode(b);
  }

  lemma RenderQuantityEncodes(v: U256)
    ensures EncodesQuantity(v, RenderQuantity(v))
  {
    var e := Hex.Encode(U256ToBytes(v));
    var digits := Hex.TrimZeros(e);
    Hex.EncodeValue(U256ToBytes(v));
    Hex.EncodeIsLowerHex(U256ToBytes(v));
    Hex.TrimKeepsValue(e);
    Hex.TrimKeepsLower(e);
    if digits == "" {
      assert "0x0"[2..] == "0";
      Hex.ValueSnoc("", '0');
      assert "" + ['0'] == "0";
    } else {
      assert ("0x" + digits)[2..] == digits;
    }
  }

  lemma RenderLogEncodes(b: R.TraceLog)
    ensures EncodesLog(b, RenderLog(b))
  {
    hide EncodesData, RenderData;
    forall d: Bytes
      ensures EncodesData(d, RenderData(d))
    {
      RenderDataEncodes(d);
    }
  }

  lemma {:induction false} RenderFrameEncodes(b: R.TraceFrame)
    ensures EncodesFrame(b, RenderFrame(b))
    decreases b
  {
    hide EncodesData, RenderData, EncodesQuantity, RenderQuantity, EncodesLog, RenderLog;
    forall d: Bytes
      ensures EncodesData(d, RenderData(d))
    {
      RenderDataEncodes(d);
    }
    forall v: U256
      ensures EncodesQuantity(v, RenderQuantity(v))
    {
      RenderQuantityEncodes(v);
    }
    forall i | 0 <= i < |b.calls|
      ensures EncodesFrame(b.calls[i], RenderFrame(b.calls[i]))
    {
      RenderFrameEncodes(b.calls[i]);
    }
    forall j | 0 <= j < |b.logs|
      ensures EncodesLog(b.logs[j], RenderLog(b.logs[j]))
    {
      RenderLogEncodes(b.logs[j]);
    }
  }

  // ---- fields

  lemma DataField(a: Bytes, b: Bytes, s: string)
    requires EncodesData(b, s)
    ensures DataAgrees(a, s) <==> a == b
  {
    if a == [] && b == [] {
      assert |s[2..]| == 0;
      assert s == "0x" + s[2..];
    }
    if s == "0x" {
      assert s[2..] == "";
    }
  }

  lemma OptionalDataField(a: Option<Bytes>, b: Option<Bytes>, s: string)
    requires EncodesOptionalData(b, s)
    ensures DataAgrees(OrEmpty(a), s) <==> OrEmpty(a) == OrEmpty(b)
  {
    if b.Some? {
      DataField(OrEmpty(a), b.value, s);
    }
  }

  lemma OptionalAddressField(a: Option<Address>, b: Option<Address>, s: string)
    requires EncodesOptionalAddress(b, s)
    ensures DataAgrees(OptionalAddress(a), s) <==> a == b
  {
    if b.Some? {
      DataField(OptionalAddress(a), b.value, s);
    }
  }

  lemma QuantityField(a: U256, b: U256, s: string)
    requires EncodesQuantity(b, s)
    ensures QuantityAgrees(U256ToBytes(a), s) <==> a == b
  {
  }

  lemma OptionalQuantityField(a: Option<U256>, b: Option<U256>, s: string)
    requires EncodesOptionalQuantity(b, s)
    ensures QuantityAgrees(OptionalU256(a), s) <==> a == b
  {
    if a.Some? && b.Some? {
      QuantityField(a.value, b.value, s);
    }
  }

  // ---- logs, frames, blocks

  lemma TopicsField(a: seq<B256>, b: seq<B256>, ss: seq<string>)
    requires |ss| == |b| && forall i :: 0 <= i < |ss| ==> EncodesData(b[i], ss[i])
    ensures (|a| == |ss| && forall i :: 0 <= i < |a| ==> DataAgrees(Map(HashToBytes, a)[i], ss[i])) <==> a == b
  {
    if |a| == |ss| {
      forall i | 0 <= i < |a|
        ensures DataAgrees(Map(HashToBytes, a)[i], ss[i]) <==> a[i] == b[i]
      {
        DataField(a[i], b[i], ss[i]);
      }
      if forall i :: 0 <= i < |a| ==> DataAgrees(Map(HashToBytes, a)[i], ss[i]) {
        assert forall i :: 0 <= i < |a| ==> a[i] == b[i];
        assert a == b;
      }
    }
  }

  lemma LogExact(a: R.TraceLog, b: R.TraceLog, r: RpcLogFrame)
    requires EncodesLog(b, r)
    ensures LogsMatch(LogToProto(a), r) <==> SameLog(a, b)
  {
    hide DataAgrees, EncodesData;
    OptionalAddressField(a.address, b.address, r.address);
    TopicsField(OrEmpty(a.topics), OrEmpty(b.topics), r.topics);
    OptionalDataField(a.data, b.data, r.data);
    assert |LogToProto(a).topics| == |OrEmpty(a.topics)|;
  }

  /** One frame against the text of another, all the way down. */
  lemma {:induction false} FrameExact(a: R.TraceFrame, b: R.TraceFrame, r: RpcCallFrame)
    requires EncodesFrame(b, r)
    ensures FramesMatch(FrameToProto(a), r) <==> SameFrame(a, b)
    decreases a
  {
    hide DataAgrees, QuantityAgrees, EncodesData, LogsMatch, SameLog, LogToProto;
    ScalarsExact(a, b, r);
    if |a.calls| == |b.calls| {
      forall i | 0 <= i < |a.calls|
        ensures FramesMatch(FrameToProto(a).calls[i], r.calls[i]) <==> SameFrame(a.calls[i], b.calls[i])
      {
        FrameExact(a.calls[i], b.calls[i], r.calls[i]);
      }
    }
    if |a.logs| == |b.logs| {
      forall j | 0 <= j < |a.logs|
        ensures LogsMatch(FrameToProto(a).logs[j], r.logs[j]) <==> SameLog(a.logs[j], b.logs[j])
      {
        LogExact(a.logs[j], b.logs[j], r.logs[j]);
      }
    }
  }

  ghost predicate ScalarsMatch(g: CallFrame, r: RpcCallFrame) {
    && g.typ == r.typ
    && DataAgrees(g.from, r.from)
    && DataAgrees(g.to, r.to)
    && QuantityAgrees(g.value, r.value)
    && QuantityAgrees(g.gas, r.gas)
    && QuantityAgrees(g.gasUsed, r.gasUsed)
    && DataAgrees(g.input, r.input)
    && DataAgrees(g.output, r.output)
    && g.error == r.error
    && g.revertReason == r.revertReason
  }

  ghost predicate SameScalars(a: R.TraceFrame, b: R.TraceFrame) {
    && a.typ == b.typ
    && a.from == b.from
    && a.to == b.to
    && a.value == b.value
    && a.gas == b.gas
    && a.gasUsed == b.gasUsed
    && a.input == b.input
    && OrEmpty(a.output) == OrEmpty(b.output)
    && OrEmpty(a.error) == OrEmpty(b.error)
    && OrEmpty(a.revertReason) == OrEmpty(b.revertReason)
  }

  lemma ScalarsExact(a: R.TraceFrame, b: R.TraceFrame, r: RpcCallFrame)
    requires EncodesFrame(b, r)
    ensures ScalarsMatch(FrameToProto(a), r) <==> SameScalars(a, b)
  {
    hide DataAgrees, QuantityAgrees, EncodesData, EncodesQuantity, EncodesLog;
    hide U256ToBytes, OptionalU256, OptionalAddress;
    DataField(a.from, b.from, r.from);
    OptionalAddressField(a.to, b.to, r.to);
    OptionalQuantityField(a.value, b.value, r.value);
    QuantityField(a.gas, b.gas, r.gas);
    QuantityField(a.gasUsed, b.gasUsed, r.gasUsed);
    DataField(a.input, b.input, r.input);
    OptionalDataField(a.output, b.output, r.output);
  }

  /** The verifier finds no mismatch in a block exactly when the two traced blocks are the same. */
  lemma VerifierIsExact(txsA: seq<R.Transaction>, framesA: seq<R.TraceFrame>,
                        txsB: seq<R.Transaction>, framesB: seq<R.TraceFrame>, rs: seq<RpcCallFrame>)
    requires EncodesBlock(txsB, framesB, rs)
    ensures BlockDiffs(TxTracesToProto(txsA, framesA), rs) == [] <==> SameTraces(txsA, framesA, txsB, framesB)
  {
    var gs := TxTracesToProto(txsA, framesA);
    BlockDiffsSoundAndComplete(gs, rs);
    if |gs| == |rs| {
      forall i | 0 <= i < |rs|
        ensures FramesMatch(gs[i], rs[i]) <==>
                  SameFrame(WithGasLimit(txsA[i], framesA[i]), WithGasLimit(txsB[i], framesB[i]))
      {
        RootIsFrame(txsA[i], framesA[i]);
        FrameExact(WithGasLimit(txsA[i], framesA[i]), WithGasLimit(txsB[i], framesB[i]), rs[i]);
      }
    }
  }

  /** The same, for the comparison as it runs. */
  method VerifyBlock(txsA: seq<R.Transaction>, framesA: seq<R.TraceFrame>,
                     ghost txsB: seq<R.Transaction>, ghost framesB: seq<R.TraceFrame>, rs: seq<RpcCallFrame>)
    returns (pass: bool)
    requires EncodesBlock(txsB, framesB, rs)
    ensures pass <==> SameTraces(txsA, framesA, txsB, framesB)
  {
    var mismatches, _, _ := Compare.CompareBlock(TxTracesToProto(txsA, framesA), rs);
    VerifierIsExact(txsA, framesA, txsB, framesB, rs);
    pass := mismatches == [];
  }

  /** A block passes against its own rendering, whatever is absent or empty in it. */
  lemma VerifierAcceptsOwnRendering(txs: seq<R.Transaction>, frames: seq<R.TraceFrame>)
    requires |txs| == |frames|
    ensures var rs := seq(|txs|, i requires 0 <= i < |txs| => RenderFrame(WithGasLimit(txs[i], frames[i])));
            BlockDiffs(TxTracesToProto(txs, frames), rs) == []
  {
    var rs := seq(|txs|, i requires 0 <= i < |txs| => RenderFrame(WithGasLimit(txs[i], frames[i])));
    forall i | 0 <= i < |txs|
      ensures EncodesFrame(WithGasLimit(txs[i], frames[i]), rs[i])
      ensures SameFrame(WithGasLimit(txs[i], frames[i]), WithGasLimit(txs[i], frames[i]))
    {
      RenderFrameEncodes(WithGasLimit(txs[i], frames[i]));
      FrameCollapse(WithGasLimit(txs[i], frames[i]), WithGasLimit(txs[i], frames[i]));
    }
    VerifierIsExact(txs, frames, txs, frames, rs);
  }
}
