/**
  What compareBlock, compareFrame and compareLog compute, as functions: the list of mismatches
  with the place and the two texts of each, and the numbers of frames and logs visited.
  Beside it an independent definition of when two traces differ at a place, and the proof that
  the list reports exactly those places.
 */
module Diff {
  import opened Basics
  import opened Frames
  import opened Locations
  import opened Normalize
  import Decimal

  /** One mismatch: where, and the texts of the two sides. */
  datatype Mismatch<L> = Mismatch(loc: L, grpc: string, rpc: string)

  // ---- the meaning: where two traces differ

  function GrpcPosition(g: CallLogFrame): Option<U64> {
    if g.hasPosition then Some(g.position) else None
  }

  function GrpcIndex(g: CallLogFrame): Option<U64> {
    if g.hasIndex then Some(g.index) else None
  }

  ghost predicate LogDiffers(g: CallLogFrame, r: RpcLogFrame, f: LogField) {
    match f
    case Address => !DataAgrees(g.address, r.address)
    case Topics => |g.topics| != |r.topics|
    case Topic(i) => |g.topics| == |r.topics| && i < |g.topics| && !DataAgrees(g.topics[i], r.topics[i])
    case Data => !DataAgrees(g.data, r.data)
    case Position => GrpcPosition(g) != r.position
    case Index => GrpcIndex(g) != r.index
  }

  ghost predicate FieldDiffers(g: CallFrame, r: RpcCallFrame, f: FrameField) {
    match f
    case Typ => g.typ != r.typ
    case From => !DataAgrees(g.from, r.from)
    case To => !DataAgrees(g.to, r.to)
    case Value => !QuantityAgrees(g.value, r.value)
    case Gas => !QuantityAgrees(g.gas, r.gas)
    case GasUsed => !QuantityAgrees(g.gasUsed, r.gasUsed)
    case Input => !DataAgrees(g.input, r.input)
    case Output => !DataAgrees(g.output, r.output)
    case Error => g.error != r.error
    case RevertReason => g.revertReason != r.revertReason
    case Calls => |g.calls| != |r.calls|
    case Logs => |g.logs| != |r.logs|
  }

  /**
    The traces differ at `loc`: both have the node that `loc` leads to, below lists of equal
    length, and differ there.
   */
  ghost predicate Differs(g: CallFrame, r: RpcCallFrame, loc: Location)
    decreases loc
  {
    match loc
    case Here(f) => FieldDiffers(g, r, f)
    case InCall(i, inner) => |g.calls| == |r.calls| && i < |g.calls| && Differs(g.calls[i], r.calls[i], inner)
    case InLog(j, f) => |g.logs| == |r.logs| && j < |g.logs| && LogDiffers(g.logs[j], r.logs[j], f)
  }

  ghost predicate BlockDiffers(gs: seq<CallFrame>, rs: seq<RpcCallFrame>, loc: BlockLocation) {
    match loc
    case TxCount => |gs| != |rs|
    case InTx(i, inner) => |gs| == |rs| && i < |gs| && Differs(gs[i], rs[i], inner)
  }

  /** Agreement of two logs. */
  ghost predicate LogsMatch(g: CallLogFrame, r: RpcLogFrame) {
    && DataAgrees(g.address, r.address)
    && |g.topics| == |r.topics|
    && (forall i :: 0 <= i < |g.topics| ==> DataAgrees(g.topics[i], r.topics[i]))
    && DataAgrees(g.data, r.data)
    && GrpcPosition(g) == r.position
    && GrpcIndex(g) == r.index
  }

  /** Agreement of two frames, all the way down. */
  ghost predicate FramesMatch(g: CallFrame, r: RpcCallFrame) {
    && g.typ == r.typ
    && DataAgrees(g.from, r.from)
    && DataAgrees(g.to, r.to)
    && QuantityAgrees(g.value, r.value)
    && QuantityAgrees(g.gas, r.gas)
    && QuantityAgrees(g.gasUsed, r.gasUsed)
    && DataAgrees(g.input, r.input)
    && DataAgrees(g.output, r.output)
    && g.error == r.error
    && g.revertReason == r.revertReason
    && |g.calls| == |r.calls|
    && (forall i :: 0 <= i < |g.calls| ==> FramesMatch(g.calls[i], r.calls[i]))
    && |g.logs| == |r.logs|
    && (forall j :: 0 <= j < |g.logs| ==> LogsMatch(g.logs[j], r.logs[j]))
  }

  ghost predicate BlocksMatch(gs: seq<CallFrame>, rs: seq<RpcCallFrame>) {
    |gs| == |rs| && forall i :: 0 <= i < |gs| ==> FramesMatch(gs[i], rs[i])
  }

  // ---- the computation: the list of mismatches

  /** A side of a position or index line: the other side decides whether the word "present" is printed. */
  function OptionalText(mine: Option<U64>, other: Option<U64>): string {
    match mine
    case None => "absent"
    case Some(v) => if other.None? then "present(" + Decimal.Print(v) + ")" else Decimal.Print(v)
  }

  function LogTexts(g: CallLogFrame, r: RpcLogFrame, f: LogField): (string, string)
    requires f.Topic? ==> f.i < |g.topics| && f.i < |r.topics|
  {
    match f
    case Address => (NormalizeAddress(g.address), NormalizeHexStr(r.address))
    case Topics => (Decimal.Print(|g.topics|), Decimal.Print(|r.topics|))
    case Topic(i) => (NormalizeBytes(g.topics[i]), NormalizeHexStr(r.topics[i]))
    case Data => (NormalizeBytes(g.data), NormalizeHexStr(r.data))
    case Position => (OptionalText(GrpcPosition(g), r.position), OptionalText(r.position, GrpcPosition(g)))
    case Index => (OptionalText(GrpcIndex(g), r.index), OptionalText(r.index, GrpcIndex(g)))
  }

  function FieldTexts(g: CallFrame, r: RpcCallFrame, f: FrameField): (string, string) {
    match f
    case Typ => (g.typ, r.typ)
    case From => (NormalizeAddress(g.from), NormalizeHexStr(r.from))
    case To => (NormalizeAddress(g.to), NormalizeHexStr(r.to))
    case Value => (NormalizeU256Grpc(g.value), NormalizeU256Rpc(r.value))
    case Gas => (NormalizeU256Grpc(g.gas), NormalizeU256Rpc(r.gas))
    case GasUsed => (NormalizeU256Grpc(g.gasUsed), NormalizeU256Rpc(r.gasUsed))
    case Input => (NormalizeBytes(g.input), NormalizeHexStr(r.input))
    case Output => (NormalizeBytes(g.output), NormalizeHexStr(r.output))
    case Error => (g.error, r.error)
    case RevertReason => (g.revertReason, r.revertReason)
    case Calls => (Decimal.Print(|g.calls|), Decimal.Print(|r.calls|))
    case Logs => (Decimal.Print(|g.logs|), Decimal.Print(|r.logs|))
  }

  function LogFieldDiff(g: CallLogFrame, r: RpcLogFrame, f: LogField): seq<Mismatch<LogField>>
    requires f.Topic? ==> f.i < |g.topics| && f.i < |r.topics|
  {
    var t := LogTexts(g, r, f);
    if t.0 == t.1 then [] else [Mismatch(f, t.0, t.1)]
  }

  /** The mismatches of the first `k` topics. */
  function TopicDiffs(g: CallLogFrame, r: RpcLogFrame, k: nat): seq<Mismatch<LogField>>
    requires k <= |g.topics| == |r.topics|
  {
    if k == 0 then [] else TopicDiffs(g, r, k - 1) + LogFieldDiff(g, r, Topic(k - 1))
  }

  function TopicsPart(g: CallLogFrame, r: RpcLogFrame): seq<Mismatch<LogField>> {
    if |g.topics| != |r.topics| then LogFieldDiff(g, r, Topics) else TopicDiffs(g, r, |g.topics|)
  }

  function LogDiffs(g: CallLogFrame, r: RpcLogFrame): seq<Mismatch<LogField>> {
    LogFieldDiff(g, r, Address)
    + TopicsPart(g, r)
    + LogFieldDiff(g, r, Data)
    + LogFieldDiff(g, r, Position)
    + LogFieldDiff(g, r, Index)
  }

  const SCALARS: seq<FrameField> := [Typ, From, To, Value, Gas, GasUsed, Input, Output, Error, RevertReason]

  function FieldDiff(g: CallFrame, r: RpcCallFrame, f: FrameField): seq<Mismatch<Location>> {
    var t := FieldTexts(g, r, f);
    if t.0 == t.1 then [] else [Mismatch(Here(f), t.0, t.1)]
  }

  /** The mismatches of the first `k` scalar fields. */
  function ScalarDiffs(g: CallFrame, r: RpcCallFrame, k: nat): seq<Mismatch<Location>>
    requires k <= |SCALARS|
  {
    if k == 0 then [] else ScalarDiffs(g, r, k - 1) + FieldDiff(g, r, SCALARS[k - 1])
  }

  /** The mismatches of the `i`-th part of a whole, at their places in the whole. */
  function Lift<L, M>(i: nat, into: (nat, L) -> M, ms: seq<Mismatch<L>>): seq<Mismatch<M>> {
    seq(|ms|, k requires 0 <= k < |ms| => Mismatch(into(i, ms[k].loc), ms[k].grpc, ms[k].rpc))
  }

  /** The mismatches of all parts of a whole, part after part. */
  function Gather<L, M>(into: (nat, L) -> M, parts: seq<seq<Mismatch<L>>>): seq<Mismatch<M>> {
    if |parts| == 0 then []
    else
      var n := |parts| - 1;
      Gather(into, parts[..n]) + Lift(n, into, parts[n])
  }

  function CallAt(i: nat, inner: Location): Location {
    InCall(i, inner)
  }

  function LogAt(j: nat, f: LogField): Location {
    InLog(j, f)
  }

  function TxAt(i: nat, inner: Location): BlockLocation {
    InTx(i, inner)
  }

  /** The mismatches of two frames: scalars, then child calls, then logs. */
  function FrameDiffs(g: CallFrame, r: RpcCallFrame): seq<Mismatch<Location>>
    decreases g, 2
  {
    ScalarDiffs(g, r, |SCALARS|) + CallsPart(g, r) + LogsPart(g, r)
  }

  function CallsPart(g: CallFrame, r: RpcCallFrame): seq<Mismatch<Location>>
    decreases g, 1
  {
    if |g.calls| != |r.calls| then FieldDiff(g, r, Calls) else Gather(CallAt, CallsDiffs(g, r))
  }

  /** The mismatches of each child call. */
  function CallsDiffs(g: CallFrame, r: RpcCallFrame): seq<seq<Mismatch<Location>>>
    requires |g.calls| == |r.calls|
    decreases g, 0
  {
    seq(|g.calls|, i requires 0 <= i < |g.calls| => FrameDiffs(g.calls[i], r.calls[i]))
  }

  function LogsPart(g: CallFrame, r: RpcCallFrame): seq<Mismatch<Location>> {
    if |g.logs| != |r.logs| then FieldDiff(g, r, Logs) else Gather(LogAt, LogsDiffs(g, r))
  }

  /** The mismatches of each log. */
  function LogsDiffs(g: CallFrame, r: RpcCallFrame): seq<seq<Mismatch<LogField>>>
    requires |g.logs| == |r.logs|
  {
    seq(|g.logs|, j requires 0 <= j < |g.logs| => LogDiffs(g.logs[j], r.logs[j]))
  }

  /** The mismatches of each transaction. */
  function TxsDiffs(gs: seq<CallFrame>, rs: seq<RpcCallFrame>): seq<seq<Mismatch<Location>>>
    requires |gs| == |rs|
  {
    seq(|gs|, i requires 0 <= i < |gs| => FrameDiffs(gs[i], rs[i]))
  }

  function BlockDiffs(gs: seq<CallFrame>, rs: seq<RpcCallFrame>): seq<Mismatch<BlockLocation>> {
    if |gs| != |rs| then
      [Mismatch(TxCount, Decimal.Print(|gs|), Decimal.Print(|rs|))]
    else
      Gather(TxAt, TxsDiffs(gs, rs))
  }

  // ---- texts differ exactly where the values do

  lemma OptionalTextsAgree(a: Option<U64>, b: Option<U64>)
    ensures OptionalText(a, b) == OptionalText(b, a) <==> a == b
  {
    if a.Some? && b.Some? {
      Decimal.PrintInjective(a.value, b.value);
    }
    assert forall v: U64 :: ("present(" + Decimal.Print(v) + ")")[0] == 'p';
  }

  lemma LogTextsAgree(g: CallLogFrame, r: RpcLogFrame, f: LogField)
    requires f.Topic? ==> f.i < |g.topics| == |r.topics|
    ensures LogTexts(g, r, f).0 != LogTexts(g, r, f).1 <==> LogDiffers(g, r, f)
  {
    match f
    case Address => BytesAgreement(g.address, r.address);
    case Topics => Decimal.PrintInjective(|g.topics|, |r.topics|);
    case Topic(i) => BytesAgreement(g.topics[i], r.topics[i]);
    case Data => BytesAgreement(g.data, r.data);
    case Position => OptionalTextsAgree(GrpcPosition(g), r.position);
    case Index => OptionalTextsAgree(GrpcIndex(g), r.index);
  }

  lemma FieldTextsAgree(g: CallFrame, r: RpcCallFrame, f: FrameField)
    ensures FieldTexts(g, r, f).0 != FieldTexts(g, r, f).1 <==> FieldDiffers(g, r, f)
  {
    match f
    case Typ =>
    case From => BytesAgreement(g.from, r.from);
    case To => BytesAgreement(g.to, r.to);
    case Value => QuantityAgreement(g.value, r.value);
    case Gas => QuantityAgreement(g.gas, r.gas);
    case GasUsed => QuantityAgreement(g.gasUsed, r.gasUsed);
    case Input => BytesAgreement(g.input, r.input);
    case Output => BytesAgreement(g.output, r.output);
    case Error =>
    case RevertReason =>
    case Calls => Decimal.PrintInjective(|g.calls|, |r.calls|);
    case Logs => Decimal.PrintInjective(|g.logs|, |r.logs|);
  }

  // ---- the list reports exactly the differing places

  ghost predicate Reports<L>(ms: seq<Mismatch<L>>, loc: L) {
    exists k :: 0 <= k < |ms| && ms[k].loc == loc
  }

  lemma ReportsConcat<L>(a: seq<Mismatch<L>>, b: seq<Mismatch<L>>, loc: L)
    ensures Reports(a + b, loc) <==> Reports(a, loc) || Reports(b, loc)
  {
    if k :| 0 <= k < |a| && a[k].loc == loc {
      assert (a + b)[k].loc == loc;
    }
    if k :| 0 <= k < |b| && b[k].loc == loc {
      assert (a + b)[|a| + k].loc == loc;
    }
  }

  lemma LiftReports<L, M>(i: nat, into: (nat, L) -> M, ms: seq<Mismatch<L>>, loc: M)
    ensures Reports(Lift(i, into, ms), loc) <==> exists k :: 0 <= k < |ms| && loc == into(i, ms[k].loc)
  {
    if k :| 0 <= k < |ms| && loc == into(i, ms[k].loc) {
      assert Lift(i, into, ms)[k].loc == loc;
    }
  }

  /** The whole reports a place exactly when it is the place of something that a part reports. */
  lemma {:induction false} GatherReports<L, M>(into: (nat, L) -> M, parts: seq<seq<Mismatch<L>>>, loc: M)
    ensures Reports(Gather(into, parts), loc) <==>
              exists i, k :: 0 <= i < |parts| && 0 <= k < |parts[i]| && loc == into(i, parts[i][k].loc)
  {
    if |parts| == 0 {
    } else {
      var n := |parts| - 1;
      GatherReports(into, parts[..n], loc);
      LiftReports(n, into, parts[n], loc);
      ReportsConcat(Gather(into, parts[..n]), Lift(n, into, parts[n]), loc);
      if i, k :| 0 <= i < |parts| && 0 <= k < |parts[i]| && loc == into(i, parts[i][k].loc) {
        assert i < n ==> parts[..n][i] == parts[i];
      }
      if i, k :| 0 <= i < n && 0 <= k < |parts[..n][i]| && loc == into(i, parts[..n][i][k].loc) {
        assert parts[..n][i] == parts[i];
      }
    }
  }

  /** Every mismatch of the whole is one of some part, at its place in the whole. */
  lemma {:induction false} GatherMember<L, M>(into: (nat, L) -> M, parts: seq<seq<Mismatch<L>>>, m: Mismatch<M>)
    returns (i: nat, k: nat)
    requires m in Gather(into, parts)
    ensures i < |parts| && k < |parts[i]|
    ensures m == Mismatch(into(i, parts[i][k].loc), parts[i][k].grpc, parts[i][k].rpc)
  {
    var n := |parts| - 1;
    if m in Gather(into, parts[..n]) {
      i, k := GatherMember(into, parts[..n], m);
    } else {
      i := n;
      k :| 0 <= k < |parts[n]| && Lift(n, into, parts[n])[k] == m;
    }
  }

  /** A place of the `i`-th part is reported exactly when that part reports it. */
  lemma GatherReportsAt<L(!new), M>(into: (nat, L) -> M, parts: seq<seq<Mismatch<L>>>, i: nat, l: L)
    requires Apart(into)
    ensures Reports(Gather(into, parts), into(i, l)) <==> i < |parts| && Reports(parts[i], l)
  {
    GatherReports(into, parts, into(i, l));
    if i < |parts| && Reports(parts[i], l) {
      var k :| 0 <= k < |parts[i]| && parts[i][k].loc == l;
    }
  }

  /** Places of different parts, and different places of one part, are different places of the whole. */
  ghost predicate Apart<L(!new), M>(into: (nat, L) -> M) {
    forall i, l, j, m :: into(i, l) == into(j, m) ==> i == j && l == m
  }

  lemma {:induction false} GatherEmpty<L, M>(into: (nat, L) -> M, parts: seq<seq<Mismatch<L>>>)
    ensures Gather(into, parts) == [] <==> forall i :: 0 <= i < |parts| ==> parts[i] == []
  {
    if |parts| == 0 {
    } else {
      GatherEmpty(into, parts[..|parts| - 1]);
    }
  }

  lemma GatherNext<L, M>(into: (nat, L) -> M, parts: seq<seq<Mismatch<L>>>, i: nat)
    requires i < |parts|
    ensures Gather(into, parts[..i + 1]) == Gather(into, parts[..i]) + Lift(i, into, parts[i])
  {
    assert parts[..i + 1][..i] == parts[..i];
  }

  lemma LogFieldDiffReports(g: CallLogFrame, r: RpcLogFrame, f: LogField, loc: LogField)
    requires f.Topic? ==> f.i < |g.topics| == |r.topics|
    ensures Reports(LogFieldDiff(g, r, f), loc) <==> loc == f && LogDiffers(g, r, f)
  {
    LogTextsAgree(g, r, f);
    var ms := LogFieldDiff(g, r, f);
    assert ms != [] ==> ms[0].loc == f;
  }

  lemma FieldDiffReports(g: CallFrame, r: RpcCallFrame, f: FrameField, loc: Location)
    ensures Reports(FieldDiff(g, r, f), loc) <==> loc == Here(f) && FieldDiffers(g, r, f)
  {
    FieldTextsAgree(g, r, f);
    var ms := FieldDiff(g, r, f);
    assert ms != [] ==> ms[0].loc == Here(f);
  }

  lemma {:induction false} TopicDiffsReport(g: CallLogFrame, r: RpcLogFrame, k: nat, loc: LogField)
    requires k <= |g.topics| == |r.topics|
    ensures Reports(TopicDiffs(g, r, k), loc) <==> loc.Topic? && loc.i < k && LogDiffers(g, r, loc)
  {
    hide LogTexts, LogDiffers, LogFieldDiff;
    if k == 0 {
    } else {
      TopicDiffsReport(g, r, k - 1, loc);
      LogFieldDiffReports(g, r, Topic(k - 1), loc);
      ReportsConcat(TopicDiffs(g, r, k - 1), LogFieldDiff(g, r, Topic(k - 1)), loc);
    }
  }

  lemma TopicsPartReports(g: CallLogFrame, r: RpcLogFrame, loc: LogField)
    ensures Reports(TopicsPart(g, r), loc) <==> (loc.Topic? || loc.Topics?) && LogDiffers(g, r, loc)
  {
    if |g.topics| != |r.topics| {
      LogFieldDiffReports(g, r, Topics, loc);
    } else {
      TopicDiffsReport(g, r, |g.topics|, loc);
    }
  }

  lemma LogDiffsReport(g: CallLogFrame, r: RpcLogFrame, loc: LogField)
    ensures Reports(LogDiffs(g, r), loc) <==> LogDiffers(g, r, loc)
  {
    var a, t := LogFieldDiff(g, r, Address), TopicsPart(g, r);
    var d, p, i := LogFieldDiff(g, r, Data), LogFieldDiff(g, r, Position), LogFieldDiff(g, r, Index);
    LogFieldDiffReports(g, r, Address, loc);
    TopicsPartReports(g, r, loc);
    LogFieldDiffReports(g, r, Data, loc);
    LogFieldDiffReports(g, r, Position, loc);
    LogFieldDiffReports(g, r, Index, loc);
    ReportsConcat(a, t, loc);
    ReportsConcat(a + t, d, loc);
    ReportsConcat(a + t + d, p, loc);
    ReportsConcat(a + t + d + p, i, loc);
  }

  lemma {:induction false} ScalarDiffsReport(g: CallFrame, r: RpcCallFrame, k: nat, loc: Location)
    requires k <= |SCALARS|
    ensures Reports(ScalarDiffs(g, r, k), loc) <==>
              loc.Here? && loc.field in SCALARS[..k] && FieldDiffers(g, r, loc.field)
  {
    if k == 0 {
    } else {
      ScalarDiffsReport(g, r, k - 1, loc);
      FieldDiffReports(g, r, SCALARS[k - 1], loc);
      ReportsConcat(ScalarDiffs(g, r, k - 1), FieldDiff(g, r, SCALARS[k - 1]), loc);
      assert SCALARS[..k] == SCALARS[..k - 1] + [SCALARS[k - 1]];
    }
  }

  lemma ScalarsReport(g: CallFrame, r: RpcCallFrame, loc: Location)
    ensures Reports(ScalarDiffs(g, r, |SCALARS|), loc) <==>
              loc.Here? && loc.field != Calls && loc.field != Logs && FieldDiffers(g, r, loc.field)
  {
    ScalarDiffsReport(g, r, |SCALARS|, loc);
    assert SCALARS[..|SCALARS|] == SCALARS;
    assert forall f: FrameField :: f in SCALARS <==> f != Calls && f != Logs;
  }

  /** The comparison of two frames reports a place exactly when the frames differ there. */
  lemma FrameDiffsReport(g: CallFrame, r: RpcCallFrame, loc: Location)
    ensures Reports(FrameDiffs(g, r), loc) <==> Differs(g, r, loc)
    decreases g, 1
  {
    var a, b, c := ScalarDiffs(g, r, |SCALARS|), CallsPart(g, r), LogsPart(g, r);
    ReportsConcat(a, b, loc);
    ReportsConcat(a + b, c, loc);
    ScalarsReport(g, r, loc);
    CallsPartReports(g, r, loc);
    LogsPartReports(g, r, loc);
  }

  lemma {:induction false} CallsPartReports(g: CallFrame, r: RpcCallFrame, loc: Location)
    ensures Reports(CallsPart(g, r), loc) <==> (loc.InCall? || loc == Here(Calls)) && Differs(g, r, loc)
    decreases g, 0
  {
    hide DataAgrees, QuantityAgrees, LogDiffers, FieldDiff, FrameDiffs, Gather;
    if |g.calls| != |r.calls| {
      FieldDiffReports(g, r, Calls, loc);
    } else {
      GatherReports(CallAt, CallsDiffs(g, r), loc);
      if loc.InCall? {
        assert loc == CallAt(loc.call, loc.inner);
        GatherReportsAt(CallAt, CallsDiffs(g, r), loc.call, loc.inner);
        if loc.call < |g.calls| {
          FrameDiffsReport(g.calls[loc.call], r.calls[loc.call], loc.inner);
        }
      }
    }
  }

  lemma LogsPartReports(g: CallFrame, r: RpcCallFrame, loc: Location)
    ensures Reports(LogsPart(g, r), loc) <==> (loc.InLog? || loc == Here(Logs)) && Differs(g, r, loc)
  {
    hide DataAgrees, QuantityAgrees, LogDiffers, FieldDiff, LogDiffs, Gather;
    if |g.logs| != |r.logs| {
      FieldDiffReports(g, r, Logs, loc);
    } else {
      GatherReports(LogAt, LogsDiffs(g, r), loc);
      if loc.InLog? {
        assert loc == LogAt(loc.log, loc.logField);
        GatherReportsAt(LogAt, LogsDiffs(g, r), loc.log, loc.logField);
        if loc.log < |g.logs| {
          LogDiffsReport(g.logs[loc.log], r.logs[loc.log], loc.logField);
        }
      }
    }
  }

  /** The comparison of two blocks reports a place exactly when the blocks differ there. */
  lemma BlockDiffsReport(gs: seq<CallFrame>, rs: seq<RpcCallFrame>, loc: BlockLocation)
    ensures Reports(BlockDiffs(gs, rs), loc) <==> BlockDiffers(gs, rs, loc)
  {
    hide FrameDiffs, Differs, Gather;
    if |gs| == |rs| {
      GatherReports(TxAt, TxsDiffs(gs, rs), loc);
      if loc.InTx? {
        assert loc == TxAt(loc.tx, loc.loc);
        GatherReportsAt(TxAt, TxsDiffs(gs, rs), loc.tx, loc.loc);
        if loc.tx < |gs| {
          FrameDiffsReport(gs[loc.tx], rs[loc.tx], loc.loc);
        }
      }
    } else {
      assert BlockDiffs(gs, rs)[0].loc == TxCount;
    }
  }

  // ---- no mismatch means agreement

  lemma LogsMatchMeansNoDifference(g: CallLogFrame, r: RpcLogFrame)
    ensures LogsMatch(g, r) <==> forall f :: !LogDiffers(g, r, f)
  {
    if forall f :: !LogDiffers(g, r, f) {
      assert !LogDiffers(g, r, Address) && !LogDiffers(g, r, Topics) && !LogDiffers(g, r, Data);
      assert !LogDiffers(g, r, Position) && !LogDiffers(g, r, Index);
      forall i | 0 <= i < |g.topics|
        ensures DataAgrees(g.topics[i], r.topics[i])
      {
        assert !LogDiffers(g, r, Topic(i));
      }
    }
  }

  /** A frame that matches differs nowhere. */
  lemma {:induction false} MatchHidesNothing(g: CallFrame, r: RpcCallFrame, loc: Location)
    requires FramesMatch(g, r)
    ensures !Differs(g, r, loc)
    decreases loc
  {
    match loc
    case Here(f) =>
    case InCall(i, inner) =>
      if i < |g.calls| {
        MatchHidesNothing(g.calls[i], r.calls[i], inner);
      }
    case InLog(j, f) =>
      if j < |g.logs| {
        LogsMatchMeansNoDifference(g.logs[j], r.logs[j]);
      }
  }

  /** A frame that does not match differs somewhere. */
  lemma {:induction false} MismatchIsSomewhere(g: CallFrame, r: RpcCallFrame) returns (loc: Location)
    requires !FramesMatch(g, r)
    ensures Differs(g, r, loc)
    decreases g
  {
    if f :| FieldDiffers(g, r, f) {
      loc := Here(f);
      return;
    }
    NoFieldDiffers(g, r);
    if i :| 0 <= i < |g.calls| && !FramesMatch(g.calls[i], r.calls[i]) {
      var inner := MismatchIsSomewhere(g.calls[i], r.calls[i]);
      loc := InCall(i, inner);
    } else {
      var j :| 0 <= j < |g.logs| && !LogsMatch(g.logs[j], r.logs[j]);
      LogsMatchMeansNoDifference(g.logs[j], r.logs[j]);
      var f :| LogDiffers(g.logs[j], r.logs[j], f);
      loc := InLog(j, f);
    }
  }

  lemma NoFieldDiffers(g: CallFrame, r: RpcCallFrame)
    requires forall f :: !FieldDiffers(g, r, f)
    ensures |g.calls| == |r.calls| && |g.logs| == |r.logs|
    ensures FramesMatch(g, r) <==>
              && (forall i :: 0 <= i < |g.calls| ==> FramesMatch(g.calls[i], r.calls[i]))
              && (forall j :: 0 <= j < |g.logs| ==> LogsMatch(g.logs[j], r.logs[j]))
  {
    hide DataAgrees, QuantityAgrees, LogsMatch;
    assert !FieldDiffers(g, r, Calls) && !FieldDiffers(g, r, Logs);
    assert !FieldDiffers(g, r, Typ) && !FieldDiffers(g, r, From) && !FieldDiffers(g, r, To);
    assert !FieldDiffers(g, r, Value) && !FieldDiffers(g, r, Gas) && !FieldDiffers(g, r, GasUsed);
    assert !FieldDiffers(g, r, Input) && !FieldDiffers(g, r, Output);
    assert !FieldDiffers(g, r, Error) && !FieldDiffers(g, r, RevertReason);
  }

  lemma NoReportNoMismatch(ms: seq<Mismatch<Location>>)
    ensures ms == [] <==> forall loc :: !Reports(ms, loc)
  {
    if ms != [] {
      assert Reports(ms, ms[0].loc);
    }
  }

  /** The comparison of two frames is silent exactly when they match. */
  lemma FrameDiffsSoundAndComplete(g: CallFrame, r: RpcCallFrame)
    ensures FrameDiffs(g, r) == [] <==> FramesMatch(g, r)
  {
    NoReportNoMismatch(FrameDiffs(g, r));
    if FramesMatch(g, r) {
      forall loc
        ensures !Reports(FrameDiffs(g, r), loc)
      {
        FrameDiffsReport(g, r, loc);
        MatchHidesNothing(g, r, loc);
      }
    } else {
      var loc := MismatchIsSomewhere(g, r);
      FrameDiffsReport(g, r, loc);
    }
  }

  /** The comparison of two blocks is silent exactly when they match. */
  lemma BlockDiffsSoundAndComplete(gs: seq<CallFrame>, rs: seq<RpcCallFrame>)
    ensures BlockDiffs(gs, rs) == [] <==> BlocksMatch(gs, rs)
  {
    hide FramesMatch, FrameDiffs, Gather;
    if |gs| == |rs| {
      GatherEmpty(TxAt, TxsDiffs(gs, rs));
      forall i | 0 <= i < |gs|
        ensures FrameDiffs(gs[i], rs[i]) == [] <==> FramesMatch(gs[i], rs[i])
      {
        FrameDiffsSoundAndComplete(gs[i], rs[i]);
      }
      assert forall i :: 0 <= i < |gs| ==> TxsDiffs(gs, rs)[i] == FrameDiffs(gs[i], rs[i]);
    }
  }
}
