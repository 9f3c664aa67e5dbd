/**
  What a printed mismatch line of examples/go-trace-verifier/compare.go shows after its place: the
  value on the gRPC side and the value on the JSON-RPC side, each looked up along the location in
  its own tree.
 */
module Sides {
  import opened Basics
  import opened Frames
  import opened Locations
  import opened Normalize
  import opened Diff
  import Compare
  import Decimal

  // ---- what stands at a location, on either side

  datatype GrpcValue =
    | Text(text: string) | Data(data: Bytes) | Amount(amount: Bytes) | Count(count: nat) | Number(number: Option<U64>)

  datatype RpcValue =
    | Text(text: string) | Data(data: string) | Amount(amount: string) | Count(count: nat) | Number(number: Option<U64>)

  function GrpcLogAt(g: CallLogFrame, f: LogField): Option<GrpcValue> {
    match f
    case Address => Some(GrpcValue.Data(g.address))
    case Topics => Some(GrpcValue.Count(|g.topics|))
    case Topic(i) => if i < |g.topics| then Some(GrpcValue.Data(g.topics[i])) else None
    case Data => Some(GrpcValue.Data(g.data))
    case Position => Some(GrpcValue.Number(if g.hasPosition then Some(g.position) else None))
    case Index => Some(GrpcValue.Number(if g.hasIndex then Some(g.index) else None))
  }

  function RpcLogAt(r: RpcLogFrame, f: LogField): Option<RpcValue> {
    match f
    case Address => Some(RpcValue.Data(r.address))
    case Topics => Some(RpcValue.Count(|r.topics|))
    case Topic(i) => if i < |r.topics| then Some(RpcValue.Data(r.topics[i])) else None
    case Data => Some(RpcValue.Data(r.data))
    case Position => Some(RpcValue.Number(r.position))
    case Index => Some(RpcValue.Number(r.index))
  }

  function GrpcField(g: CallFrame, f: FrameField): GrpcValue {
    match f
    case Typ => GrpcValue.Text(g.typ)
    case From => GrpcValue.Data(g.from)
    case To => GrpcValue.Data(g.to)
    case Value => GrpcValue.Amount(g.value)
    case Gas => GrpcValue.Amount(g.gas)
    case GasUsed => GrpcValue.Amount(g.gasUsed)
    case Input => GrpcValue.Data(g.input)
    case Output => GrpcValue.Data(g.output)
    case Error => GrpcValue.Text(g.error)
    case RevertReason => GrpcValue.Text(g.revertReason)
    case Calls => GrpcValue.Count(|g.calls|)
    case Logs => GrpcValue.Count(|g.logs|)
  }

  function RpcField(r: RpcCallFrame, f: FrameField): RpcValue {
    match f
    case Typ => RpcValue.Text(r.typ)
    case From => RpcValue.Data(r.from)
    case To => RpcValue.Data(r.to)
    case Value => RpcValue.Amount(r.value)
    case Gas => RpcValue.Amount(r.gas)
    case GasUsed => RpcValue.Amount(r.gasUsed)
    case Input => RpcValue.Data(r.input)
    case Output => RpcValue.Data(r.output)
    case Error => RpcValue.Text(r.error)
    case RevertReason => RpcValue.Text(r.revertReason)
    case Calls => RpcValue.Count(|r.calls|)
    case Logs => RpcValue.Count(|r.logs|)
  }

  function GrpcAt(g: CallFrame, loc: Location): Option<GrpcValue>
    decreases loc
  {
    match loc
    case Here(f) => Some(GrpcField(g, f))
    case InCall(i, inner) => if i < |g.calls| then GrpcAt(g.calls[i], inner) else None
    case InLog(j, f) => if j < |g.logs| then GrpcLogAt(g.logs[j], f) else None
  }

  function RpcAt(r: RpcCallFrame, loc: Location): Option<RpcValue>
    decreases loc
  {
    match loc
    case Here(f) => Some(RpcField(r, f))
    case InCall(i, inner) => if i < |r.calls| then RpcAt(r.calls[i], inner) else None
    case InLog(j, f) => if j < |r.logs| then RpcLogAt(r.logs[j], f) else None
  }

  function GrpcBlockAt(gs: seq<CallFrame>, loc: BlockLocation): Option<GrpcValue> {
    match loc
    case TxCount => Some(GrpcValue.Count(|gs|))
    case InTx(i, inner) => if i < |gs| then GrpcAt(gs[i], inner) else None
  }

  function RpcBlockAt(rs: seq<RpcCallFrame>, loc: BlockLocation): Option<RpcValue> {
    match loc
    case TxCount => Some(RpcValue.Count(|rs|))
    case InTx(i, inner) => if i < |rs| then RpcAt(rs[i], inner) else None
  }

  // ---- when a text shows a value

  function ReadNumber(text: string): Option<nat> {
    match Decimal.ReadIndex(text + "]", 0)
    case Some((n, "")) => Some(n)
    case _ => None
  }

  /** "absent", a number, or a number marked as present. */
  function ReadOptionalNumber(text: string): Option<Option<nat>> {
    if text == "absent" then Some(None)
    else
      var marked := StartsWith(text, "present(") && text[|text| - 1] == ')';
      var n :- ReadNumber(if marked then text[8..|text| - 1] else text);
      Some(Some(n))
  }

  ghost predicate ShowsNumber(text: string, v: Option<U64>) {
    match v
    case None => ReadOptionalNumber(text) == Some(None)
    case Some(n) => ReadOptionalNumber(text) == Some(Some(n))
  }

  /** The gRPC side prints texts as they are, and bytes as text that JSON-RPC may write for them. */
  ghost predicate GrpcShows(text: string, v: GrpcValue) {
    match v
    case Text(t) => text == t
    case Data(b) => DataAgrees(b, text)
    case Amount(b) => QuantityAgrees(b, text)
    case Count(n) => ReadNumber(text) == Some(n)
    case Number(n) => ShowsNumber(text, n)
  }

  /** The JSON-RPC side prints texts as they are, and values normalised. */
  ghost predicate RpcShows(text: string, v: RpcValue) {
    match v
    case Text(t) => text == t
    case Data(s) => text == NormalizeHexStr(s)
    case Amount(s) => text == NormalizeU256Rpc(s)
    case Count(n) => ReadNumber(text) == Some(n)
    case Number(n) => ShowsNumber(text, n)
  }

  lemma PrintedNumber(n: nat)
    ensures ReadNumber(Decimal.Print(n)) == Some(n)
    ensures !StartsWith(Decimal.Print(n), "present(")
    ensures Decimal.Print(n) != "absent"
  {
    Decimal.ReadPrinted(n, "");
    assert Decimal.Print(n) + "]" + "" == Decimal.Print(n) + "]";
    Decimal.PrintIsDigits(n);
    assert Decimal.IsDigit(Decimal.Print(n)[0]);
    assert "absent"[0] == 'a' && "present("[0] == 'p';
  }

  lemma OptionalTextShows(mine: Option<U64>, other: Option<U64>)
    ensures ShowsNumber(OptionalText(mine, other), mine)
    ensures StartsWith(OptionalText(mine, other), "present(") <==> mine.Some? && other.None?
  {
    if mine.Some? {
      var digits := Decimal.Print(mine.value);
      PrintedNumber(mine.value);
      if other.None? {
        var text := "present(" + digits + ")";
        assert text[..8] == "present(" && text[|text| - 1] == ')' && text[8..|text| - 1] == digits;
        assert text[0] == 'p' && "absent"[0] == 'a';
      }
    }
  }

  lemma FieldTextsShow(g: CallFrame, r: RpcCallFrame, f: FrameField)
    ensures GrpcShows(FieldTexts(g, r, f).0, GrpcField(g, f)) && RpcShows(FieldTexts(g, r, f).1, RpcField(r, f))
  {
    hide DataAgrees, QuantityAgrees, ReadNumber;
    match f
    case Typ =>
    case From => GrpcTextDenotes(g.from);
    case To => GrpcTextDenotes(g.to);
    case Value => GrpcTextDenotes(g.value);
    case Gas => GrpcTextDenotes(g.gas);
    case GasUsed => GrpcTextDenotes(g.gasUsed);
    case Input => GrpcTextDenotes(g.input);
    case Output => GrpcTextDenotes(g.output);
    case Error =>
    case RevertReason =>
    case Calls => PrintedNumber(|g.calls|); PrintedNumber(|r.calls|);
    case Logs => PrintedNumber(|g.logs|); PrintedNumber(|r.logs|);
  }

  lemma LogTextsShow(g: CallLogFrame, r: RpcLogFrame, f: LogField)
    requires f.Topic? ==> f.i < |g.topics| && f.i < |r.topics|
    ensures GrpcLogAt(g, f).Some? && GrpcShows(LogTexts(g, r, f).0, GrpcLogAt(g, f).value)
    ensures RpcLogAt(r, f).Some? && RpcShows(LogTexts(g, r, f).1, RpcLogAt(r, f).value)
  {
    hide DataAgrees, QuantityAgrees, ReadNumber, ShowsNumber;
    match f
    case Address => GrpcTextDenotes(g.address);
    case Topics => PrintedNumber(|g.topics|); PrintedNumber(|r.topics|);
    case Topic(i) => GrpcTextDenotes(g.topics[i]);
    case Data => GrpcTextDenotes(g.data);
    case Position =>
      OptionalTextShows(GrpcPosition(g), r.position);
      OptionalTextShows(r.position, GrpcPosition(g));
    case Index =>
      OptionalTextShows(GrpcIndex(g), r.index);
      OptionalTextShows(r.index, GrpcIndex(g));
  }

  // ---- every mismatch shows the two values at its place

  ghost predicate LogShown(g: CallLogFrame, r: RpcLogFrame, m: Mismatch<LogField>) {
    && GrpcLogAt(g, m.loc).Some? && GrpcShows(m.grpc, GrpcLogAt(g, m.loc).value)
    && RpcLogAt(r, m.loc).Some? && RpcShows(m.rpc, RpcLogAt(r, m.loc).value)
  }

  ghost predicate Shown(g: CallFrame, r: RpcCallFrame, m: Mismatch<Location>) {
    && GrpcAt(g, m.loc).Some? && GrpcShows(m.grpc, GrpcAt(g, m.loc).value)
    && RpcAt(r, m.loc).Some? && RpcShows(m.rpc, RpcAt(r, m.loc).value)
  }

  ghost predicate BlockShown(gs: seq<CallFrame>, rs: seq<RpcCallFrame>, m: Mismatch<BlockLocation>) {
    && GrpcBlockAt(gs, m.loc).Some? && GrpcShows(m.grpc, GrpcBlockAt(gs, m.loc).value)
    && RpcBlockAt(rs, m.loc).Some? && RpcShows(m.rpc, RpcBlockAt(rs, m.loc).value)
  }

  lemma {:induction false} TopicDiffsShow(g: CallLogFrame, r: RpcLogFrame, k: nat)
    requires k <= |g.topics| == |r.topics|
    ensures forall m :: m in TopicDiffs(g, r, k) ==> LogShown(g, r, m)
  {
    hide LogTexts, GrpcShows, RpcShows, GrpcLogAt, RpcLogAt;
    if k == 0 {
    } else {
      TopicDiffsShow(g, r, k - 1);
      LogTextsShow(g, r, Topic(k - 1));
    }
  }

  lemma LogDiffsShow(g: CallLogFrame, r: RpcLogFrame)
    ensures forall m :: m in LogDiffs(g, r) ==> LogShown(g, r, m)
  {
    hide LogTexts, GrpcShows, RpcShows, GrpcLogAt, RpcLogAt, TopicDiffs;
    LogTextsShow(g, r, Address);
    LogTextsShow(g, r, Topics);
    LogTextsShow(g, r, LogField.Data);
    LogTextsShow(g, r, Position);
    LogTextsShow(g, r, Index);
    if |g.topics| == |r.topics| {
      TopicDiffsShow(g, r, |g.topics|);
    }
  }

  lemma {:induction false} ScalarDiffsShow(g: CallFrame, r: RpcCallFrame, k: nat)
    requires k <= |SCALARS|
    ensures forall m :: m in ScalarDiffs(g, r, k) ==> Shown(g, r, m)
  {
    hide FieldTexts, GrpcShows, RpcShows, GrpcField, RpcField;
    if k == 0 {
    } else {
      ScalarDiffsShow(g, r, k - 1);
      FieldTextsShow(g, r, SCALARS[k - 1]);
    }
  }

  lemma {:induction false} FrameDiffsShow(g: CallFrame, r: RpcCallFrame)
    ensures forall m :: m in FrameDiffs(g, r) ==> Shown(g, r, m)
    decreases g, 1
  {
    hide ScalarDiffs, CallsPart, LogsPart, Shown;
    ScalarDiffsShow(g, r, |SCALARS|);
    CallsPartShow(g, r);
    LogsPartShow(g, r);
  }

  lemma {:induction false} CallsPartShow(g: CallFrame, r: RpcCallFrame)
    ensures forall m :: m in CallsPart(g, r) ==> Shown(g, r, m)
    decreases g, 0
  {
    hide Gather, FrameDiffs, FieldTexts, GrpcShows, RpcShows, GrpcField, RpcField;
    if |g.calls| != |r.calls| {
      FieldTextsShow(g, r, Calls);
    } else {
      forall m | m in Gather(CallAt, CallsDiffs(g, r))
        ensures Shown(g, r, m)
      {
        var i, k := GatherMember(CallAt, CallsDiffs(g, r), m);
        FrameDiffsShow(g.calls[i], r.calls[i]);
        assert CallsDiffs(g, r)[i][k] in FrameDiffs(g.calls[i], r.calls[i]);
      }
    }
  }

  lemma LogsPartShow(g: CallFrame, r: RpcCallFrame)
    ensures forall m :: m in LogsPart(g, r) ==> Shown(g, r, m)
  {
    hide Gather, LogDiffs, FieldTexts, GrpcShows, RpcShows, GrpcField, RpcField, GrpcLogAt, RpcLogAt;
    if |g.logs| != |r.logs| {
      FieldTextsShow(g, r, Logs);
    } else {
      forall m | m in Gather(LogAt, LogsDiffs(g, r))
        ensures Shown(g, r, m)
      {
        var j, k := GatherMember(LogAt, LogsDiffs(g, r), m);
        LogDiffsShow(g.logs[j], r.logs[j]);
        assert LogsDiffs(g, r)[j][k] in LogDiffs(g.logs[j], r.logs[j]);
      }
    }
  }

  lemma BlockDiffsShow(gs: seq<CallFrame>, rs: seq<RpcCallFrame>)
    ensures forall m :: m in BlockDiffs(gs, rs) ==> BlockShown(gs, rs, m)
  {
    hide Gather, FrameDiffs, ReadNumber, GrpcAt, RpcAt;
    if |gs| != |rs| {
      PrintedNumber(|gs|);
      PrintedNumber(|rs|);
    } else {
      forall m | m in Gather(TxAt, TxsDiffs(gs, rs))
        ensures BlockShown(gs, rs, m)
      {
        var i, k := GatherMember(TxAt, TxsDiffs(gs, rs), m);
        FrameDiffsShow(gs[i], rs[i]);
        assert TxsDiffs(gs, rs)[i][k] in FrameDiffs(gs[i], rs[i]);
      }
    }
  }

  // ---- reading a line

  /** The two texts of a line, if the first one has `n` characters. */
  function ReadSides(line: string, n: nat): Option<(string, string)> {
    var p := |BeforeColon(line)|;
    var tail := if p <= |line| then line[p..] else "";
    if !StartsWith(tail, ": grpc=") || |tail| < 12 + n || !StartsWith(tail[7 + n..], " rpc=") then None
    else Some((tail[7..7 + n], tail[12 + n..]))
  }

  lemma LineReads(place: string, grpc: string, rpc: string)
    requires NoColon(place)
    ensures BeforeColon(Compare.Line(place, grpc, rpc)) == place
    ensures ReadSides(Compare.Line(place, grpc, rpc), |grpc|) == Some((grpc, rpc))
  {
    var line := Compare.Line(place, grpc, rpc);
    var rest := " grpc=" + grpc + " rpc=" + rpc;
    BeforeColonOf(place, rest);
    assert line == place + ":" + rest;
    var tail := line[|place|..];
    assert tail == ": grpc=" + grpc + " rpc=" + rpc;
    assert tail[..7] == ": grpc=" && tail[7..7 + |grpc|] == grpc;
    assert tail[7 + |grpc|..] == " rpc=" + rpc;
    assert tail[12 + |grpc|..] == rpc;
  }

  /**
    Every printed line shows, at the place that it names, the value of the gRPC side after "grpc="
    and the value of the JSON-RPC side after "rpc=".
   */
  lemma LinesShowBothSides(gs: seq<CallFrame>, rs: seq<RpcCallFrame>, k: nat) returns (grpc: string, rpc: string)
    requires k < |Compare.BlockLines(BlockDiffs(gs, rs))|
    ensures var line := Compare.BlockLines(BlockDiffs(gs, rs))[k];
            && ReadSides(line, |grpc|) == Some((grpc, rpc))
            && Compare.Place(line).Some?
            && var loc := Compare.Place(line).value;
               && GrpcBlockAt(gs, loc).Some? && GrpcShows(grpc, GrpcBlockAt(gs, loc).value)
               && RpcBlockAt(rs, loc).Some? && RpcShows(rpc, RpcBlockAt(rs, loc).value)
  {
    hide BlockDiffs, GrpcBlockAt, RpcBlockAt, GrpcShows, RpcShows, BlockText, Compare.Place, ReadSides, Compare.Line;
    var m := BlockDiffs(gs, rs)[k];
    grpc, rpc := m.grpc, m.rpc;
    BlockDiffsShow(gs, rs);
    assert m in BlockDiffs(gs, rs);
    Compare.LinePlace(m);
    BlockTextNoColon(m.loc);
    LineReads(BlockText(m.loc), grpc, rpc);
  }
}
