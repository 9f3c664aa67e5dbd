/**
  The comparison of examples/go-trace-verifier/compare.go as it runs: loops that append
  mismatch lines and add up the counts, proved against the lists and counts of modules Diff
  and Counts, and what follows for the printed lines.
 */
module Compare {
  import opened Basics
  import opened Frames
  import opened Locations
  import opened Normalize
  import opened Diff
  import opened Counts
  import Decimal
  import Order

  // ---- the text of a mismatch line

  /** The format shared by all mismatch lines. */
  function Line(place: string, grpc: string, rpc: string): string {
    place + ": grpc=" + grpc + " rpc=" + rpc
  }

  function LogLines(path: string, ms: seq<Mismatch<LogField>>): seq<string> {
    seq(|ms|, k requires 0 <= k < |ms| => Line(path + "." + LogName(ms[k].loc), ms[k].grpc, ms[k].rpc))
  }

  function Lines(path: string, ms: seq<Mismatch<Location>>): seq<string> {
    seq(|ms|, k requires 0 <= k < |ms| => Line(path + Suffix(ms[k].loc), ms[k].grpc, ms[k].rpc))
  }

  function BlockLines(ms: seq<Mismatch<BlockLocation>>): seq<string> {
    seq(|ms|, k requires 0 <= k < |ms| => Line(BlockText(ms[k].loc), ms[k].grpc, ms[k].rpc))
  }

  lemma LinesConcat(path: string, a: seq<Mismatch<Location>>, b: seq<Mismatch<Location>>)
    ensures Lines(path, a + b) == Lines(path, a) + Lines(path, b)
  {
  }

  lemma BlockLinesConcat(a: seq<Mismatch<BlockLocation>>, b: seq<Mismatch<BlockLocation>>)
    ensures BlockLines(a + b) == BlockLines(a) + BlockLines(b)
  {
  }

  lemma ChildPath(path: string, i: nat, loc: Location)
    ensures path + ".calls[" + Decimal.Print(i) + "]" + Suffix(loc) == path + Suffix(InCall(i, loc))
  {
  }

  /** The lines of a child call, printed under the child's path, are the lifted lines of its parent. */
  lemma LiftCallLines(path: string, i: nat, ms: seq<Mismatch<Location>>)
    ensures Lines(path + ".calls[" + Decimal.Print(i) + "]", ms) == Lines(path, Lift(i, CallAt, ms))
  {
    forall k | 0 <= k < |ms|
      ensures Lines(path + ".calls[" + Decimal.Print(i) + "]", ms)[k] == Lines(path, Lift(i, CallAt, ms))[k]
    {
      ChildPath(path, i, ms[k].loc);
      assert Lift(i, CallAt, ms)[k].loc == CallAt(i, ms[k].loc);
    }
  }

  lemma LogPath(path: string, j: nat, f: LogField)
    ensures path + ".logs[" + Decimal.Print(j) + "]" + "." + LogName(f) == path + Suffix(InLog(j, f))
  {
  }

  lemma LiftLogLines(path: string, j: nat, ms: seq<Mismatch<LogField>>)
    ensures LogLines(path + ".logs[" + Decimal.Print(j) + "]", ms) == Lines(path, Lift(j, LogAt, ms))
  {
    forall k | 0 <= k < |ms|
      ensures LogLines(path + ".logs[" + Decimal.Print(j) + "]", ms)[k] == Lines(path, Lift(j, LogAt, ms))[k]
    {
      LogPath(path, j, ms[k].loc);
      assert Lift(j, LogAt, ms)[k].loc == LogAt(j, ms[k].loc);
    }
  }

  lemma LiftTxLines(i: nat, ms: seq<Mismatch<Location>>)
    ensures Lines("tx[" + Decimal.Print(i) + "]", ms) == BlockLines(Lift(i, TxAt, ms))
  {
    forall k | 0 <= k < |ms|
      ensures Lines("tx[" + Decimal.Print(i) + "]", ms)[k] == BlockLines(Lift(i, TxAt, ms))[k]
    {
      assert Lift(i, TxAt, ms)[k].loc == TxAt(i, ms[k].loc);
    }
  }

  lemma NothingToPrint(path: string)
    ensures Lines(path, Gather(CallAt, [])) == []
    ensures Lines(path, Gather(LogAt, [])) == []
    ensures BlockLines(Gather(TxAt, [])) == []
  {
  }

  /** The lines of one more transaction. */
  lemma NextTxLines(gs: seq<CallFrame>, rs: seq<RpcCallFrame>, i: nat)
    requires i < |gs| == |rs|
    ensures BlockLines(Gather(TxAt, TxsDiffs(gs, rs)[..i + 1])) ==
            BlockLines(Gather(TxAt, TxsDiffs(gs, rs)[..i]))
            + Lines("tx[" + Decimal.Print(i) + "]", FrameDiffs(gs[i], rs[i]))
  {
    hide FrameDiffs, Lines, BlockLines, Lift, Gather;
    var parts := TxsDiffs(gs, rs);
    GatherNext(TxAt, parts, i);
    LiftTxLines(i, parts[i]);
    BlockLinesConcat(Gather(TxAt, parts[..i]), Lift(i, TxAt, parts[i]));
  }

  /** The lines of one more child call. */
  lemma NextCallLines(path: string, g: CallFrame, r: RpcCallFrame, i: nat)
    requires i < |g.calls| == |r.calls|
    ensures Lines(path, Gather(CallAt, CallsDiffs(g, r)[..i + 1])) ==
            Lines(path, Gather(CallAt, CallsDiffs(g, r)[..i]))
            + Lines(path + ".calls[" + Decimal.Print(i) + "]", FrameDiffs(g.calls[i], r.calls[i]))
  {
    hide FrameDiffs, Lines, Lift, Gather;
    var parts := CallsDiffs(g, r);
    GatherNext(CallAt, parts, i);
    LiftCallLines(path, i, parts[i]);
    LinesConcat(path, Gather(CallAt, parts[..i]), Lift(i, CallAt, parts[i]));
  }

  /** The lines of one more log. */
  lemma NextLogLines(path: string, g: CallFrame, r: RpcCallFrame, j: nat)
    requires j < |g.logs| == |r.logs|
    ensures Lines(path, Gather(LogAt, LogsDiffs(g, r)[..j + 1])) ==
            Lines(path, Gather(LogAt, LogsDiffs(g, r)[..j]))
            + LogLines(path + ".logs[" + Decimal.Print(j) + "]", LogDiffs(g.logs[j], r.logs[j]))
  {
    hide LogDiffs, Lines, LogLines, Lift, Gather;
    var parts := LogsDiffs(g, r);
    GatherNext(LogAt, parts, j);
    LiftLogLines(path, j, parts[j]);
    LinesConcat(path, Gather(LogAt, parts[..j]), Lift(j, LogAt, parts[j]));
  }

  lemma TxCountLines(gs: seq<CallFrame>, rs: seq<RpcCallFrame>)
    ensures |gs| != |rs| ==>
              BlockLines(BlockDiffs(gs, rs)) == [Line("tx count", Decimal.Print(|gs|), Decimal.Print(|rs|))]
  {
    hide Decimal.Print, TxsDiffs;
  }

  // ---- the check closures

  /** The closure of compareFrame: appends one line if the two texts differ. */
  method Check(path: string, field: string, gVal: string, rVal: string, mismatches: seq<string>,
               ghost g: CallFrame, ghost r: RpcCallFrame, ghost k: nat)
    returns (out: seq<string>)
    requires k < |SCALARS| && mismatches == Lines(path, ScalarDiffs(g, r, k))
    requires field == Name(SCALARS[k]) && (gVal, rVal) == FieldTexts(g, r, SCALARS[k])
    ensures out == Lines(path, ScalarDiffs(g, r, k + 1))
  {
    out := mismatches;
    if gVal != rVal {
      out := out + [Line(path + "." + field, gVal, rVal)];
    }
    LinesConcat(path, ScalarDiffs(g, r, k), FieldDiff(g, r, SCALARS[k]));
    FieldLines(path, g, r, SCALARS[k]);
  }

  lemma FieldLines(path: string, g: CallFrame, r: RpcCallFrame, f: FrameField)
    ensures var t := FieldTexts(g, r, f);
            Lines(path, FieldDiff(g, r, f)) == if t.0 == t.1 then [] else [Line(path + "." + Name(f), t.0, t.1)]
  {
    assert path + "." + Name(f) == path + Suffix(Here(f));
  }

  /** The closure of compareLog. */
  method CheckLog(path: string, field: string, gVal: string, rVal: string, mismatches: seq<string>,
                  ghost g: CallLogFrame, ghost r: RpcLogFrame, ghost f: LogField, ghost before: seq<Mismatch<LogField>>)
    returns (out: seq<string>)
    requires f.Topic? ==> f.i < |g.topics| == |r.topics|
    requires mismatches == LogLines(path, before)
    requires field == LogName(f) && (gVal, rVal) == LogTexts(g, r, f)
    ensures out == LogLines(path, before + LogFieldDiff(g, r, f))
  {
    out := mismatches;
    if gVal != rVal {
      out := out + [Line(path + "." + field, gVal, rVal)];
    }
  }

  /** The block of compareLog that treats an optional number, once for the position and once for the index. */
  method CheckOptional(path: string, field: string, has: bool, value: U64, rpc: Option<U64>, mismatches: seq<string>)
    returns (out: seq<string>)
    ensures var mine := if has then Some(value) else None;
            out == mismatches + if mine == rpc then []
                                else [Line(path + "." + field, OptionalText(mine, rpc), OptionalText(rpc, mine))]
  {
    out := mismatches;
    match rpc {
      case None =>
        if has {
          out := out + [Line(path + "." + field, "present(" + Decimal.Print(value) + ")", "absent")];
        }
      case Some(v) =>
        if !has {
          out := out + [Line(path + "." + field, "absent", "present(" + Decimal.Print(v) + ")")];
        } else if value != v {
          out := out + [Line(path + "." + field, Decimal.Print(value), Decimal.Print(v))];
        }
    }
  }

  lemma LogLinesConcat(path: string, a: seq<Mismatch<LogField>>, b: seq<Mismatch<LogField>>)
    ensures LogLines(path, a + b) == LogLines(path, a) + LogLines(path, b)
  {
  }

  lemma PositionLines(path: string, g: CallLogFrame, r: RpcLogFrame)
    ensures var mine := GrpcPosition(g);
            LogLines(path, LogFieldDiff(g, r, Position)) ==
            if mine == r.position then []
            else [Line(path + "." + "position", OptionalText(mine, r.position), OptionalText(r.position, mine))]
  {
    OptionalTextsAgree(GrpcPosition(g), r.position);
  }

  lemma IndexLines(path: string, g: CallLogFrame, r: RpcLogFrame)
    ensures var mine := GrpcIndex(g);
            LogLines(path, LogFieldDiff(g, r, Index)) ==
            if mine == r.index then []
            else [Line(path + "." + "index", OptionalText(mine, r.index), OptionalText(r.index, mine))]
  {
    OptionalTextsAgree(GrpcIndex(g), r.index);
  }

  // ---- compareLog, compareFrame, compareBlock

  method CompareLog(path: string, g: CallLogFrame, r: RpcLogFrame) returns (mismatches: seq<string>)
    ensures mismatches == LogLines(path, LogDiffs(g, r))
  {
    mismatches := CheckLog(path, "address", NormalizeAddress(g.address), NormalizeHexStr(r.address), [],
                           g, r, Address, []);
    ghost var ms := LogFieldDiff(g, r, Address);
    assert [] + ms == ms;
    var topics := CompareTopics(path, g, r);
    mismatches := mismatches + topics;
    LogLinesConcat(path, ms, TopicsPart(g, r));
    ms := ms + TopicsPart(g, r);
    mismatches := CheckLog(path, "data", NormalizeBytes(g.data), NormalizeHexStr(r.data), mismatches, g, r, Data, ms);
    ms := ms + LogFieldDiff(g, r, Data);
    mismatches := CheckOptional(path, "position", g.hasPosition, g.position, r.position, mismatches);
    PositionLines(path, g, r);
    LogLinesConcat(path, ms, LogFieldDiff(g, r, Position));
    ms := ms + LogFieldDiff(g, r, Position);
    mismatches := CheckOptional(path, "index", g.hasIndex, g.index, r.index, mismatches);
    IndexLines(path, g, r);
    LogLinesConcat(path, ms, LogFieldDiff(g, r, Index));
  }

  /** The part of compareLog that treats the topics. */
  method CompareTopics(path: string, g: CallLogFrame, r: RpcLogFrame) returns (mismatches: seq<string>)
    ensures mismatches == LogLines(path, TopicsPart(g, r))
  {
    hide NormalizeBytes, NormalizeHexStr;
    if |g.topics| != |r.topics| {
      mismatches := [Line(path + ".topics", Decimal.Print(|g.topics|), Decimal.Print(|r.topics|))];
      Decimal.PrintInjective(|g.topics|, |r.topics|);
      assert path + ".topics" == path + "." + LogName(Topics);
    } else {
      mismatches := [];
      var i := 0;
      while i < |g.topics|
        invariant i <= |g.topics|
        invariant mismatches == LogLines(path, TopicDiffs(g, r, i))
      {
        mismatches := CheckLog(path, "topics[" + Decimal.Print(i) + "]",
                               NormalizeBytes(g.topics[i]), NormalizeHexStr(r.topics[i]), mismatches,
                               g, r, Topic(i), TopicDiffs(g, r, i));
        i := i + 1;
      }
    }
  }

  method CompareFrame(path: string, g: CallFrame, r: RpcCallFrame)
    returns (mismatches: seq<string>, frameCount: nat, logCount: nat)
    ensures mismatches == Lines(path, FrameDiffs(g, r))
    ensures frameCount == FrameCount(g, r) && logCount == LogCount(g, r)
    decreases g, 1
  {
    frameCount, logCount := 1, 0;
    mismatches := CompareScalars(path, g, r);
    var mm, fc, lc := CompareCalls(path, g, r);
    mismatches, frameCount, logCount := mismatches + mm, frameCount + fc, logCount + lc;
    mm, lc := CompareLogs(path, g, r);
    mismatches, logCount := mismatches + mm, logCount + lc;
    LinesConcat(path, ScalarDiffs(g, r, |SCALARS|), CallsPart(g, r));
    LinesConcat(path, ScalarDiffs(g, r, |SCALARS|) + CallsPart(g, r), LogsPart(g, r));
  }

  /** The part of compareFrame that descends into the child calls. */
  method CompareCalls(path: string, g: CallFrame, r: RpcCallFrame)
    returns (mismatches: seq<string>, frameCount: nat, logCount: nat)
    ensures mismatches == Lines(path, CallsPart(g, r))
    ensures 1 + frameCount == FrameCount(g, r)
    ensures logCount == if |g.calls| != |r.calls| then 0 else CallsLogCount(g, r, |g.calls|)
    decreases g, 0
  {
    hide FrameDiffs, Lines, Gather, FieldDiff;
    NothingToPrint(path);
    frameCount, logCount := 0, 0;
    if |g.calls| != |r.calls| {
      mismatches := [Line(path + ".calls", Decimal.Print(|g.calls|), Decimal.Print(|r.calls|))];
      Decimal.PrintInjective(|g.calls|, |r.calls|);
      FieldLines(path, g, r, Calls);
      assert path + ".calls" == path + "." + Name(Calls);
    } else {
      mismatches := [];
      var i := 0;
      while i < |g.calls|
        invariant i <= |g.calls|
        invariant mismatches == Lines(path, Gather(CallAt, CallsDiffs(g, r)[..i]))
        invariant frameCount == CallsFrameCount(g, r, i) && logCount == CallsLogCount(g, r, i)
      {
        var mm, fc, lc := CompareFrame(path + ".calls[" + Decimal.Print(i) + "]", g.calls[i], r.calls[i]);
        mismatches, frameCount, logCount := mismatches + mm, frameCount + fc, logCount + lc;
        NextCallLines(path, g, r, i);
        i := i + 1;
      }
      assert CallsDiffs(g, r)[..|g.calls|] == CallsDiffs(g, r);
    }
  }

  /** The part of compareFrame that compares the logs. */
  method CompareLogs(path: string, g: CallFrame, r: RpcCallFrame) returns (mismatches: seq<string>, logCount: nat)
    ensures mismatches == Lines(path, LogsPart(g, r))
    ensures logCount == if |g.logs| != |r.logs| then 0 else |g.logs|
  {
    hide LogDiffs, Lines, LogLines, Gather, FieldDiff;
    NothingToPrint(path);
    logCount := 0;
    if |g.logs| != |r.logs| {
      mismatches := [Line(path + ".logs", Decimal.Print(|g.logs|), Decimal.Print(|r.logs|))];
      Decimal.PrintInjective(|g.logs|, |r.logs|);
      FieldLines(path, g, r, Logs);
      assert path + ".logs" == path + "." + Name(Logs);
    } else {
      mismatches := [];
      var i := 0;
      while i < |g.logs|
        invariant i <= |g.logs|
        invariant mismatches == Lines(path, Gather(LogAt, LogsDiffs(g, r)[..i]))
        invariant logCount == i
      {
        var mm := CompareLog(path + ".logs[" + Decimal.Print(i) + "]", g.logs[i], r.logs[i]);
        mismatches, logCount := mismatches + mm, logCount + 1;
        NextLogLines(path, g, r, i);
        i := i + 1;
      }
      assert LogsDiffs(g, r)[..|g.logs|] == LogsDiffs(g, r);
    }
  }

  /** The ten scalar checks at the head of compareFrame. */
  method CompareScalars(path: string, g: CallFrame, r: RpcCallFrame) returns (mm: seq<string>)
    ensures mm == Lines(path, ScalarDiffs(g, r, |SCALARS|))
  {
    hide ScalarDiffs, NormalizeBytes, NormalizeHexStr;
    mm := CompareParties(path, g, r);
    mm := Check(path, "input", NormalizeBytes(g.input), NormalizeHexStr(r.input), mm, g, r, 6);
    mm := Check(path, "output", NormalizeBytes(g.output), NormalizeHexStr(r.output), mm, g, r, 7);
    mm := Check(path, "error", g.error, r.error, mm, g, r, 8);
    mm := Check(path, "revertReason", g.revertReason, r.revertReason, mm, g, r, 9);
  }

  /** The first six of them: who called whom, and with which amounts. */
  method CompareParties(path: string, g: CallFrame, r: RpcCallFrame) returns (mm: seq<string>)
    ensures mm == Lines(path, ScalarDiffs(g, r, 6))
  {
    hide NormalizeAddress, NormalizeBytes, NormalizeHexStr, NormalizeU256Grpc, NormalizeU256Rpc;
    mm := [];
    assert ScalarDiffs(g, r, 0) == [];
    hide ScalarDiffs;
    mm := Check(path, "typ", g.typ, r.typ, mm, g, r, 0);
    mm := Check(path, "from", NormalizeAddress(g.from), NormalizeHexStr(r.from), mm, g, r, 1);
    mm := Check(path, "to", NormalizeAddress(g.to), NormalizeHexStr(r.to), mm, g, r, 2);
    mm := Check(path, "value", NormalizeU256Grpc(g.value), NormalizeU256Rpc(r.value), mm, g, r, 3);
    mm := Check(path, "gas", NormalizeU256Grpc(g.gas), NormalizeU256Rpc(r.gas), mm, g, r, 4);
    mm := Check(path, "gasUsed", NormalizeU256Grpc(g.gasUsed), NormalizeU256Rpc(r.gasUsed), mm, g, r, 5);
  }

  method CompareBlock(gs: seq<CallFrame>, rs: seq<RpcCallFrame>)
    returns (mismatches: seq<string>, frameCount: nat, logCount: nat)
    ensures mismatches == BlockLines(BlockDiffs(gs, rs))
    ensures frameCount == BlockFrameCount(gs, rs) && logCount == BlockLogCount(gs, rs)
  {
    hide FrameDiffs, FrameCount, LogCount, Lines, Decimal.Print, BlockLines, Gather;
    TxCountLines(gs, rs);
    NothingToPrint("");
    if |gs| != |rs| {
      return [Line("tx count", Decimal.Print(|gs|), Decimal.Print(|rs|))], 0, 0;
    }
    mismatches, frameCount, logCount := [], 0, 0;
    var i := 0;
    while i < |gs|
      invariant i <= |gs|
      invariant mismatches == BlockLines(Gather(TxAt, TxsDiffs(gs, rs)[..i]))
      invariant frameCount == TxsFrameCount(gs, rs, i) && logCount == TxsLogCount(gs, rs, i)
    {
      var mm, fc, lc := CompareFrame("tx[" + Decimal.Print(i) + "]", gs[i], rs[i]);
      mismatches, frameCount, logCount := mismatches + mm, frameCount + fc, logCount + lc;
      NextTxLines(gs, rs, i);
      i := i + 1;
    }
    assert TxsDiffs(gs, rs)[..|gs|] == TxsDiffs(gs, rs);
  }

  // ---- what the printed lines say

  /** The place that a printed line names. */
  function Place(line: string): Option<BlockLocation> {
    ReadBlockText(BeforeColon(line))
  }

  lemma LinePlace(m: Mismatch<BlockLocation>)
    ensures BeforeColon(Line(BlockText(m.loc), m.grpc, m.rpc)) == BlockText(m.loc)
    ensures Place(Line(BlockText(m.loc), m.grpc, m.rpc)) == Some(m.loc)
  {
    var t := BlockText(m.loc);
    var rest := " grpc=" + m.grpc + " rpc=" + m.rpc;
    BlockTextNoColon(m.loc);
    BeforeColonOf(t, rest);
    assert t + ":" + rest == Line(t, m.grpc, m.rpc);
    BlockTextRoundTrip(m.loc);
  }

  /**
    The printed lines locate the differences exactly: every line names a place where the two
    blocks differ, every place where they differ is named by a line, and no two lines carry the
    same location text.
   */
  lemma LinesLocateDifferences(gs: seq<CallFrame>, rs: seq<RpcCallFrame>)
    ensures var lines := BlockLines(BlockDiffs(gs, rs));
            && (forall k :: 0 <= k < |lines| ==> Place(lines[k]).Some? && BlockDiffers(gs, rs, Place(lines[k]).value))
            && (forall loc :: BlockDiffers(gs, rs, loc) ==>
                  exists k :: 0 <= k < |lines| && Place(lines[k]) == Some(loc))
            && (forall j, k :: 0 <= j < k < |lines| ==> BeforeColon(lines[j]) != BeforeColon(lines[k]))
            && (forall j, k :: 0 <= j < k < |lines| ==> Place(lines[j]) != Place(lines[k]))
  {
    var ms := BlockDiffs(gs, rs);
    var lines := BlockLines(ms);
    Order.BlockDiffsDistinct(gs, rs);
    forall k | 0 <= k < |ms|
      ensures Place(lines[k]) == Some(ms[k].loc) && BlockDiffers(gs, rs, ms[k].loc)
    {
      LinePlace(ms[k]);
      assert Reports(ms, ms[k].loc);
      BlockDiffsReport(gs, rs, ms[k].loc);
    }
    forall loc | BlockDiffers(gs, rs, loc)
      ensures exists k :: 0 <= k < |lines| && Place(lines[k]) == Some(loc)
    {
      BlockDiffsReport(gs, rs, loc);
      var k :| 0 <= k < |ms| && ms[k].loc == loc;
      assert Place(lines[k]) == Some(loc);
    }
    forall j, k | 0 <= j < k < |lines|
      ensures BeforeColon(lines[j]) != BeforeColon(lines[k]) && Place(lines[j]) != Place(lines[k])
    {
      assert Place(lines[j]) == Some(ms[j].loc) && Place(lines[k]) == Some(ms[k].loc);
    }
  }
}
