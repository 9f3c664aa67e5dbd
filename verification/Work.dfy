/**
  The sequential meaning of examples/go-trace-verifier/main.go: which blocks are verified, what a
  worker makes of one, and the totals of the summary; and the three loops of the program, each
  proved to compute its part.
 */
module Work {
  import opened Basics
  import opened Frames
  import opened Locations
  import P = Proto
  import Diff
  import Counts
  import Compare

  /** A unit of work; `id` is its position in the order of sending. */
  datatype BlockWork = BlockWork(id: nat, blockNumber: U64, grpcFrames: seq<CallFrame>)

  datatype BlockResult = BlockResult(
    blockNumber: U64, txCount: nat, frameCount: nat, logCount: nat, mismatches: seq<string>, rpcError: bool)

  /** The answer of the JSON-RPC endpoint to each unit of work; None when both attempts failed. */
  type Rpc = BlockWork -> Option<seq<RpcCallFrame>>

  // ---- what is verified

  /** The block traces that a notification makes available: those of a committed chain only. */
  function TracesOf(n: P.Notification): seq<P.BlockCallTraces> {
    match n.event
    case Some(ChainCommitted(Some(chain))) => chain.callTraces
    case _ => []
  }

  /** The block traces that hold at least one transaction. */
  function NonEmpty(bs: seq<P.BlockCallTraces>): seq<P.BlockCallTraces> {
    if |bs| == 0 then []
    else (if |bs[0].txs| == 0 then [] else [bs[0]]) + NonEmpty(bs[1..])
  }

  function AllTraces(input: seq<P.Notification>): seq<P.BlockCallTraces> {
    if |input| == 0 then [] else NonEmpty(TracesOf(input[0])) + AllTraces(input[1..])
  }

  function ToWork(bs: seq<P.BlockCallTraces>, k: nat): (ws: seq<BlockWork>)
    requires k <= |bs|
    ensures |ws| == k
  {
    seq(k, i requires 0 <= i < k => BlockWork(i, bs[i].blockNumber, bs[i].txs))
  }

  /** The first `n` non-empty block traces of the stream, or all of them if the stream has fewer. */
  function Expected(input: seq<P.Notification>, n: nat): seq<BlockWork> {
    var all := AllTraces(input);
    ToWork(all, if n <= |all| then n else |all|)
  }

  // ---- what a worker makes of one unit

  function Process(w: BlockWork, rpc: Rpc): BlockResult {
    match rpc(w)
    case None => BlockResult(w.blockNumber, 0, 0, 0, [], true)
    case Some(rs) =>
      BlockResult(
        w.blockNumber,
        |w.grpcFrames|,
        Counts.BlockFrameCount(w.grpcFrames, rs),
        Counts.BlockLogCount(w.grpcFrames, rs),
        Compare.BlockLines(Diff.BlockDiffs(w.grpcFrames, rs)),
        false)
  }

  function Results(ws: seq<BlockWork>, rpc: Rpc): seq<BlockResult> {
    seq(|ws|, i requires 0 <= i < |ws| => Process(ws[i], rpc))
  }

  // ---- the summary

  datatype Totals = Totals(blocks: nat, txs: nat, frames: nat, logs: nat, mismatches: nat, failed: bool) {
    function Add(r: BlockResult): Totals {
      Totals(
        blocks + 1,
        txs + r.txCount,
        frames + r.frameCount,
        logs + r.logCount,
        mismatches + |r.mismatches|,
        failed || r.rpcError || |r.mismatches| > 0)
    }

    function ExitCode(): int {
      if failed then 1 else 0
    }
  }

  const ZERO := Totals(0, 0, 0, 0, 0, false)

  function Sum(rs: seq<BlockResult>): Totals {
    if |rs| == 0 then ZERO else Sum(rs[..|rs| - 1]).Add(rs[|rs| - 1])
  }

  /** The next non-empty block trace becomes the next unit of work. */
  lemma NextTrace(all: seq<P.BlockCallTraces>, sent: nat, b: P.BlockCallTraces,
                  rest: seq<P.BlockCallTraces>, later: seq<P.BlockCallTraces>)
    requires sent <= |all| && all[sent..] == [b] + rest + later
    ensures sent < |all| && all[sent + 1..] == rest + later
    ensures ToWork(all, sent + 1) == ToWork(all, sent) + [BlockWork(sent, b.blockNumber, b.txs)]
  {
    assert all[sent..][0] == b && all[sent..][1..] == rest + later;
    assert all[sent + 1..] == all[sent..][1..];
  }

  // ---- the loops

  lemma NonEmptyFrom(bs: seq<P.BlockCallTraces>, i: nat)
    requires i < |bs|
    ensures NonEmpty(bs[i..]) == (if |bs[i].txs| == 0 then [] else [bs[i]]) + NonEmpty(bs[i + 1..])
  {
    assert bs[i..][1..] == bs[i + 1..];
  }

  lemma AllTracesFrom(input: seq<P.Notification>, next: nat)
    requires next < |input|
    ensures AllTraces(input[next..]) == NonEmpty(TracesOf(input[next])) + AllTraces(input[next + 1..])
  {
    assert input[next..][1..] == input[next + 1..];
  }

  /** streamLoop, sending on a channel that somebody drains; `input` is what Recv returns until it fails. */
  method StreamLoop(input: seq<P.Notification>, n: nat) returns (work: seq<BlockWork>)
    ensures work == Expected(input, n)
  {
    work := [];
    ghost var all := AllTraces(input);
    var sent, next := 0, 0;
    assert all[0..] == all && input[0..] == input && ToWork(all, 0) == [];
    while sent < n
      invariant next <= |input|
      invariant sent <= |all| && sent <= n && work == ToWork(all, sent)
      invariant all[sent..] == AllTraces(input[next..])
      decreases |input| - next
    {
      if next == |input| {
        return;
      }
      AllTracesFrom(input, next);
      var bs := TracesOf(input[next]);
      ghost var later := AllTraces(input[next + 1..]);
      hide TracesOf, NonEmpty, AllTraces, ToWork;
      var i := 0;
      assert bs[0..] == bs;
      while i < |bs|
        invariant i <= |bs|
        invariant sent <= |all| && sent < n && work == ToWork(all, sent)
        invariant all[sent..] == NonEmpty(bs[i..]) + later
      {
        NonEmptyFrom(bs, i);
        if |bs[i].txs| == 0 {
          i := i + 1;
          assert [] + NonEmpty(bs[i..]) == NonEmpty(bs[i..]);
          continue;
        }
        NextTrace(all, sent, bs[i], NonEmpty(bs[i + 1..]), later);
        work := work + [BlockWork(sent, bs[i].blockNumber, bs[i].txs)];
        sent := sent + 1;
        if sent >= n {
          return;
        }
        i := i + 1;
      }
      NonEmptyDone(bs, later);
      next := next + 1;
    }
  }

  lemma NonEmptyDone(bs: seq<P.BlockCallTraces>, later: seq<P.BlockCallTraces>)
    ensures NonEmpty(bs[|bs|..]) + later == later
  {
  }

  /** The body of workerLoop on one unit of work. */
  method ProcessOne(w: BlockWork, rpc: Rpc) returns (r: BlockResult)
    ensures r == Process(w, rpc)
  {
    var answer := rpc(w);
    if answer.None? {
      return BlockResult(w.blockNumber, 0, 0, 0, [], true);
    }
    var mismatches, frameCount, logCount := Compare.CompareBlock(w.grpcFrames, answer.value);
    r := BlockResult(w.blockNumber, |w.grpcFrames|, frameCount, logCount, mismatches, false);
  }

  /** The collector: six accumulators over the results as they arrive. */
  method Collect(rs: seq<BlockResult>) returns (t: Totals)
    ensures t == Sum(rs)
  {
    var blocks: nat, txs: nat, frames: nat, logs: nat, mismatches: nat, failed := 0, 0, 0, 0, 0, false;
    var i := 0;
    while i < |rs|
      invariant i <= |rs|
      invariant Totals(blocks, txs, frames, logs, mismatches, failed) == Sum(rs[..i])
    {
      var res := rs[i];
      blocks := blocks + 1;
      txs := txs + res.txCount;
      frames := frames + res.frameCount;
      logs := logs + res.logCount;
      mismatches := mismatches + |res.mismatches|;
      if res.rpcError || |res.mismatches| > 0 {
        failed := true;
      }
      assert rs[..i + 1][..i] == rs[..i];
      i := i + 1;
    }
    assert rs[..|rs|] == rs;
    t := Totals(blocks, txs, frames, logs, mismatches, failed);
  }

  // ---- the summary does not depend on the order of arrival

  lemma {:induction false} SumSplit(a: seq<BlockResult>, r: BlockResult, b: seq<BlockResult>)
    ensures Sum(a + [r] + b) == Sum(a + b).Add(r)
  {
    if |b| == 0 {
      assert a + [r] + b == a + [r] && a + b == a;
      assert (a + [r])[..|a|] == a;
    } else {
      var init, last := b[..|b| - 1], b[|b| - 1];
      SumSplit(a, r, init);
      assert (a + [r] + b)[..|a + [r] + b| - 1] == a + [r] + init;
      assert (a + b)[..|a + b| - 1] == a + init;
    }
  }

  /** The same results in any order give the same summary. */
  lemma {:induction false} SumOfPermutation(a: seq<BlockResult>, b: seq<BlockResult>)
    requires multiset(a) == multiset(b)
    ensures Sum(a) == Sum(b)
  {
    hide Sum;
    if |a| == 0 {
      assert |b| == |multiset(b)|;
    } else {
      var b1, b2 := WithoutLast(a, b);
      SumOfPermutation(a[..|a| - 1], b1 + b2);
      SumSplit(b1, a[|a| - 1], b2);
      SumSplit(a[..|a| - 1], a[|a| - 1], []);
      assert a[..|a| - 1] + [] == a[..|a| - 1] && a[..|a| - 1] + [a[|a| - 1]] + [] == a;
    }
  }

  lemma {:induction false} FailedMeansSome(rs: seq<BlockResult>)
    ensures Sum(rs).failed <==> exists i :: 0 <= i < |rs| && (rs[i].rpcError || |rs[i].mismatches| > 0)
    ensures Sum(rs).blocks == |rs|
  {
    if |rs| == 0 {
    } else {
      FailedMeansSome(rs[..|rs| - 1]);
      assert rs == rs[..|rs| - 1] + [rs[|rs| - 1]];
    }
  }

  /** The block was fetched, and its traces match the answer. */
  ghost predicate Verified(w: BlockWork, rpc: Rpc) {
    rpc(w).Some? && Diff.BlocksMatch(w.grpcFrames, rpc(w).value)
  }

  /** The summary of some units of work ends in exit code 0 exactly when each was fetched and matched. */
  lemma ExitZeroMeansVerified(ws: seq<BlockWork>, rpc: Rpc)
    ensures Sum(Results(ws, rpc)).ExitCode() == 0 <==> forall w :: w in ws ==> Verified(w, rpc)
    ensures Sum(Results(ws, rpc)).ExitCode() == 1 <==> exists w :: w in ws && !Verified(w, rpc)
  {
    var rs := Results(ws, rpc);
    FailedMeansSome(rs);
    forall i | 0 <= i < |ws|
      ensures rs[i].rpcError || |rs[i].mismatches| > 0 <==> !Verified(ws[i], rpc)
    {
      if rpc(ws[i]).Some? {
        Diff.BlockDiffsSoundAndComplete(ws[i].grpcFrames, rpc(ws[i]).value);
      }
    }
  }

  // ---- what the totals of a successful run mean

  function TxsIn(ws: seq<BlockWork>): nat {
    if |ws| == 0 then 0 else TxsIn(ws[..|ws| - 1]) + |ws[|ws| - 1].grpcFrames|
  }

  function FramesIn(ws: seq<BlockWork>): nat {
    if |ws| == 0 then 0
    else
      var gs := ws[|ws| - 1].grpcFrames;
      FramesIn(ws[..|ws| - 1]) + Counts.TotalFrames(gs, |gs|)
  }

  function LogsIn(ws: seq<BlockWork>): nat {
    if |ws| == 0 then 0
    else
      var gs := ws[|ws| - 1].grpcFrames;
      LogsIn(ws[..|ws| - 1]) + Counts.TotalLogs(gs, |gs|)
  }

  /** When all is verified, the summary counts every transaction, every frame and every log of the stream. */
  lemma {:induction false} VerifiedMeansCounted(ws: seq<BlockWork>, rpc: Rpc)
    requires forall w :: w in ws ==> Verified(w, rpc)
    ensures Sum(Results(ws, rpc)) == Totals(|ws|, TxsIn(ws), FramesIn(ws), LogsIn(ws), 0, false)
  {
    if |ws| == 0 {
    } else {
      var init, last := ws[..|ws| - 1], ws[|ws| - 1];
      VerifiedMeansCounted(init, rpc);
      assert last in ws;
      Diff.BlockDiffsSoundAndComplete(last.grpcFrames, rpc(last).value);
      Counts.SilentBlockCountedCompletely(last.grpcFrames, rpc(last).value);
      assert Results(ws, rpc)[..|ws| - 1] == Results(init, rpc);
    }
  }

  // ---- what a result means, fetched or not, matching or not

  /** The lines name exactly the places where the unit and its answer differ, each once. */
  ghost predicate NamesDifferences(lines: seq<string>, gs: seq<CallFrame>, rs: seq<RpcCallFrame>) {
    && (forall k :: 0 <= k < |lines| ==> Compare.Place(lines[k]).Some?)
    && (forall k :: 0 <= k < |lines| ==> Diff.BlockDiffers(gs, rs, Compare.Place(lines[k]).value))
    && (forall j, k :: 0 <= j < k < |lines| ==> Compare.Place(lines[j]) != Compare.Place(lines[k]))
    && (forall loc :: Diff.BlockDiffers(gs, rs, loc) ==>
          exists k :: 0 <= k < |lines| && Compare.Place(lines[k]) == Some(loc))
  }

  ghost predicate Describes(r: BlockResult, w: BlockWork, rpc: Rpc) {
    && r.blockNumber == w.blockNumber
    && match rpc(w)
       case None => r.rpcError && r.txCount == 0 && r.frameCount == 0 && r.logCount == 0 && r.mismatches == []
       case Some(rs) =>
         var common := Counts.CommonParts(w.grpcFrames, rs);
         && !r.rpcError
         && r.txCount == |w.grpcFrames|
         && r.frameCount == Counts.TotalFrames(common, |common|)
         && r.logCount == Counts.TotalLogs(common, |common|)
         && NamesDifferences(r.mismatches, w.grpcFrames, rs)
  }

  /** A result carries its unit's number; a failed fetch counts nothing; an answer's differences are named. */
  lemma ResultMeans(w: BlockWork, rpc: Rpc)
    ensures Describes(Process(w, rpc), w, rpc)
  {
    hide Compare.Place, Compare.BlockLines, Diff.BlockDiffers, Diff.BlockDiffs;
    if rpc(w).Some? {
      Counts.BlockCountsCommonParts(w.grpcFrames, rpc(w).value);
      Compare.LinesLocateDifferences(w.grpcFrames, rpc(w).value);
    }
  }

  /** Unit `i` was answered, and differs from its answer at `loc`. */
  ghost predicate DiffersAt(ws: seq<BlockWork>, rpc: Rpc, i: nat, loc: BlockLocation) {
    i < |ws| && rpc(ws[i]).Some? && Diff.BlockDiffers(ws[i].grpcFrames, rpc(ws[i]).value, loc)
  }

  function AnsweredTxs(ws: seq<BlockWork>, rpc: Rpc): nat {
    if |ws| == 0 then 0
    else
      var last := ws[|ws| - 1];
      AnsweredTxs(ws[..|ws| - 1], rpc) + if rpc(last).Some? then |last.grpcFrames| else 0
  }

  /** What a unit and its answer have in common; nothing if there is no answer. */
  function CommonOf(w: BlockWork, rpc: Rpc): seq<CallFrame> {
    match rpc(w)
    case None => []
    case Some(rs) => Counts.CommonParts(w.grpcFrames, rs)
  }

  function CommonFrames(ws: seq<BlockWork>, rpc: Rpc): nat {
    if |ws| == 0 then 0
    else
      var common := CommonOf(ws[|ws| - 1], rpc);
      CommonFrames(ws[..|ws| - 1], rpc) + Counts.TotalFrames(common, |common|)
  }

  function CommonLogs(ws: seq<BlockWork>, rpc: Rpc): nat {
    if |ws| == 0 then 0
    else
      var common := CommonOf(ws[|ws| - 1], rpc);
      CommonLogs(ws[..|ws| - 1], rpc) + Counts.TotalLogs(common, |common|)
  }

  /** The totals of any units, failures and differences included; `places` lists all differences. */
  ghost predicate TotalsMean(t: Totals, ws: seq<BlockWork>, rpc: Rpc, places: seq<(nat, BlockLocation)>) {
    && t.blocks == |ws|
    && t.txs == AnsweredTxs(ws, rpc)
    && t.frames == CommonFrames(ws, rpc)
    && t.logs == CommonLogs(ws, rpc)
    && t.mismatches == |places|
    && (forall j, k :: 0 <= j < k < |places| ==> places[j] != places[k])
    && (forall i: nat, loc :: (i, loc) in places <==> DiffersAt(ws, rpc, i, loc))
    && (t.failed <==> places != [] || exists w :: w in ws && rpc(w).None?)
  }

  /** The places that the lines of one result name. */
  lemma PlacesOf(i: nat, r: BlockResult, w: BlockWork, rpc: Rpc) returns (places: seq<(nat, BlockLocation)>)
    requires Describes(r, w, rpc)
    ensures |places| == |r.mismatches|
    ensures forall j, k :: 0 <= j < k < |places| ==> places[j] != places[k]
    ensures forall p :: p in places <==>
              p.0 == i && rpc(w).Some? && Diff.BlockDiffers(w.grpcFrames, rpc(w).value, p.1)
  {
    hide Compare.Place, Diff.BlockDiffers;
    if rpc(w).None? {
      places := [];
    } else {
      var lines := r.mismatches;
      places := seq(|lines|, k requires 0 <= k < |lines| => (i, Compare.Place(lines[k]).value));
      forall p: (nat, BlockLocation) | p.0 == i && Diff.BlockDiffers(w.grpcFrames, rpc(w).value, p.1)
        ensures p in places
      {
        var k :| 0 <= k < |lines| && Compare.Place(lines[k]) == Some(p.1);
        assert places[k] == p;
      }
    }
  }

  lemma ZeroMeans(rpc: Rpc)
    ensures TotalsMean(ZERO, [], rpc, [])
  {
  }

  lemma {:induction false} SumMeans(ws: seq<BlockWork>, rpc: Rpc) returns (places: seq<(nat, BlockLocation)>)
    ensures TotalsMean(Sum(Results(ws, rpc)), ws, rpc, places)
  {
    hide Process, Describes, Diff.BlockDiffers, TotalsMean;
    if |ws| == 0 {
      places := [];
      assert TotalsMean(ZERO, [], rpc, []) by { ZeroMeans(rpc); }
    } else {
      var init, last := ws[..|ws| - 1], ws[|ws| - 1];
      var before := SumMeans(init, rpc);
      ResultMeans(last, rpc);
      var here := PlacesOf(|init|, Process(last, rpc), last, rpc);
      places := before + here;
      assert Results(ws, rpc)[..|ws| - 1] == Results(init, rpc) && init + [last] == ws;
      TotalsGrow(Sum(Results(init, rpc)), init, before, last, here, rpc);
    }
  }

  lemma TotalsGrow(t: Totals, init: seq<BlockWork>, before: seq<(nat, BlockLocation)>,
                   last: BlockWork, here: seq<(nat, BlockLocation)>, rpc: Rpc)
    requires TotalsMean(t, init, rpc, before)
    requires |here| == |Process(last, rpc).mismatches|
    requires forall j, k :: 0 <= j < k < |here| ==> here[j] != here[k]
    requires forall p :: p in here <==>
               p.0 == |init| && rpc(last).Some? && Diff.BlockDiffers(last.grpcFrames, rpc(last).value, p.1)
    ensures TotalsMean(t.Add(Process(last, rpc)), init + [last], rpc, before + here)
  {
    hide NamesDifferences, Diff.BlockDiffers, Compare.BlockLines, Diff.BlockDiffs;
    ResultMeans(last, rpc);
    var ws := init + [last];
    assert ws[..|ws| - 1] == init;
    forall i: nat, loc
      ensures (i, loc) in before + here <==> DiffersAt(ws, rpc, i, loc)
    {
      assert (i, loc) in before <==> DiffersAt(init, rpc, i, loc);
    }
    forall j, k | 0 <= j < |before| && 0 <= k < |here|
      ensures before[j] != here[k]
    {
      assert (before[j].0, before[j].1) in before;
      assert here[k] in here;
    }
  }
}
