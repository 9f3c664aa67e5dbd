/**
  The numbers of frames and logs that the comparison visits, against the plain totals of the
  two trees.
 */
module Counts {
  import opened Basics
  import opened Frames
  import opened Diff

  // ---- what the comparison counts

  function FrameCount(g: CallFrame, r: RpcCallFrame): nat
    decreases g, |g.calls| + 1
  {
    1 + if |g.calls| != |r.calls| then 0 else CallsFrameCount(g, r, |g.calls|)
  }

  function CallsFrameCount(g: CallFrame, r: RpcCallFrame, k: nat): nat
    requires k <= |g.calls| == |r.calls|
    decreases g, k
  {
    if k == 0 then 0 else CallsFrameCount(g, r, k - 1) + FrameCount(g.calls[k - 1], r.calls[k - 1])
  }

  function LogCount(g: CallFrame, r: RpcCallFrame): nat
    decreases g, |g.calls| + 1
  {
    (if |g.calls| != |r.calls| then 0 else CallsLogCount(g, r, |g.calls|))
    + if |g.logs| != |r.logs| then 0 else |g.logs|
  }

  function CallsLogCount(g: CallFrame, r: RpcCallFrame, k: nat): nat
    requires k <= |g.calls| == |r.calls|
    decreases g, k
  {
    if k == 0 then 0 else CallsLogCount(g, r, k - 1) + LogCount(g.calls[k - 1], r.calls[k - 1])
  }

  function TxsFrameCount(gs: seq<CallFrame>, rs: seq<RpcCallFrame>, k: nat): nat
    requires k <= |gs| == |rs|
  {
    if k == 0 then 0 else TxsFrameCount(gs, rs, k - 1) + FrameCount(gs[k - 1], rs[k - 1])
  }

  function TxsLogCount(gs: seq<CallFrame>, rs: seq<RpcCallFrame>, k: nat): nat
    requires k <= |gs| == |rs|
  {
    if k == 0 then 0 else TxsLogCount(gs, rs, k - 1) + LogCount(gs[k - 1], rs[k - 1])
  }

  function BlockFrameCount(gs: seq<CallFrame>, rs: seq<RpcCallFrame>): nat {
    if |gs| != |rs| then 0 else TxsFrameCount(gs, rs, |gs|)
  }

  function BlockLogCount(gs: seq<CallFrame>, rs: seq<RpcCallFrame>): nat {
    if |gs| != |rs| then 0 else TxsLogCount(gs, rs, |gs|)
  }

  // ---- the plain totals of either tree

  /** All frames of the first `k` trees of a list. */
  function TotalFrames(fs: seq<CallFrame>, k: nat): nat
    requires k <= |fs|
    decreases fs, k
  {
    if k == 0 then 0 else TotalFrames(fs, k - 1) + 1 + TotalFrames(fs[k - 1].calls, |fs[k - 1].calls|)
  }

  function TotalLogs(fs: seq<CallFrame>, k: nat): nat
    requires k <= |fs|
    decreases fs, k
  {
    if k == 0 then 0 else TotalLogs(fs, k - 1) + |fs[k - 1].logs| + TotalLogs(fs[k - 1].calls, |fs[k - 1].calls|)
  }

  function TotalRpcFrames(fs: seq<RpcCallFrame>, k: nat): nat
    requires k <= |fs|
    decreases fs, k
  {
    if k == 0 then 0 else TotalRpcFrames(fs, k - 1) + 1 + TotalRpcFrames(fs[k - 1].calls, |fs[k - 1].calls|)
  }

  function TotalRpcLogs(fs: seq<RpcCallFrame>, k: nat): nat
    requires k <= |fs|
    decreases fs, k
  {
    if k == 0 then 0 else TotalRpcLogs(fs, k - 1) + |fs[k - 1].logs| + TotalRpcLogs(fs[k - 1].calls, |fs[k - 1].calls|)
  }

  /** The two trees have call and log lists of equal length at every node. */
  ghost predicate SameShape(g: CallFrame, r: RpcCallFrame) {
    && |g.calls| == |r.calls|
    && |g.logs| == |r.logs|
    && forall i :: 0 <= i < |g.calls| ==> SameShape(g.calls[i], r.calls[i])
  }

  ghost predicate SameShapes(gs: seq<CallFrame>, rs: seq<RpcCallFrame>) {
    |gs| == |rs| && forall i :: 0 <= i < |gs| ==> SameShape(gs[i], rs[i])
  }

  // ---- the counts are bounded by the totals, and reach them exactly on equal shapes

  lemma {:induction false} FramesAtLeast(fs: seq<CallFrame>, k: nat)
    requires k <= |fs|
    ensures k <= TotalFrames(fs, k)
  {
    if k == 0 {
    } else {
      FramesAtLeast(fs, k - 1);
    }
  }

  lemma {:induction false} RpcFramesAtLeast(fs: seq<RpcCallFrame>, k: nat)
    requires k <= |fs|
    ensures k <= TotalRpcFrames(fs, k)
  {
    if k == 0 {
    } else {
      RpcFramesAtLeast(fs, k - 1);
    }
  }

  /** One frame: the counts of its comparison against the totals of its two subtrees. */
  lemma FrameTotals(g: CallFrame, r: RpcCallFrame)
    ensures FrameCount(g, r) <= 1 + TotalFrames(g.calls, |g.calls|)
    ensures FrameCount(g, r) <= 1 + TotalRpcFrames(r.calls, |r.calls|)
    ensures LogCount(g, r) <= |g.logs| + TotalLogs(g.calls, |g.calls|)
    ensures LogCount(g, r) <= |r.logs| + TotalRpcLogs(r.calls, |r.calls|)
    ensures SameShape(g, r) <==>
              && FrameCount(g, r) == 1 + TotalFrames(g.calls, |g.calls|) == 1 + TotalRpcFrames(r.calls, |r.calls|)
              && LogCount(g, r) == |g.logs| + TotalLogs(g.calls, |g.calls|)
                 == |r.logs| + TotalRpcLogs(r.calls, |r.calls|)
    decreases g, |g.calls| + 1
  {
    if |g.calls| == |r.calls| {
      CallsTotals(g, r, |g.calls|);
    } else {
      FramesAtLeast(g.calls, |g.calls|);
      RpcFramesAtLeast(r.calls, |r.calls|);
    }
  }

  lemma {:induction false} CallsTotals(g: CallFrame, r: RpcCallFrame, k: nat)
    requires k <= |g.calls| == |r.calls|
    ensures CallsFrameCount(g, r, k) <= TotalFrames(g.calls, k)
    ensures CallsFrameCount(g, r, k) <= TotalRpcFrames(r.calls, k)
    ensures CallsLogCount(g, r, k) <= TotalLogs(g.calls, k)
    ensures CallsLogCount(g, r, k) <= TotalRpcLogs(r.calls, k)
    ensures (forall i :: 0 <= i < k ==> SameShape(g.calls[i], r.calls[i])) <==>
              && CallsFrameCount(g, r, k) == TotalFrames(g.calls, k) == TotalRpcFrames(r.calls, k)
              && CallsLogCount(g, r, k) == TotalLogs(g.calls, k) == TotalRpcLogs(r.calls, k)
    decreases g, k
  {
    hide FrameCount, LogCount;
    if k == 0 {
    } else {
      CallsTotals(g, r, k - 1);
      FrameTotals(g.calls[k - 1], r.calls[k - 1]);
    }
  }

  lemma {:induction false} TxsTotals(gs: seq<CallFrame>, rs: seq<RpcCallFrame>, k: nat)
    requires k <= |gs| == |rs|
    ensures TxsFrameCount(gs, rs, k) <= TotalFrames(gs, k)
    ensures TxsFrameCount(gs, rs, k) <= TotalRpcFrames(rs, k)
    ensures TxsLogCount(gs, rs, k) <= TotalLogs(gs, k)
    ensures TxsLogCount(gs, rs, k) <= TotalRpcLogs(rs, k)
    ensures (forall i :: 0 <= i < k ==> SameShape(gs[i], rs[i])) <==>
              && TxsFrameCount(gs, rs, k) == TotalFrames(gs, k) == TotalRpcFrames(rs, k)
              && TxsLogCount(gs, rs, k) == TotalLogs(gs, k) == TotalRpcLogs(rs, k)
  {
    if k == 0 {
    } else {
      TxsTotals(gs, rs, k - 1);
      FrameTotals(gs[k - 1], rs[k - 1]);
    }
  }

  /** The counts of a block never exceed either side's totals, and equal both exactly when the shapes agree. */
  lemma BlockTotals(gs: seq<CallFrame>, rs: seq<RpcCallFrame>)
    ensures BlockFrameCount(gs, rs) <= TotalFrames(gs, |gs|)
    ensures BlockFrameCount(gs, rs) <= TotalRpcFrames(rs, |rs|)
    ensures BlockLogCount(gs, rs) <= TotalLogs(gs, |gs|)
    ensures BlockLogCount(gs, rs) <= TotalRpcLogs(rs, |rs|)
    ensures SameShapes(gs, rs) <==>
              && BlockFrameCount(gs, rs) == TotalFrames(gs, |gs|) == TotalRpcFrames(rs, |rs|)
              && BlockLogCount(gs, rs) == TotalLogs(gs, |gs|) == TotalRpcLogs(rs, |rs|)
  {
    if |gs| == |rs| {
      TxsTotals(gs, rs, |gs|);
    } else {
      FramesAtLeast(gs, |gs|);
      RpcFramesAtLeast(rs, |rs|);
    }
  }

  lemma {:induction false} MatchHasSameShape(g: CallFrame, r: RpcCallFrame)
    requires FramesMatch(g, r)
    ensures SameShape(g, r)
    decreases g
  {
    forall i | 0 <= i < |g.calls|
      ensures SameShape(g.calls[i], r.calls[i])
    {
      MatchHasSameShape(g.calls[i], r.calls[i]);
    }
  }

  /** In particular, a block without mismatches is counted completely. */
  lemma SilentBlockCountedCompletely(gs: seq<CallFrame>, rs: seq<RpcCallFrame>)
    requires BlockDiffs(gs, rs) == []
    ensures BlockFrameCount(gs, rs) == TotalFrames(gs, |gs|) == TotalRpcFrames(rs, |rs|)
    ensures BlockLogCount(gs, rs) == TotalLogs(gs, |gs|) == TotalRpcLogs(rs, |rs|)
  {
    BlockDiffsSoundAndComplete(gs, rs);
    forall i | 0 <= i < |gs|
      ensures SameShape(gs[i], rs[i])
    {
      MatchHasSameShape(gs[i], rs[i]);
    }
    BlockTotals(gs, rs);
  }

  // ---- the counts are the totals of what the two trees have in common

  /** The part of `g` that a walk reaches if it stops wherever the two trees have lists of different lengths. */
  function CommonPart(g: CallFrame, r: RpcCallFrame): CallFrame
    decreases g
  {
    g.(calls := CommonParts(g.calls, r.calls), logs := if |g.logs| == |r.logs| then g.logs else [])
  }

  function CommonParts(gs: seq<CallFrame>, rs: seq<RpcCallFrame>): (cs: seq<CallFrame>)
    ensures |cs| == if |gs| == |rs| then |gs| else 0
    decreases gs
  {
    if |gs| != |rs| then [] else seq(|gs|, i requires 0 <= i < |gs| => CommonPart(gs[i], rs[i]))
  }

  lemma FrameCountsCommonPart(g: CallFrame, r: RpcCallFrame)
    ensures var c := CommonPart(g, r);
            && FrameCount(g, r) == 1 + TotalFrames(c.calls, |c.calls|)
            && LogCount(g, r) == |c.logs| + TotalLogs(c.calls, |c.calls|)
    decreases g, |g.calls| + 1
  {
    if |g.calls| == |r.calls| {
      CallsCountCommonParts(g, r, |g.calls|);
    }
  }

  lemma {:induction false} CallsCountCommonParts(g: CallFrame, r: RpcCallFrame, k: nat)
    requires k <= |g.calls| == |r.calls|
    ensures CallsFrameCount(g, r, k) == TotalFrames(CommonParts(g.calls, r.calls), k)
    ensures CallsLogCount(g, r, k) == TotalLogs(CommonParts(g.calls, r.calls), k)
    decreases g, k
  {
    hide FrameCount, LogCount;
    if k == 0 {
    } else {
      CallsCountCommonParts(g, r, k - 1);
      FrameCountsCommonPart(g.calls[k - 1], r.calls[k - 1]);
    }
  }

  lemma {:induction false} TxsCountCommonParts(gs: seq<CallFrame>, rs: seq<RpcCallFrame>, k: nat)
    requires k <= |gs| == |rs|
    ensures TxsFrameCount(gs, rs, k) == TotalFrames(CommonParts(gs, rs), k)
    ensures TxsLogCount(gs, rs, k) == TotalLogs(CommonParts(gs, rs), k)
  {
    hide FrameCount, LogCount;
    if k == 0 {
    } else {
      TxsCountCommonParts(gs, rs, k - 1);
      FrameCountsCommonPart(gs[k - 1], rs[k - 1]);
    }
  }

  /** Whatever the two blocks are, the counters are the node and log totals of their common part. */
  lemma BlockCountsCommonParts(gs: seq<CallFrame>, rs: seq<RpcCallFrame>)
    ensures var cs := CommonParts(gs, rs);
            && BlockFrameCount(gs, rs) == TotalFrames(cs, |cs|)
            && BlockLogCount(gs, rs) == TotalLogs(cs, |cs|)
  {
    if |gs| == |rs| {
      TxsCountCommonParts(gs, rs, |gs|);
    }
  }
}
