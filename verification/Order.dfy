/**
  The order in which examples/go-trace-verifier/compare.go reports mismatches: transaction by
  transaction, in each frame the scalar fields in their order, then the child calls, then the logs.
  It is a strict order, so no place is reported twice.
 */
module Order {
  import opened Basics
  import opened Frames
  import opened Locations
  import opened Diff

  // ---- the order of places

  function LogRank(f: LogField): nat {
    match f
    case Address => 0
    case Topics => 1
    case Topic(_) => 1
    case Data => 2
    case Position => 3
    case Index => 4
  }

  predicate LogBefore(a: LogField, b: LogField) {
    LogRank(a) < LogRank(b) || (a.Topic? && b.Topic? && a.i < b.i)
  }

  function Rank(f: FrameField): nat {
    match f
    case Typ => 0
    case From => 1
    case To => 2
    case Value => 3
    case Gas => 4
    case GasUsed => 5
    case Input => 6
    case Output => 7
    case Error => 8
    case RevertReason => 9
    case Calls => 10
    case Logs => 11
  }

  /** The part of a frame that a place belongs to: a field of its own, the child calls, or the logs. */
  function Part(loc: Location): nat {
    match loc
    case Here(f) => Rank(f)
    case InCall(_, _) => 10
    case InLog(_, _) => 11
  }

  predicate Before(a: Location, b: Location)
    decreases a
  {
    || Part(a) < Part(b)
    || (a.InCall? && b.InCall? && (a.call < b.call || (a.call == b.call && Before(a.inner, b.inner))))
    || (a.InLog? && b.InLog? && (a.log < b.log || (a.log == b.log && LogBefore(a.logField, b.logField))))
  }

  predicate BlockBefore(a: BlockLocation, b: BlockLocation) {
    a.InTx? && b.InTx? && (a.tx < b.tx || (a.tx == b.tx && Before(a.loc, b.loc)))
  }

  lemma {:induction false} NotBeforeItself(a: Location)
    ensures !Before(a, a)
  {
    match a
    case Here(_) =>
    case InCall(_, inner) => NotBeforeItself(inner);
    case InLog(_, _) =>
  }

  // ---- lists in order

  ghost predicate Ascending<L>(before: (L, L) -> bool, ms: seq<Mismatch<L>>) {
    forall i, j :: 0 <= i < j < |ms| ==> before(ms[i].loc, ms[j].loc)
  }

  /** Every place of the first list is before every place of the second. */
  ghost predicate AllBefore<L>(before: (L, L) -> bool, a: seq<Mismatch<L>>, b: seq<Mismatch<L>>) {
    forall m, n :: m in a && n in b ==> before(m.loc, n.loc)
  }

  lemma AscendingConcat<L>(before: (L, L) -> bool, a: seq<Mismatch<L>>, b: seq<Mismatch<L>>)
    requires Ascending(before, a) && Ascending(before, b) && AllBefore(before, a, b)
    ensures Ascending(before, a + b)
  {
    forall i, j | 0 <= i < j < |a + b|
      ensures before((a + b)[i].loc, (a + b)[j].loc)
    {
      if i < |a| <= j {
        assert a[i] in a && b[j - |a|] in b;
      }
    }
  }

  /** The order of the whole agrees with that of the parts and, within one part, with the part's own. */
  ghost predicate Agrees<L(!new), M>(into: (nat, L) -> M, inPart: (L, L) -> bool, before: (M, M) -> bool) {
    && (forall i, l, j, m :: i < j ==> before(into(i, l), into(j, m)))
    && (forall i, l, m :: inPart(l, m) ==> before(into(i, l), into(i, m)))
  }

  lemma LiftAscending<L(!new), M>(i: nat, into: (nat, L) -> M, inPart: (L, L) -> bool, before: (M, M) -> bool,
                                  ms: seq<Mismatch<L>>)
    requires Agrees(into, inPart, before) && Ascending(inPart, ms)
    ensures Ascending(before, Lift(i, into, ms))
  {
    forall j, k | 0 <= j < k < |ms|
      ensures before(Lift(i, into, ms)[j].loc, Lift(i, into, ms)[k].loc)
    {
      assert inPart(ms[j].loc, ms[k].loc);
    }
  }

  lemma {:induction false} GatherAscending<L(!new), M>(into: (nat, L) -> M, inPart: (L, L) -> bool,
                                                       before: (M, M) -> bool, parts: seq<seq<Mismatch<L>>>)
    requires Agrees(into, inPart, before)
    requires forall i :: 0 <= i < |parts| ==> Ascending(inPart, parts[i])
    ensures Ascending(before, Gather(into, parts))
  {
    if |parts| == 0 {
    } else {
      var n := |parts| - 1;
      GatherAscending(into, inPart, before, parts[..n]);
      LiftAscending(n, into, inPart, before, parts[n]);
      forall x, y | x in Gather(into, parts[..n]) && y in Lift(n, into, parts[n])
        ensures before(x.loc, y.loc)
      {
        var i, k := GatherMember(into, parts[..n], x);
        var j :| 0 <= j < |parts[n]| && y == Lift(n, into, parts[n])[j];
        assert y.loc == into(n, parts[n][j].loc);
      }
      AscendingConcat(before, Gather(into, parts[..n]), Lift(n, into, parts[n]));
    }
  }

  // ---- the lists of the comparison are in order

  lemma LogFieldAscending(g: CallLogFrame, r: RpcLogFrame, f: LogField)
    requires f.Topic? ==> f.i < |g.topics| && f.i < |r.topics|
    ensures Ascending(LogBefore, LogFieldDiff(g, r, f))
    ensures forall m :: m in LogFieldDiff(g, r, f) ==> m.loc == f
  {
    hide LogTexts;
  }

  lemma FieldAscending(g: CallFrame, r: RpcCallFrame, f: FrameField)
    ensures Ascending(Before, FieldDiff(g, r, f))
    ensures forall m :: m in FieldDiff(g, r, f) ==> m.loc == Here(f)
  {
    hide FieldTexts;
  }

  lemma {:induction false} TopicDiffsAscending(g: CallLogFrame, r: RpcLogFrame, k: nat)
    requires k <= |g.topics| == |r.topics|
    ensures Ascending(LogBefore, TopicDiffs(g, r, k))
    ensures forall m :: m in TopicDiffs(g, r, k) ==> m.loc.Topic? && m.loc.i < k
  {
    hide LogTexts;
    if k == 0 {
    } else {
      TopicDiffsAscending(g, r, k - 1);
      AscendingConcat(LogBefore, TopicDiffs(g, r, k - 1), LogFieldDiff(g, r, Topic(k - 1)));
    }
  }

  lemma TopicsPartAscending(g: CallLogFrame, r: RpcLogFrame)
    ensures Ascending(LogBefore, TopicsPart(g, r))
    ensures forall m :: m in TopicsPart(g, r) ==> LogRank(m.loc) == 1
  {
    hide LogTexts, TopicDiffs;
    if |g.topics| == |r.topics| {
      TopicDiffsAscending(g, r, |g.topics|);
    }
  }

  lemma LogDiffsAscending(g: CallLogFrame, r: RpcLogFrame)
    ensures Ascending(LogBefore, LogDiffs(g, r))
  {
    hide LogFieldDiff, TopicsPart, Ascending;
    LogFieldAscending(g, r, Address);
    LogFieldAscending(g, r, Data);
    LogFieldAscending(g, r, Position);
    LogFieldAscending(g, r, Index);
    var a, t, d := LogFieldDiff(g, r, Address), TopicsPart(g, r), LogFieldDiff(g, r, Data);
    var p, i := LogFieldDiff(g, r, Position), LogFieldDiff(g, r, Index);
    TopicsPartAscending(g, r);
    AscendingConcat(LogBefore, a, t);
    AscendingConcat(LogBefore, a + t, d);
    AscendingConcat(LogBefore, a + t + d, p);
    AscendingConcat(LogBefore, a + t + d + p, i);
  }

  lemma {:induction false} ScalarDiffsAscending(g: CallFrame, r: RpcCallFrame, k: nat)
    requires k <= |SCALARS|
    ensures Ascending(Before, ScalarDiffs(g, r, k))
    ensures forall m :: m in ScalarDiffs(g, r, k) ==> m.loc.Here? && Part(m.loc) < k
  {
    hide FieldDiff;
    if k == 0 {
    } else {
      ScalarDiffsAscending(g, r, k - 1);
      FieldAscending(g, r, SCALARS[k - 1]);
      hide Ascending;
      assert Rank(SCALARS[k - 1]) == k - 1;
      AscendingConcat(Before, ScalarDiffs(g, r, k - 1), FieldDiff(g, r, SCALARS[k - 1]));
    }
  }

  lemma {:induction false} FrameDiffsAscending(g: CallFrame, r: RpcCallFrame)
    ensures Ascending(Before, FrameDiffs(g, r))
    decreases g, 1
  {
    hide ScalarDiffs, CallsPart, LogsPart, Ascending;
    var a, b, c := ScalarDiffs(g, r, |SCALARS|), CallsPart(g, r), LogsPart(g, r);
    ScalarDiffsAscending(g, r, |SCALARS|);
    CallsPartAscending(g, r);
    LogsPartAscending(g, r);
    AscendingConcat(Before, a, b);
    AscendingConcat(Before, a + b, c);
  }

  lemma {:induction false} CallsPartAscending(g: CallFrame, r: RpcCallFrame)
    ensures Ascending(Before, CallsPart(g, r))
    ensures forall m :: m in CallsPart(g, r) ==> Part(m.loc) == 10
    decreases g, 0
  {
    hide FrameDiffs, Gather, FieldTexts;
    if |g.calls| == |r.calls| {
      forall i | 0 <= i < |g.calls|
        ensures Ascending(Before, CallsDiffs(g, r)[i])
      {
        FrameDiffsAscending(g.calls[i], r.calls[i]);
      }
      GatherAscending(CallAt, Before, Before, CallsDiffs(g, r));
      forall m | m in Gather(CallAt, CallsDiffs(g, r))
        ensures Part(m.loc) == 10
      {
        var i, k := GatherMember(CallAt, CallsDiffs(g, r), m);
      }
    }
  }

  lemma LogsPartAscending(g: CallFrame, r: RpcCallFrame)
    ensures Ascending(Before, LogsPart(g, r))
    ensures forall m :: m in LogsPart(g, r) ==> Part(m.loc) == 11
  {
    hide LogDiffs, Gather, FieldTexts;
    if |g.logs| == |r.logs| {
      forall j | 0 <= j < |g.logs|
        ensures Ascending(LogBefore, LogsDiffs(g, r)[j])
      {
        LogDiffsAscending(g.logs[j], r.logs[j]);
      }
      GatherAscending(LogAt, LogBefore, Before, LogsDiffs(g, r));
      forall m | m in Gather(LogAt, LogsDiffs(g, r))
        ensures Part(m.loc) == 11
      {
        var j, k := GatherMember(LogAt, LogsDiffs(g, r), m);
      }
    }
  }

  /** The mismatches of two blocks come in the order of the walk. */
  lemma BlockDiffsInOrder(gs: seq<CallFrame>, rs: seq<RpcCallFrame>)
    ensures Ascending(BlockBefore, BlockDiffs(gs, rs))
  {
    hide FrameDiffs, Gather;
    if |gs| == |rs| {
      forall i | 0 <= i < |gs|
        ensures Ascending(Before, TxsDiffs(gs, rs)[i])
      {
        FrameDiffsAscending(gs[i], rs[i]);
      }
      GatherAscending(TxAt, Before, BlockBefore, TxsDiffs(gs, rs));
    }
  }

  /** So no place is reported twice. */
  lemma BlockDiffsDistinct(gs: seq<CallFrame>, rs: seq<RpcCallFrame>)
    ensures var ms := BlockDiffs(gs, rs);
            forall i, j :: 0 <= i < j < |ms| ==> ms[i].loc != ms[j].loc
  {
    hide BlockDiffs;
    BlockDiffsInOrder(gs, rs);
    var ms := BlockDiffs(gs, rs);
    forall i, j | 0 <= i < j < |ms|
      ensures ms[i].loc != ms[j].loc
    {
      assert BlockBefore(ms[i].loc, ms[j].loc);
      NotBeforeItself(ms[i].loc.loc);
    }
  }
}
