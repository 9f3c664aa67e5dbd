/**
  Chains and notifications in src/convert.rs: what the six subscription flags select. A message
  built under some flags is the message built under all of them, with the rest removed.
 */
module ConvertChain {
  import opened Basics
  import R = Reth
  import P = Proto
  import ConvertTx
  import ConvertState
  import ConvertTrace

  datatype SubscribeFlags = SubscribeFlags(
    headers: bool, transactions: bool, receipts: bool, withdrawals: bool, stateDiff: bool, callTraces: bool)
  {
    /** What both flag sets ask for. */
    function And(other: SubscribeFlags): SubscribeFlags {
      SubscribeFlags(
        headers && other.headers,
        transactions && other.transactions,
        receipts && other.receipts,
        withdrawals && other.withdrawals,
        stateDiff && other.stateDiff,
        callTraces && other.callTraces)
    }
  }

  const ALL := SubscribeFlags(true, true, true, true, true, true)

  // ---- the conversion

  function HeaderToProto(h: R.Header): P.BlockHeader {
    P.BlockHeader(h.number)
  }

  function ReceiptToProto(r: R.Receipt): P.Receipt {
    P.Receipt(r.cumulativeGasUsed)
  }

  function WithdrawalToProto(w: R.Withdrawal): P.Withdrawal {
    P.Withdrawal(w.index)
  }

  function BlockToProto(b: R.Block, flags: SubscribeFlags): P.BlockWithReceipts {
    P.BlockWithReceipts(
      if flags.headers then Some(HeaderToProto(b.header)) else None,
      if flags.transactions then Map(ConvertTx.TxToProto, b.transactions) else [],
      if flags.transactions then Map(AddressToBytes, b.senders) else [],
      if flags.receipts then Map(ReceiptToProto, b.receipts) else [],
      if flags.withdrawals then Map(WithdrawalToProto, OrEmpty(b.withdrawals)) else [])
  }

  function ChainToProto(c: R.Chain, flags: SubscribeFlags): P.Chain {
    P.Chain(
      Map((b: R.Block) => BlockToProto(b, flags), c.blocks),
      if flags.stateDiff then Some(ConvertState.StateDiffToProto(c.bundle)) else None,
      if flags.callTraces then ConvertTrace.CallTracesToProto(c) else [])
  }

  function NotificationToProto(n: R.Notification, flags: SubscribeFlags): P.Notification {
    var event :=
      match n
      case ChainCommitted(new_) => P.ChainCommitted(Some(ChainToProto(new_, flags)))
      case ChainReorged(old_, new_) => P.ChainReorged(Some(ChainToProto(old_, flags)), Some(ChainToProto(new_, flags)))
      case ChainReverted(old_) => P.ChainReverted(Some(ChainToProto(old_, flags)));
    P.Notification(Some(event))
  }

  // ---- removing from a finished message what the flags do not ask for

  function ProjectBlock(b: P.BlockWithReceipts, flags: SubscribeFlags): P.BlockWithReceipts {
    P.BlockWithReceipts(
      if flags.headers then b.header else None,
      if flags.transactions then b.txs else [],
      if flags.transactions then b.senders else [],
      if flags.receipts then b.receipts else [],
      if flags.withdrawals then b.withdrawals else [])
  }

  function ProjectChain(c: P.Chain, flags: SubscribeFlags): P.Chain {
    P.Chain(
      Map((b: P.BlockWithReceipts) => ProjectBlock(b, flags), c.blocks),
      if flags.stateDiff then c.stateDiff else None,
      if flags.callTraces then c.callTraces else [])
  }

  function ProjectOptional(c: Option<P.Chain>, flags: SubscribeFlags): Option<P.Chain> {
    match c
    case Some(chain) => Some(ProjectChain(chain, flags))
    case None => None
  }

  function Project(n: P.Notification, flags: SubscribeFlags): P.Notification {
    match n.event
    case None => n
    case Some(ChainCommitted(new_)) => P.Notification(Some(P.ChainCommitted(ProjectOptional(new_, flags))))
    case Some(ChainReorged(old_, new_)) =>
      P.Notification(Some(P.ChainReorged(ProjectOptional(old_, flags), ProjectOptional(new_, flags))))
    case Some(ChainReverted(old_)) => P.Notification(Some(P.ChainReverted(ProjectOptional(old_, flags))))
  }

  // ---- filtering commutes with conversion

  lemma ChainFilter(c: R.Chain, flags: SubscribeFlags)
    ensures ChainToProto(c, flags) == ProjectChain(ChainToProto(c, ALL), flags)
  {
    hide ConvertTx.TxToProto, ConvertState.StateDiffToProto, ConvertTrace.CallTracesToProto, OrEmpty;
    assert forall i :: 0 <= i < |c.blocks| ==>
        ChainToProto(c, flags).blocks[i] == ProjectBlock(ChainToProto(c, ALL).blocks[i], flags);
    assert ChainToProto(c, flags).blocks == ProjectChain(ChainToProto(c, ALL), flags).blocks;
  }

  /** Converting under some flags is converting under all of them and then removing the rest. */
  lemma FilterCommutes(n: R.Notification, flags: SubscribeFlags)
    ensures NotificationToProto(n, flags) == Project(NotificationToProto(n, ALL), flags)
  {
    match n
    case ChainCommitted(new_) => ChainFilter(new_, flags);
    case ChainReorged(old_, new_) => ChainFilter(old_, flags); ChainFilter(new_, flags);
    case ChainReverted(old_) => ChainFilter(old_, flags);
  }

  lemma ProjectChainTwice(c: P.Chain, f: SubscribeFlags, g: SubscribeFlags)
    ensures ProjectChain(ProjectChain(c, f), g) == ProjectChain(c, f.And(g))
  {
    assert ProjectChain(ProjectChain(c, f), g).blocks == ProjectChain(c, f.And(g)).blocks;
  }

  /** Filtering twice is filtering by what both flag sets ask for. */
  lemma ProjectTwice(n: P.Notification, f: SubscribeFlags, g: SubscribeFlags)
    ensures Project(Project(n, f), g) == Project(n, f.And(g))
  {
    if n.event.Some? {
      match n.event.value
      case ChainCommitted(new_) =>
        if new_.Some? { ProjectChainTwice(new_.value, f, g); }
      case ChainReorged(old_, new_) =>
        if old_.Some? { ProjectChainTwice(old_.value, f, g); }
        if new_.Some? { ProjectChainTwice(new_.value, f, g); }
      case ChainReverted(old_) =>
        if old_.Some? { ProjectChainTwice(old_.value, f, g); }
    }
  }

  /** Senders travel with the transactions: none without the flag, one each with it. */
  lemma SendersGoWithTransactions(b: R.Block, flags: SubscribeFlags)
    requires |b.senders| == |b.transactions|
    ensures |BlockToProto(b, flags).senders| == |BlockToProto(b, flags).txs|
    ensures BlockToProto(b, flags).senders == (if flags.transactions then b.senders else [])
    ensures !flags.transactions ==> BlockToProto(b, flags).txs == []
  {
    assert Map(AddressToBytes, b.senders) == b.senders;
  }

  /** A subscriber that asks for nothing gets, for every block, an empty message. */
  lemma NoFlagsNoData(c: R.Chain)
    ensures var none := SubscribeFlags(false, false, false, false, false, false);
            ChainToProto(c, none) ==
            P.Chain(seq(|c.blocks|, _ => P.BlockWithReceipts(None, [], [], [], [])), None, [])
  {
    var none := SubscribeFlags(false, false, false, false, false, false);
    assert ChainToProto(c, none).blocks == seq(|c.blocks|, _ => P.BlockWithReceipts(None, [], [], [], []));
  }
}
