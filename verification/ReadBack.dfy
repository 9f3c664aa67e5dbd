/**
  A whole notification read back, under any subscription flags: which chains there are and which
  role each plays, and of each exactly the parts that were asked for.
 */
module ReadBack {
  import opened Basics
  import opened ConvertChain
  import ConvertState
  import ConvertTrace
  import ConvertTx
  import P = Proto
  import R = Reth

  // ---- what can be read

  datatype BlockView = BlockView(
    header: Option<R.Header>,
    transactions: seq<R.Transaction>,
    senders: seq<Address>,
    receipts: seq<R.Receipt>,
    withdrawals: seq<R.Withdrawal>)

  datatype ChainView = ChainView(
    blocks: seq<BlockView>, state: Option<R.Bundle>, callTraces: seq<ConvertTrace.TracesView>)

  datatype NotificationView =
    | Committed(new_: ChainView)
    | Reorged(old_: ChainView, new_: ChainView)
    | Reverted(old_: ChainView)

  /** What is asked for of a block: the rest is absent or empty. */
  function ViewBlock(b: R.Block, flags: SubscribeFlags): BlockView {
    BlockView(
      if flags.headers then Some(b.header) else None,
      if flags.transactions then Map(ConvertTx.NormalTx, b.transactions) else [],
      if flags.transactions then b.senders else [],
      if flags.receipts then b.receipts else [],
      if flags.withdrawals then OrEmpty(b.withdrawals) else [])
  }

  function ViewBlocks(bs: seq<R.Block>, flags: SubscribeFlags): (vs: seq<BlockView>)
    ensures |vs| == |bs| && forall i :: 0 <= i < |bs| ==> vs[i] == ViewBlock(bs[i], flags)
  {
    seq(|bs|, i requires 0 <= i < |bs| => ViewBlock(bs[i], flags))
  }

  function ViewChain(c: R.Chain, flags: SubscribeFlags): ChainView {
    ChainView(
      ViewBlocks(c.blocks, flags),
      if flags.stateDiff then Some(ConvertState.BundleWithoutCode(c.bundle)) else None,
      if flags.callTraces then Map(ConvertTrace.ViewTraces, ConvertTrace.TracedBlocks(c)) else [])
  }

  function View(n: R.Notification, flags: SubscribeFlags): NotificationView {
    match n
    case ChainCommitted(new_) => Committed(ViewChain(new_, flags))
    case ChainReorged(old_, new_) => Reorged(ViewChain(old_, flags), ViewChain(new_, flags))
    case ChainReverted(old_) => Reverted(ViewChain(old_, flags))
  }

  // ---- reading

  function ReadHeader(p: Option<P.BlockHeader>): Option<R.Header> {
    match p
    case None => None
    case Some(h) => Some(R.Header(h.number))
  }

  function ReadReceipt(p: P.Receipt): Option<R.Receipt> {
    Some(R.Receipt(p.cumulativeGasUsed))
  }

  function ReadWithdrawal(p: P.Withdrawal): Option<R.Withdrawal> {
    Some(R.Withdrawal(p.index))
  }

  function ReadBlock(p: P.BlockWithReceipts): Option<BlockView> {
    var txs :- ReadAll(ConvertTx.ReadTx, p.txs);
    var senders :- ReadAll(ReadAddress, p.senders);
    var receipts :- ReadAll(ReadReceipt, p.receipts);
    var withdrawals :- ReadAll(ReadWithdrawal, p.withdrawals);
    Some(BlockView(ReadHeader(p.header), txs, senders, receipts, withdrawals))
  }

  /** The state, if it was asked for; None if what there is cannot be read. */
  function ReadState(p: Option<P.StateDiff>): Option<Option<R.Bundle>> {
    match p
    case None => Some(None)
    case Some(diff) =>
      var b :- ConvertState.ReadStateDiff(diff);
      Some(Some(b))
  }

  function ReadChain(p: Option<P.Chain>): Option<ChainView> {
    var chain :- p;
    var blocks :- ReadAll(ReadBlock, chain.blocks);
    var state :- ReadState(chain.stateDiff);
    var traces :- ReadAll(ConvertTrace.ReadTraces, chain.callTraces);
    Some(ChainView(blocks, state, traces))
  }

  function ReadNotification(p: P.Notification): Option<NotificationView> {
    var event :- p.event;
    match event
    case ChainCommitted(new_) =>
      var n :- ReadChain(new_);
      Some(Committed(n))
    case ChainReorged(old_, new_) =>
      var o :- ReadChain(old_);
      var n :- ReadChain(new_);
      Some(Reorged(o, n))
    case ChainReverted(old_) =>
      var o :- ReadChain(old_);
      Some(Reverted(o))
  }

  // ---- reading undoes writing

  lemma TxsRoundTrip(txs: seq<R.Transaction>)
    ensures ReadAll(ConvertTx.ReadTx, Map(ConvertTx.TxToProto, txs)) == Some(Map(ConvertTx.NormalTx, txs))
  {
    hide ReadAll, ConvertTx.ReadTx, ConvertTx.TxToProto, ConvertTx.NormalTx;
    forall tx | tx in txs
      ensures ConvertTx.ReadTx(ConvertTx.TxToProto(tx)) == Some(ConvertTx.NormalTx(tx))
    {
      ConvertTx.TxRoundTrip(tx);
    }
    ReadAllWritten(ConvertTx.TxToProto, ConvertTx.ReadTx, ConvertTx.NormalTx, txs);
  }

  lemma SendersRoundTrip(senders: seq<Address>)
    ensures ReadAll(ReadAddress, Map(AddressToBytes, senders)) == Some(senders)
  {
    ReadAllWritten(AddressToBytes, ReadAddress, Same<Address>, senders);
    MapSame(senders);
  }

  lemma ReceiptsRoundTrip(receipts: seq<R.Receipt>)
    ensures ReadAll(ReadReceipt, Map(ReceiptToProto, receipts)) == Some(receipts)
  {
    ReadAllWritten(ReceiptToProto, ReadReceipt, Same<R.Receipt>, receipts);
    MapSame(receipts);
  }

  lemma WithdrawalsRoundTrip(withdrawals: seq<R.Withdrawal>)
    ensures ReadAll(ReadWithdrawal, Map(WithdrawalToProto, withdrawals)) == Some(withdrawals)
  {
    ReadAllWritten(WithdrawalToProto, ReadWithdrawal, Same<R.Withdrawal>, withdrawals);
    MapSame(withdrawals);
  }

  lemma NothingToRead()
    ensures ReadAll(ConvertTx.ReadTx, []) == Some([]) && ReadAll(ReadAddress, []) == Some([])
    ensures ReadAll(ReadReceipt, []) == Some([]) && ReadAll(ReadWithdrawal, []) == Some([])
    ensures ReadAll(ConvertTrace.ReadTraces, []) == Some([])
  {
  }

  lemma BlockRoundTrip(b: R.Block, flags: SubscribeFlags)
    ensures ReadBlock(BlockToProto(b, flags)) == Some(ViewBlock(b, flags))
  {
    hide ReadAll, ConvertTx.ReadTx, ConvertTx.TxToProto, ConvertTx.NormalTx, OrEmpty;
    NothingToRead();
    TxsRoundTrip(b.transactions);
    SendersRoundTrip(b.senders);
    ReceiptsRoundTrip(b.receipts);
    WithdrawalsRoundTrip(OrEmpty(b.withdrawals));
  }

  lemma ChainRoundTrip(c: R.Chain, flags: SubscribeFlags)
    ensures ReadChain(Some(ChainToProto(c, flags))) == Some(ViewChain(c, flags))
  {
    hide ReadAll, ReadBlock, ViewBlock, BlockToProto, ConvertState.ReadStateDiff, ConvertState.StateDiffToProto;
    hide ConvertTrace.ReadTraces, ConvertTrace.ViewTraces, ConvertTrace.CallTracesToProto, ConvertTrace.TracedBlocks;
    var p := ChainToProto(c, flags);
    forall i | 0 <= i < |c.blocks|
      ensures ReadBlock(p.blocks[i]) == Some(ViewBlocks(c.blocks, flags)[i])
    {
      BlockRoundTrip(c.blocks[i], flags);
    }
    ReadAllIff(ReadBlock, p.blocks, ViewBlocks(c.blocks, flags));
    ConvertState.StateDiffRoundTrip(c.bundle);
    ConvertTrace.ChainTracesRoundTrip(c);
    NothingToRead();
  }

  /** Under any flags a notification is recovered: its kind, the role of each chain, and the parts asked for. */
  lemma NotificationRoundTrip(n: R.Notification, flags: SubscribeFlags)
    ensures ReadNotification(NotificationToProto(n, flags)) == Some(View(n, flags))
  {
    hide ReadChain, ChainToProto, ViewChain;
    match n
    case ChainCommitted(new_) => ChainRoundTrip(new_, flags);
    case ChainReorged(old_, new_) => ChainRoundTrip(old_, flags); ChainRoundTrip(new_, flags);
    case ChainReverted(old_) => ChainRoundTrip(old_, flags);
  }
}
