/**
  The execution data that src/convert.rs reads: what reth, revm and alloy hand to the extension.
  A hash map appears as the list of its pairs in the order in which its iterator yields them.
 */
module Reth {
  import opened Basics

  // ---- transactions

  datatype TxKind = Create | Call(to: Address)

  datatype Signature = Signature(yParity: bool, r: U256, s: U256)

  datatype AccessListItem = AccessListItem(address: Address, storageKeys: seq<B256>)

  datatype SignedAuthorization = SignedAuthorization(
    chainId: U256, address: Address, nonce: U64, yParity: Byte, r: U256, s: U256)

  /** What is particular to each of the five transaction types. */
  datatype TxBody =
    | Legacy(legacyChainId: Option<U64>, gasPrice: U128, kind: TxKind)
    | Eip2930(chainId: U64, gasPrice: U128, kind: TxKind, accessList: seq<AccessListItem>)
    | Eip1559(chainId: U64, maxFeePerGas: U128, maxPriorityFeePerGas: U128, kind: TxKind,
              accessList: seq<AccessListItem>)
    | Eip4844(chainId: U64, maxFeePerGas: U128, maxPriorityFeePerGas: U128, to: Address,
              accessList: seq<AccessListItem>, blobVersionedHashes: seq<B256>, maxFeePerBlobGas: U128)
    | Eip7702(chainId: U64, maxFeePerGas: U128, maxPriorityFeePerGas: U128, to: Address,
              accessList: seq<AccessListItem>, authorizationList: seq<SignedAuthorization>)

  datatype Transaction = Transaction(
    hash: B256, signature: Signature, nonce: U64, gasLimit: U64, value: U256, input: Bytes, body: TxBody)

  // ---- call traces

  datatype TraceLog = TraceLog(
    address: Option<Address>,
    topics: Option<seq<B256>>,
    data: Option<Bytes>,
    position: Option<U64>,
    index: Option<U64>)

  datatype TraceFrame = TraceFrame(
    typ: string,
    from: Address,
    to: Option<Address>,
    value: Option<U256>,
    gas: U256,
    gasUsed: U256,
    input: Bytes,
    output: Option<Bytes>,
    error: Option<string>,
    revertReason: Option<string>,
    calls: seq<TraceFrame>,
    logs: seq<TraceLog>)

  // ---- state

  datatype AccountInfo = AccountInfo(balance: U256, nonce: U64, codeHash: B256, code: Option<Bytes>)

  datatype AccountStatus =
    | LoadedNotExisting | Loaded | LoadedEmptyEip161 | InMemoryChange
    | Changed | Destroyed | DestroyedChanged | DestroyedAgain

  datatype StorageSlot = StorageSlot(previousOrOriginal: U256, present: U256)

  datatype BundleAccount = BundleAccount(
    info: Option<AccountInfo>,
    originalInfo: Option<AccountInfo>,
    storage: seq<(U256, StorageSlot)>,
    status: AccountStatus)

  datatype InfoRevert = DoNothing | DeleteIt | RevertTo(info: AccountInfo)

  datatype SlotRevert = SlotValue(value: U256) | SlotDestroyed

  datatype AccountRevert = AccountRevert(
    account: InfoRevert,
    storage: seq<(U256, SlotRevert)>,
    previousStatus: AccountStatus,
    wipeStorage: bool)

  datatype Bundle = Bundle(
    state: seq<(Address, BundleAccount)>,
    contracts: seq<(B256, Bytes)>,
    reverts: seq<seq<(Address, AccountRevert)>>)

  // ---- chains and notifications

  /** Of headers, receipts and withdrawals only one identifying field each is kept. */
  datatype Header = Header(number: U64)
  datatype Receipt = Receipt(cumulativeGasUsed: U64)
  datatype Withdrawal = Withdrawal(index: U64)

  datatype Block = Block(
    header: Header,
    transactions: seq<Transaction>,
    senders: seq<Address>,
    receipts: seq<Receipt>,
    withdrawals: Option<seq<Withdrawal>>)

  datatype Chain = Chain(
    blocks: seq<Block>,
    bundle: Bundle,
    callTraces: Option<map<U64, seq<TraceFrame>>>)

  datatype Notification =
    | ChainCommitted(new_: Chain)
    | ChainReorged(old_: Chain, new_: Chain)
    | ChainReverted(old_: Chain)
}
