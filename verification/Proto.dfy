/** The messages of proto/exex.proto, call traces excepted (module Frames). */
module Proto {
  import opened Basics
  import Frames

  datatype Signature = Signature(yParity: bool, r: Bytes, s: Bytes)

  datatype AccessListItem = AccessListItem(address: Bytes, storageKeys: seq<Bytes>)

  datatype SignedAuthorization = SignedAuthorization(
    chainId: Bytes, address: Bytes, nonce: U64, yParity: bool, r: Bytes, s: Bytes)

  datatype Transaction = Transaction(
    hash: Bytes,
    txType: nat,
    signature: Option<Signature>,
    nonce: U64,
    gasLimit: U64,
    value: Bytes,
    input: Bytes,
    to: Bytes,
    chainId: Bytes,
    gasPrice: Bytes,
    maxFeePerGas: Bytes,
    maxPriorityFeePerGas: Bytes,
    accessList: seq<AccessListItem>,
    blobVersionedHashes: seq<Bytes>,
    maxFeePerBlobGas: Bytes,
    authorizationList: seq<SignedAuthorization>)

  datatype AccountInfo = AccountInfo(balance: Bytes, nonce: U64, codeHash: Bytes)

  datatype StorageSlotDiff = StorageSlotDiff(key: Bytes, previous: Bytes, current: Bytes)

  datatype AccountDiff = AccountDiff(
    address: Bytes,
    status: int,
    info: Option<AccountInfo>,
    originalInfo: Option<AccountInfo>,
    storage: seq<StorageSlotDiff>)

  datatype ContractDiff = ContractDiff(codeHash: Bytes, bytecode: Bytes)

  datatype SlotRevertTo = Value(value: Bytes) | Destroyed(destroyed: bool)

  datatype StorageRevert = StorageRevert(key: Bytes, revertTo: Option<SlotRevertTo>)

  datatype AccountRevert = AccountRevert(
    address: Bytes,
    kind: int,
    revertToInfo: Option<AccountInfo>,
    storage: seq<StorageRevert>,
    previousStatus: int,
    wipeStorage: bool)

  datatype BlockReverts = BlockReverts(accounts: seq<AccountRevert>)

  datatype StateDiff = StateDiff(
    accounts: seq<AccountDiff>, contracts: seq<ContractDiff>, reverts: seq<BlockReverts>)

  datatype BlockCallTraces = BlockCallTraces(blockNumber: U64, txs: seq<Frames.CallFrame>)

  datatype BlockHeader = BlockHeader(number: U64)
  datatype Receipt = Receipt(cumulativeGasUsed: U64)
  datatype Withdrawal = Withdrawal(index: U64)

  datatype BlockWithReceipts = BlockWithReceipts(
    header: Option<BlockHeader>,
    txs: seq<Transaction>,
    senders: seq<Bytes>,
    receipts: seq<Receipt>,
    withdrawals: seq<Withdrawal>)

  datatype Chain = Chain(
    blocks: seq<BlockWithReceipts>,
    stateDiff: Option<StateDiff>,
    callTraces: seq<BlockCallTraces>)

  /** The event of a notification; a chain inside it may be absent on the wire. */
  datatype Event =
    | ChainCommitted(new_: Option<Chain>)
    | ChainReorged(old_: Option<Chain>, new_: Option<Chain>)
    | ChainReverted(old_: Option<Chain>)

  datatype Notification = Notification(event: Option<Event>)
}
