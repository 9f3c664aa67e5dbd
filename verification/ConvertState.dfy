/**
  The state part of src/convert.rs, with a reader for its messages. Reading undoes writing but for
  the bytecode carried inline in an account's info, and writing undoes reading: the reader accepts
  nothing that the conversion does not make. A hash map is read as the list of its pairs in the
  order of the message.
 */
module ConvertState {
  import opened Basics
  import R = Reth
  import P = Proto

  // ---- writing

  function StatusToProto(s: R.AccountStatus): int {
    match s
    case LoadedNotExisting => 0
    case Loaded => 1
    case LoadedEmptyEip161 => 2
    case InMemoryChange => 3
    case Changed => 4
    case Destroyed => 5
    case DestroyedChanged => 6
    case DestroyedAgain => 7
  }

  function InfoToProto(i: R.AccountInfo): P.AccountInfo {
    P.AccountInfo(U256ToBytes(i.balance), i.nonce, i.codeHash)
  }

  const DEFAULT_INFO := P.AccountInfo([], 0, [])

  function OptionalInfoToProto(i: Option<R.AccountInfo>): P.AccountInfo {
    match i
    case Some(info) => InfoToProto(info)
    case None => DEFAULT_INFO
  }

  function SlotToProto(e: (U256, R.StorageSlot)): P.StorageSlotDiff {
    P.StorageSlotDiff(U256ToBytes(e.0), U256ToBytes(e.1.previousOrOriginal), U256ToBytes(e.1.present))
  }

  function AccountDiffToProto(e: (Address, R.BundleAccount)): P.AccountDiff {
    P.AccountDiff(
      e.0,
      StatusToProto(e.1.status),
      Some(OptionalInfoToProto(e.1.info)),
      Some(OptionalInfoToProto(e.1.originalInfo)),
      Map(SlotToProto, e.1.storage))
  }

  function ContractToProto(e: (B256, Bytes)): P.ContractDiff {
    P.ContractDiff(e.0, e.1)
  }

  function SlotRevertToProto(e: (U256, R.SlotRevert)): P.StorageRevert {
    P.StorageRevert(
      U256ToBytes(e.0),
      Some(match e.1
           case SlotValue(v) => P.Value(U256ToBytes(v))
           case SlotDestroyed => P.Destroyed(true)))
  }

  function AccountRevertToProto(e: (Address, R.AccountRevert)): P.AccountRevert {
    var (kind, info) :=
      match e.1.account
      case DoNothing => (0, None)
      case DeleteIt => (1, None)
      case RevertTo(info) => (2, Some(InfoToProto(info)));
    P.AccountRevert(
      e.0, kind, info, Map(SlotRevertToProto, e.1.storage), StatusToProto(e.1.previousStatus), e.1.wipeStorage)
  }

  function BlockRevertsToProto(block: seq<(Address, R.AccountRevert)>): P.BlockReverts {
    P.BlockReverts(Map(AccountRevertToProto, block))
  }

  function StateDiffToProto(b: R.Bundle): P.StateDiff {
    P.StateDiff(
      Map(AccountDiffToProto, b.state), Map(ContractToProto, b.contracts), Map(BlockRevertsToProto, b.reverts))
  }

  // ---- what survives

  function WithoutCode(i: R.AccountInfo): R.AccountInfo {
    i.(code := None)
  }

  function OptionalWithoutCode(i: Option<R.AccountInfo>): Option<R.AccountInfo> {
    match i
    case Some(info) => Some(WithoutCode(info))
    case None => None
  }

  function AccountWithoutCode(e: (Address, R.BundleAccount)): (Address, R.BundleAccount) {
    (e.0, e.1.(info := OptionalWithoutCode(e.1.info), originalInfo := OptionalWithoutCode(e.1.originalInfo)))
  }

  function RevertWithoutCode(e: (Address, R.AccountRevert)): (Address, R.AccountRevert) {
    match e.1.account
    case RevertTo(info) => (e.0, e.1.(account := R.RevertTo(WithoutCode(info))))
    case _ => e
  }

  function BlockWithoutCode(block: seq<(Address, R.AccountRevert)>): seq<(Address, R.AccountRevert)> {
    Map(RevertWithoutCode, block)
  }

  function BundleWithoutCode(b: R.Bundle): R.Bundle {
    R.Bundle(Map(AccountWithoutCode, b.state), b.contracts, Map(BlockWithoutCode, b.reverts))
  }

  // ---- reading

  function ReadStatus(n: int): Option<R.AccountStatus> {
    match n
    case 0 => Some(R.LoadedNotExisting)
    case 1 => Some(R.Loaded)
    case 2 => Some(R.LoadedEmptyEip161)
    case 3 => Some(R.InMemoryChange)
    case 4 => Some(R.Changed)
    case 5 => Some(R.Destroyed)
    case 6 => Some(R.DestroyedChanged)
    case 7 => Some(R.DestroyedAgain)
    case _ => None
  }

  function ReadInfo(p: P.AccountInfo): Option<R.AccountInfo> {
    var balance :- ReadU256(p.balance);
    var codeHash :- ReadB256(p.codeHash);
    Some(R.AccountInfo(balance, p.nonce, codeHash, None))
  }

  /** An info message with every field unset stands for an absent info: a present one always has 32 bytes of balance. */
  function ReadOptionalInfo(p: Option<P.AccountInfo>): Option<Option<R.AccountInfo>> {
    var p' :- p;
    if |p'.balance| == 0 && p'.nonce == 0 && |p'.codeHash| == 0 then Some(None)
    else
      var info :- ReadInfo(p');
      Some(Some(info))
  }

  function ReadSlot(p: P.StorageSlotDiff): Option<(U256, R.StorageSlot)> {
    var key :- ReadU256(p.key);
    var previous :- ReadU256(p.previous);
    var current :- ReadU256(p.current);
    Some((key, R.StorageSlot(previous, current)))
  }

  function ReadAccountDiff(p: P.AccountDiff): Option<(Address, R.BundleAccount)> {
    var address :- ReadAddress(p.address);
    var status :- ReadStatus(p.status);
    var info :- ReadOptionalInfo(p.info);
    var originalInfo :- ReadOptionalInfo(p.originalInfo);
    var storage :- ReadAll(ReadSlot, p.storage);
    Some((address, R.BundleAccount(info, originalInfo, storage, status)))
  }

  function ReadContract(p: P.ContractDiff): Option<(B256, Bytes)> {
    var codeHash :- ReadB256(p.codeHash);
    Some((codeHash, p.bytecode))
  }

  function ReadSlotRevert(p: P.StorageRevert): Option<(U256, R.SlotRevert)> {
    var key :- ReadU256(p.key);
    var revertTo :- p.revertTo;
    match revertTo
    case Destroyed(yes) => if yes then Some((key, R.SlotDestroyed)) else None
    case Value(b) =>
      var value :- ReadU256(b);
      Some((key, R.SlotValue(value)))
  }

  /** An info comes with kind 2 and with no other. */
  function ReadInfoRevert(kind: int, info: Option<P.AccountInfo>): Option<R.InfoRevert> {
    match kind
    case 0 => if info.None? then Some(R.DoNothing) else None
    case 1 => if info.None? then Some(R.DeleteIt) else None
    case 2 =>
      var p :- info;
      var i :- ReadInfo(p);
      Some(R.RevertTo(i))
    case _ => None
  }

  function ReadAccountRevert(p: P.AccountRevert): Option<(Address, R.AccountRevert)> {
    var address :- ReadAddress(p.address);
    var account :- ReadInfoRevert(p.kind, p.revertToInfo);
    var storage :- ReadAll(ReadSlotRevert, p.storage);
    var previousStatus :- ReadStatus(p.previousStatus);
    Some((address, R.AccountRevert(account, storage, previousStatus, p.wipeStorage)))
  }

  function ReadBlockReverts(p: P.BlockReverts): Option<seq<(Address, R.AccountRevert)>> {
    ReadAll(ReadAccountRevert, p.accounts)
  }

  function ReadStateDiff(p: P.StateDiff): Option<R.Bundle> {
    var state :- ReadAll(ReadAccountDiff, p.accounts);
    var contracts :- ReadAll(ReadContract, p.contracts);
    var reverts :- ReadAll(ReadBlockReverts, p.reverts);
    Some(R.Bundle(state, contracts, reverts))
  }

  // ---- reading undoes writing

  lemma StatusRoundTrip(s: R.AccountStatus)
    ensures ReadStatus(StatusToProto(s)) == Some(s)
  {
  }

  lemma InfoRoundTrip(i: R.AccountInfo)
    ensures ReadInfo(InfoToProto(i)) == Some(WithoutCode(i))
  {
    IntegersRoundTrip();
  }

  /** Absent and present info stay apart, even when every number of the present one is zero. */
  lemma OptionalInfoRoundTrip(i: Option<R.AccountInfo>)
    ensures ReadOptionalInfo(Some(OptionalInfoToProto(i))) == Some(OptionalWithoutCode(i))
  {
    IntegersRoundTrip();
  }

  lemma StorageRoundTrip(s: seq<(U256, R.StorageSlot)>)
    ensures ReadAll(ReadSlot, Map(SlotToProto, s)) == Some(s)
  {
    hide U256ToBytes, ReadU256;
    IntegersRoundTrip();
    ReadAllWritten(SlotToProto, ReadSlot, Same<(U256, R.StorageSlot)>, s);
    MapSame(s);
  }

  lemma StorageRevertsRoundTrip(s: seq<(U256, R.SlotRevert)>)
    ensures ReadAll(ReadSlotRevert, Map(SlotRevertToProto, s)) == Some(s)
  {
    hide U256ToBytes, ReadU256;
    IntegersRoundTrip();
    ReadAllWritten(SlotRevertToProto, ReadSlotRevert, Same<(U256, R.SlotRevert)>, s);
    MapSame(s);
  }

  lemma AccountRoundTrip(e: (Address, R.BundleAccount))
    ensures ReadAccountDiff(AccountDiffToProto(e)) == Some(AccountWithoutCode(e))
  {
    hide ReadOptionalInfo, OptionalInfoToProto, OptionalWithoutCode, ReadAll, StatusToProto, ReadStatus;
    StatusRoundTrip(e.1.status);
    OptionalInfoRoundTrip(e.1.info);
    OptionalInfoRoundTrip(e.1.originalInfo);
    StorageRoundTrip(e.1.storage);
  }

  lemma RevertRoundTrip(e: (Address, R.AccountRevert))
    ensures ReadAccountRevert(AccountRevertToProto(e)) == Some(RevertWithoutCode(e))
  {
    hide ReadAll, StatusToProto, ReadStatus, ReadInfo, InfoToProto, WithoutCode, SlotRevertToProto, ReadSlotRevert;
    StatusRoundTrip(e.1.previousStatus);
    StorageRevertsRoundTrip(e.1.storage);
    if e.1.account.RevertTo? {
      InfoRoundTrip(e.1.account.info);
    }
  }

  lemma BlockRevertsRoundTrip(block: seq<(Address, R.AccountRevert)>)
    ensures ReadBlockReverts(BlockRevertsToProto(block)) == Some(BlockWithoutCode(block))
  {
    forall e | e in block
      ensures ReadAccountRevert(AccountRevertToProto(e)) == Some(RevertWithoutCode(e))
    {
      RevertRoundTrip(e);
    }
    ReadAllWritten(AccountRevertToProto, ReadAccountRevert, RevertWithoutCode, block);
  }

  /** The reader recovers the bundle, lists in order, up to inline code. */
  lemma StateDiffRoundTrip(b: R.Bundle)
    ensures ReadStateDiff(StateDiffToProto(b)) == Some(BundleWithoutCode(b))
  {
    forall e | e in b.state
      ensures ReadAccountDiff(AccountDiffToProto(e)) == Some(AccountWithoutCode(e))
    {
      AccountRoundTrip(e);
    }
    forall block | block in b.reverts
      ensures ReadBlockReverts(BlockRevertsToProto(block)) == Some(BlockWithoutCode(block))
    {
      BlockRevertsRoundTrip(block);
    }
    ReadAllWritten(AccountDiffToProto, ReadAccountDiff, AccountWithoutCode, b.state);
    ReadAllWritten(ContractToProto, ReadContract, Same<(B256, Bytes)>, b.contracts);
    MapSame(b.contracts);
    ReadAllWritten(BlockRevertsToProto, ReadBlockReverts, BlockWithoutCode, b.reverts);
  }

  // ---- writing undoes reading

  lemma StatusExact(n: int)
    ensures ReadStatus(n).Some? ==> StatusToProto(ReadStatus(n).value) == n
  {
  }

  lemma InfoExact(p: P.AccountInfo)
    ensures ReadInfo(p).Some? ==> InfoToProto(ReadInfo(p).value) == p
  {
    hide U256ToBytes, ReadU256;
    IntegersExact();
  }

  lemma OptionalInfoExact(p: Option<P.AccountInfo>)
    ensures ReadOptionalInfo(p).Some? ==> Some(OptionalInfoToProto(ReadOptionalInfo(p).value)) == p
  {
    hide InfoToProto, ReadInfo;
    if p.Some? {
      InfoExact(p.value);
    }
  }

  lemma StorageExact(ps: seq<P.StorageSlotDiff>)
    ensures ReadAll(ReadSlot, ps).Some? ==> Map(SlotToProto, ReadAll(ReadSlot, ps).value) == ps
  {
    hide U256ToBytes, ReadU256;
    IntegersExact();
    ReadAllExact(SlotToProto, ReadSlot, ps);
  }

  lemma StorageRevertsExact(ps: seq<P.StorageRevert>)
    ensures ReadAll(ReadSlotRevert, ps).Some? ==> Map(SlotRevertToProto, ReadAll(ReadSlotRevert, ps).value) == ps
  {
    hide U256ToBytes, ReadU256;
    IntegersExact();
    ReadAllExact(SlotRevertToProto, ReadSlotRevert, ps);
  }

  lemma AccountExact(p: P.AccountDiff)
    ensures ReadAccountDiff(p).Some? ==> AccountDiffToProto(ReadAccountDiff(p).value) == p
  {
    hide ReadOptionalInfo, OptionalInfoToProto, ReadAll, StatusToProto, ReadStatus, SlotToProto, ReadSlot;
    StatusExact(p.status);
    OptionalInfoExact(p.info);
    OptionalInfoExact(p.originalInfo);
    StorageExact(p.storage);
  }

  lemma RevertExact(p: P.AccountRevert)
    ensures ReadAccountRevert(p).Some? ==> AccountRevertToProto(ReadAccountRevert(p).value) == p
  {
    hide ReadAll, StatusToProto, ReadStatus, ReadInfo, InfoToProto, SlotRevertToProto, ReadSlotRevert;
    StatusExact(p.previousStatus);
    StorageRevertsExact(p.storage);
    if p.revertToInfo.Some? {
      InfoExact(p.revertToInfo.value);
    }
  }

  lemma BlockRevertsExact(p: P.BlockReverts)
    ensures ReadBlockReverts(p).Some? ==> BlockRevertsToProto(ReadBlockReverts(p).value) == p
  {
    hide ReadAccountRevert, AccountRevertToProto;
    forall a
      ensures ReadAccountRevert(a).Some? ==> AccountRevertToProto(ReadAccountRevert(a).value) == a
    {
      RevertExact(a);
    }
    ReadAllExact(AccountRevertToProto, ReadAccountRevert, p.accounts);
  }

  /** The reader accepts only messages that the conversion makes: of what it returns, it makes that very message. */
  lemma StateDiffExact(p: P.StateDiff)
    ensures ReadStateDiff(p).Some? ==> StateDiffToProto(ReadStateDiff(p).value) == p
  {
    hide ReadAccountDiff, AccountDiffToProto, ReadBlockReverts, BlockRevertsToProto;
    forall a
      ensures ReadAccountDiff(a).Some? ==> AccountDiffToProto(ReadAccountDiff(a).value) == a
    {
      AccountExact(a);
    }
    forall r
      ensures ReadBlockReverts(r).Some? ==> BlockRevertsToProto(ReadBlockReverts(r).value) == r
    {
      BlockRevertsExact(r);
    }
    ReadAllExact(AccountDiffToProto, ReadAccountDiff, p.accounts);
    ReadAllExact(ContractToProto, ReadContract, p.contracts);
    ReadAllExact(BlockRevertsToProto, ReadBlockReverts, p.reverts);
  }

  /** Two bundles share a message exactly when they differ in inline code at most. */
  lemma StateDiffCollapse(a: R.Bundle, b: R.Bundle)
    ensures StateDiffToProto(a) == StateDiffToProto(b) <==> BundleWithoutCode(a) == BundleWithoutCode(b)
  {
    hide StateDiffToProto, ReadStateDiff, BundleWithoutCode;
    StateDiffRoundTrip(a);
    StateDiffRoundTrip(b);
    StateDiffExact(StateDiffToProto(a));
    StateDiffExact(StateDiffToProto(b));
  }

  /** An info travels with a revert exactly when the account is reverted to it. */
  lemma InfoOnlyForRevertTo(e: (Address, R.AccountRevert))
    ensures AccountRevertToProto(e).revertToInfo.Some? <==> e.1.account.RevertTo?
    ensures AccountRevertToProto(e).kind == 2 <==> e.1.account.RevertTo?
  {
  }

  /** The numbers of enums AccountStatus and AccountRevertKind in proto/exex.proto. */
  lemma EnumNumbers(a: Address, r: R.AccountRevert)
    ensures StatusToProto(R.LoadedNotExisting) == 0 && StatusToProto(R.Loaded) == 1
    ensures StatusToProto(R.LoadedEmptyEip161) == 2 && StatusToProto(R.InMemoryChange) == 3
    ensures StatusToProto(R.Changed) == 4 && StatusToProto(R.Destroyed) == 5
    ensures StatusToProto(R.DestroyedChanged) == 6 && StatusToProto(R.DestroyedAgain) == 7
    ensures r.account.DoNothing? ==> AccountRevertToProto((a, r)).kind == 0
    ensures r.account.DeleteIt? ==> AccountRevertToProto((a, r)).kind == 1
  {
  }

  /** The map that a list of pairs denotes, later pairs overriding earlier ones. */
  function ToMap<K, V>(pairs: seq<(K, V)>): map<K, V> {
    if |pairs| == 0 then map[]
    else
      var last := pairs[|pairs| - 1];
      ToMap(pairs[..|pairs| - 1])[last.0 := last.1]
  }

  // ---- nothing but the order is lost in a map

  ghost predicate DistinctKeys<K, V>(pairs: seq<(K, V)>) {
    forall i, j :: 0 <= i < j < |pairs| ==> pairs[i].0 != pairs[j].0
  }

  lemma {:induction false} ToMapExact<K, V>(pairs: seq<(K, V)>, k: K, v: V)
    requires DistinctKeys(pairs)
    ensures (k, v) in pairs <==> k in ToMap(pairs) && ToMap(pairs)[k] == v
  {
    if |pairs| == 0 {
    } else {
      var init, last := pairs[..|pairs| - 1], pairs[|pairs| - 1];
      ToMapExact(init, k, v);
      assert pairs == init + [last];
    }
  }

  /** Two iterations of a hash map denote the same map exactly when they yield the same pairs. */
  lemma OrderIsAllThatIsLost<K(!new), V(!new)>(a: seq<(K, V)>, b: seq<(K, V)>)
    requires DistinctKeys(a) && DistinctKeys(b)
    ensures ToMap(a) == ToMap(b) <==> forall e :: e in a <==> e in b
  {
    forall k, v
      ensures (k, v) in a <==> k in ToMap(a) && ToMap(a)[k] == v
      ensures (k, v) in b <==> k in ToMap(b) && ToMap(b)[k] == v
    {
      ToMapExact(a, k, v);
      ToMapExact(b, k, v);
    }
    if ToMap(a) == ToMap(b) {
      forall e
        ensures e in a <==> e in b
      {
        assert e == (e.0, e.1);
      }
    }
    if forall e :: e in a <==> e in b {
      forall k
        ensures k in ToMap(a) <==> k in ToMap(b)
        ensures k in ToMap(a) ==> ToMap(a)[k] == ToMap(b)[k]
      {
        if k in ToMap(a) {
          assert (k, ToMap(a)[k]) in b;
        }
        if k in ToMap(b) {
          assert (k, ToMap(b)[k]) in a;
        }
      }
      assert ToMap(a) == ToMap(b);
    }
  }
}
