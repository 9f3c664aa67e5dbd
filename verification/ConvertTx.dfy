/**
  The transaction part of src/convert.rs, with a reader that recovers from a message everything
  that the conversion keeps: all of the transaction but the exact parity byte of an EIP-7702
  authorization, of which only "zero or not" survives.
 */
module ConvertTx {
  import opened Basics
  import R = Reth
  import P = Proto

  // ---- writing

  function KindToBytes(kind: R.TxKind): Bytes {
    match kind
    case Create => []
    case Call(to) => to
  }

  function SignatureToProto(s: R.Signature): P.Signature {
    P.Signature(s.yParity, U256ToBytes(s.r), U256ToBytes(s.s))
  }

  function AccessItemToProto(item: R.AccessListItem): P.AccessListItem {
    P.AccessListItem(item.address, Map(HashToBytes, item.storageKeys))
  }

  function AuthToProto(a: R.SignedAuthorization): P.SignedAuthorization {
    P.SignedAuthorization(
      U256ToBytes(a.chainId), a.address, a.nonce, a.yParity != 0, U256ToBytes(a.r), U256ToBytes(a.s))
  }

  /** The fields that all transaction types share; everything else is at its default. */
  function CommonFields(txType: nat, tx: R.Transaction, to: Bytes): P.Transaction {
    P.Transaction(
      tx.hash, txType, Some(SignatureToProto(tx.signature)), tx.nonce, tx.gasLimit, U256ToBytes(tx.value), tx.input, to,
      [], [], [], [], [], [], [], [])
  }

  function TxToProto(tx: R.Transaction): P.Transaction {
    match tx.body
    case Legacy(chainId, gasPrice, kind) =>
      CommonFields(0, tx, KindToBytes(kind)).(
        chainId := if chainId.Some? then U64ToBytes(chainId.value) else [],
        gasPrice := U128ToBytes(gasPrice))
    case Eip2930(chainId, gasPrice, kind, accessList) =>
      CommonFields(1, tx, KindToBytes(kind)).(
        chainId := U64ToBytes(chainId),
        gasPrice := U128ToBytes(gasPrice),
        accessList := Map(AccessItemToProto, accessList))
    case Eip1559(chainId, maxFee, maxPriorityFee, kind, accessList) =>
      CommonFields(2, tx, KindToBytes(kind)).(
        chainId := U64ToBytes(chainId),
        maxFeePerGas := U128ToBytes(maxFee),
        maxPriorityFeePerGas := U128ToBytes(maxPriorityFee),
        accessList := Map(AccessItemToProto, accessList))
    case Eip4844(chainId, maxFee, maxPriorityFee, to, accessList, blobHashes, maxBlobFee) =>
      CommonFields(3, tx, to).(
        chainId := U64ToBytes(chainId),
        maxFeePerGas := U128ToBytes(maxFee),
        maxPriorityFeePerGas := U128ToBytes(maxPriorityFee),
        accessList := Map(AccessItemToProto, accessList),
        blobVersionedHashes := Map(HashToBytes, blobHashes),
        maxFeePerBlobGas := U128ToBytes(maxBlobFee))
    case Eip7702(chainId, maxFee, maxPriorityFee, to, accessList, authorizations) =>
      CommonFields(4, tx, to).(
        chainId := U64ToBytes(chainId),
        maxFeePerGas := U128ToBytes(maxFee),
        maxPriorityFeePerGas := U128ToBytes(maxPriorityFee),
        accessList := Map(AccessItemToProto, accessList),
        authorizationList := Map(AuthToProto, authorizations))
  }

  // ---- reading

  function ReadKind(b: Bytes): Option<R.TxKind> {
    if |b| == 0 then Some(R.Create)
    else
      var to :- ReadAddress(b);
      Some(R.Call(to))
  }

  function ReadSignature(s: P.Signature): Option<R.Signature> {
    var r :- ReadU256(s.r);
    var s' :- ReadU256(s.s);
    Some(R.Signature(s.yParity, r, s'))
  }

  function ReadAccessItem(item: P.AccessListItem): Option<R.AccessListItem> {
    var address :- ReadAddress(item.address);
    var keys :- ReadAll(ReadB256, item.storageKeys);
    Some(R.AccessListItem(address, keys))
  }

  function ReadAuth(a: P.SignedAuthorization): Option<R.SignedAuthorization> {
    var chainId :- ReadU256(a.chainId);
    var address :- ReadAddress(a.address);
    var r :- ReadU256(a.r);
    var s :- ReadU256(a.s);
    Some(R.SignedAuthorization(chainId, address, a.nonce, if a.yParity then 1 else 0, r, s))
  }

  function ReadLegacy(p: P.Transaction): Option<R.TxBody> {
    var gasPrice :- ReadU128(p.gasPrice);
    var kind :- ReadKind(p.to);
    if |p.chainId| == 0 then Some(R.Legacy(None, gasPrice, kind))
    else
      var chainId :- ReadU64(p.chainId);
      Some(R.Legacy(Some(chainId), gasPrice, kind))
  }

  function ReadEip2930(p: P.Transaction): Option<R.TxBody> {
    var chainId :- ReadU64(p.chainId);
    var gasPrice :- ReadU128(p.gasPrice);
    var kind :- ReadKind(p.to);
    var accessList :- ReadAll(ReadAccessItem, p.accessList);
    Some(R.Eip2930(chainId, gasPrice, kind, accessList))
  }

  function ReadEip1559(p: P.Transaction): Option<R.TxBody> {
    var chainId :- ReadU64(p.chainId);
    var maxFee :- ReadU128(p.maxFeePerGas);
    var maxPriorityFee :- ReadU128(p.maxPriorityFeePerGas);
    var kind :- ReadKind(p.to);
    var accessList :- ReadAll(ReadAccessItem, p.accessList);
    Some(R.Eip1559(chainId, maxFee, maxPriorityFee, kind, accessList))
  }

  function ReadEip4844(p: P.Transaction): Option<R.TxBody> {
    var chainId :- ReadU64(p.chainId);
    var maxFee :- ReadU128(p.maxFeePerGas);
    var maxPriorityFee :- ReadU128(p.maxPriorityFeePerGas);
    var to :- ReadAddress(p.to);
    var accessList :- ReadAll(ReadAccessItem, p.accessList);
    var blobHashes :- ReadAll(ReadB256, p.blobVersionedHashes);
    var maxBlobFee :- ReadU128(p.maxFeePerBlobGas);
    Some(R.Eip4844(chainId, maxFee, maxPriorityFee, to, accessList, blobHashes, maxBlobFee))
  }

  function ReadEip7702(p: P.Transaction): Option<R.TxBody> {
    var chainId :- ReadU64(p.chainId);
    var maxFee :- ReadU128(p.maxFeePerGas);
    var maxPriorityFee :- ReadU128(p.maxPriorityFeePerGas);
    var to :- ReadAddress(p.to);
    var accessList :- ReadAll(ReadAccessItem, p.accessList);
    var authorizations :- ReadAll(ReadAuth, p.authorizationList);
    Some(R.Eip7702(chainId, maxFee, maxPriorityFee, to, accessList, authorizations))
  }

  predicate NoFees(p: P.Transaction) {
    p.maxFeePerGas == [] && p.maxPriorityFeePerGas == []
  }

  predicate NoBlobs(p: P.Transaction) {
    p.blobVersionedHashes == [] && p.maxFeePerBlobGas == []
  }

  /** A message that sets a field of another transaction type is refused. */
  function ReadBody(p: P.Transaction): Option<R.TxBody> {
    match p.txType
    case 0 =>
      if NoFees(p) && p.accessList == [] && NoBlobs(p) && p.authorizationList == [] then ReadLegacy(p) else None
    case 1 =>
      if NoFees(p) && NoBlobs(p) && p.authorizationList == [] then ReadEip2930(p) else None
    case 2 =>
      if p.gasPrice == [] && NoBlobs(p) && p.authorizationList == [] then ReadEip1559(p) else None
    case 3 =>
      if p.gasPrice == [] && p.authorizationList == [] then ReadEip4844(p) else None
    case 4 =>
      if p.gasPrice == [] && NoBlobs(p) then ReadEip7702(p) else None
    case _ => None
  }

  function ReadTx(p: P.Transaction): Option<R.Transaction> {
    var hash :- ReadB256(p.hash);
    var sig :- p.signature;
    var signature :- ReadSignature(sig);
    var value :- ReadU256(p.value);
    var body :- ReadBody(p);
    Some(R.Transaction(hash, signature, p.nonce, p.gasLimit, value, p.input, body))
  }

  // ---- what survives

  /** An authorization with its parity byte reduced to zero or one. */
  function NormalAuth(a: R.SignedAuthorization): R.SignedAuthorization {
    a.(yParity := if a.yParity != 0 then 1 else 0)
  }

  function NormalTx(tx: R.Transaction): R.Transaction {
    match tx.body
    case Eip7702(chainId, maxFee, maxPriorityFee, to, accessList, authorizations) =>
      tx.(body := R.Eip7702(chainId, maxFee, maxPriorityFee, to, accessList, Map(NormalAuth, authorizations)))
    case _ => tx
  }

  lemma HashesRoundTrip(hs: seq<B256>)
    ensures ReadAll(ReadB256, Map(HashToBytes, hs)) == Some(hs)
  {
    ReadAllWritten(HashToBytes, ReadB256, Same<B256>, hs);
    MapSame(hs);
  }

  lemma AccessListRoundTrip(al: seq<R.AccessListItem>)
    ensures ReadAll(ReadAccessItem, Map(AccessItemToProto, al)) == Some(al)
  {
    forall item | item in al
      ensures ReadAccessItem(AccessItemToProto(item)) == Some(Same(item))
    {
      HashesRoundTrip(item.storageKeys);
    }
    ReadAllWritten(AccessItemToProto, ReadAccessItem, Same<R.AccessListItem>, al);
    MapSame(al);
  }

  lemma AuthorizationsRoundTrip(auths: seq<R.SignedAuthorization>)
    ensures ReadAll(ReadAuth, Map(AuthToProto, auths)) == Some(Map(NormalAuth, auths))
  {
    ReadAllWritten(AuthToProto, ReadAuth, NormalAuth, auths);
  }

  lemma KindRoundTrip(kind: R.TxKind)
    ensures ReadKind(KindToBytes(kind)) == Some(kind)
  {
  }

  lemma LegacyRoundTrip(tx: R.Transaction)
    requires tx.body.Legacy?
    ensures ReadBody(TxToProto(tx)) == Some(tx.body)
  {
    hide U64ToBytes, U128ToBytes, U256ToBytes, ReadU64, ReadU128, ReadU256, ReadAll, KindToBytes, ReadKind;
    hide ReadEip2930, ReadEip1559, ReadEip4844, ReadEip7702, ReadAccessItem, AccessItemToProto;
    KindRoundTrip(tx.body.kind);
    IntegersRoundTrip();
  }

  lemma AccessListTxRoundTrip(tx: R.Transaction)
    requires tx.body.Eip2930?
    ensures ReadBody(TxToProto(tx)) == Some(tx.body)
  {
    hide U64ToBytes, U128ToBytes, U256ToBytes, ReadU64, ReadU128, ReadU256, ReadAll, KindToBytes, ReadKind;
    hide ReadLegacy, ReadEip1559, ReadEip4844, ReadEip7702, ReadAccessItem, AccessItemToProto;
    KindRoundTrip(tx.body.kind);
    IntegersRoundTrip();
    AccessListRoundTrip(tx.body.accessList);
  }

  lemma FeeMarketRoundTrip(tx: R.Transaction)
    requires tx.body.Eip1559?
    ensures ReadBody(TxToProto(tx)) == Some(tx.body)
  {
    hide U64ToBytes, U128ToBytes, U256ToBytes, ReadU64, ReadU128, ReadU256, ReadAll, KindToBytes, ReadKind;
    hide ReadLegacy, ReadEip2930, ReadEip4844, ReadEip7702, ReadAccessItem, AccessItemToProto;
    KindRoundTrip(tx.body.kind);
    IntegersRoundTrip();
    AccessListRoundTrip(tx.body.accessList);
  }

  lemma BlobRoundTrip(tx: R.Transaction)
    requires tx.body.Eip4844?
    ensures ReadBody(TxToProto(tx)) == Some(tx.body)
  {
    hide U64ToBytes, U128ToBytes, U256ToBytes, ReadU64, ReadU128, ReadU256, ReadAll, ReadAuth, AuthToProto;
    hide ReadLegacy, ReadEip2930, ReadEip1559, ReadEip7702, ReadAccessItem, AccessItemToProto;
    IntegersRoundTrip();
    AccessListRoundTrip(tx.body.accessList);
    HashesRoundTrip(tx.body.blobVersionedHashes);
  }

  lemma SetCodeRoundTrip(tx: R.Transaction)
    requires tx.body.Eip7702?
    ensures ReadBody(TxToProto(tx)) == Some(NormalTx(tx).body)
  {
    hide U64ToBytes, U128ToBytes, U256ToBytes, ReadU64, ReadU128, ReadU256, ReadAll, ReadAuth, AuthToProto;
    hide ReadLegacy, ReadEip2930, ReadEip1559, ReadEip4844, ReadAccessItem, AccessItemToProto;
    IntegersRoundTrip();
    AccessListRoundTrip(tx.body.accessList);
    AuthorizationsRoundTrip(tx.body.authorizationList);
  }

  /** The reader recovers every transaction, up to the parity byte of its authorizations. */
  lemma TxRoundTrip(tx: R.Transaction)
    ensures ReadTx(TxToProto(tx)) == Some(NormalTx(tx))
  {
    hide U64ToBytes, U128ToBytes, U256ToBytes, ReadU64, ReadU128, ReadU256, ReadBody;
    IntegersRoundTrip();
    if tx.body.Legacy? { LegacyRoundTrip(tx); }
    if tx.body.Eip2930? { AccessListTxRoundTrip(tx); }
    if tx.body.Eip1559? { FeeMarketRoundTrip(tx); }
    if tx.body.Eip4844? { BlobRoundTrip(tx); }
    if tx.body.Eip7702? { SetCodeRoundTrip(tx); }
  }

  // ---- writing undoes reading

  lemma KindExact(b: Bytes)
    ensures ReadKind(b).Some? ==> KindToBytes(ReadKind(b).value) == b
  {
  }

  lemma SignatureExact(p: P.Signature)
    ensures ReadSignature(p).Some? ==> SignatureToProto(ReadSignature(p).value) == p
  {
    hide U256ToBytes, ReadU256;
    IntegersExact();
  }

  lemma HashesExact(hs: seq<Bytes>)
    ensures ReadAll(ReadB256, hs).Some? ==> Map(HashToBytes, ReadAll(ReadB256, hs).value) == hs
  {
    ReadAllExact(HashToBytes, ReadB256, hs);
  }

  lemma AccessListExact(ps: seq<P.AccessListItem>)
    ensures ReadAll(ReadAccessItem, ps).Some? ==> Map(AccessItemToProto, ReadAll(ReadAccessItem, ps).value) == ps
  {
    hide ReadAll;
    forall p
      ensures ReadAccessItem(p).Some? ==> AccessItemToProto(ReadAccessItem(p).value) == p
    {
      HashesExact(p.storageKeys);
    }
    ReadAllExact(AccessItemToProto, ReadAccessItem, ps);
  }

  lemma AuthorizationsExact(ps: seq<P.SignedAuthorization>)
    ensures ReadAll(ReadAuth, ps).Some? ==> Map(AuthToProto, ReadAll(ReadAuth, ps).value) == ps
  {
    hide U256ToBytes, ReadU256;
    IntegersExact();
    ReadAllExact(AuthToProto, ReadAuth, ps);
  }

  lemma NumbersExact(p: P.Transaction)
    ensures ReadU256(p.value).Some? ==> U256ToBytes(ReadU256(p.value).value) == p.value
    ensures ReadU64(p.chainId).Some? ==> U64ToBytes(ReadU64(p.chainId).value) == p.chainId
    ensures ReadU128(p.gasPrice).Some? ==> U128ToBytes(ReadU128(p.gasPrice).value) == p.gasPrice
    ensures ReadU128(p.maxFeePerGas).Some? ==> U128ToBytes(ReadU128(p.maxFeePerGas).value) == p.maxFeePerGas
    ensures ReadU128(p.maxPriorityFeePerGas).Some? ==>
              U128ToBytes(ReadU128(p.maxPriorityFeePerGas).value) == p.maxPriorityFeePerGas
    ensures ReadU128(p.maxFeePerBlobGas).Some? ==> U128ToBytes(ReadU128(p.maxFeePerBlobGas).value) == p.maxFeePerBlobGas
  {
    hide U64ToBytes, U128ToBytes, U256ToBytes, ReadU64, ReadU128, ReadU256;
    IntegersExact();
  }

  lemma CommonExact(p: P.Transaction)
    requires ReadTx(p).Some?
    ensures ReadBody(p) == Some(ReadTx(p).value.body)
    ensures CommonFields(p.txType, ReadTx(p).value, p.to) ==
            p.(chainId := [], gasPrice := [], maxFeePerGas := [], maxPriorityFeePerGas := [], accessList := [],
               blobVersionedHashes := [], maxFeePerBlobGas := [], authorizationList := [])
  {
    hide U256ToBytes, ReadU256, ReadBody, SignatureToProto, ReadSignature;
    NumbersExact(p);
    SignatureExact(p.signature.value);
  }

  lemma LegacyExact(p: P.Transaction)
    requires ReadTx(p).Some? && p.txType == 0
    ensures TxToProto(ReadTx(p).value) == p
  {
    hide U64ToBytes, U128ToBytes, U256ToBytes, ReadU64, ReadU128, ReadU256, ReadAll, ReadB256, KindToBytes, ReadKind;
    hide ReadEip2930, ReadEip1559, ReadEip4844, ReadEip7702, ReadTx, CommonFields;
    CommonExact(p);
    NumbersExact(p);
    KindExact(p.to);
  }

  lemma Eip2930Exact(p: P.Transaction)
    requires ReadTx(p).Some? && p.txType == 1
    ensures TxToProto(ReadTx(p).value) == p
  {
    hide U64ToBytes, U128ToBytes, U256ToBytes, ReadU64, ReadU128, ReadU256, ReadAll, ReadB256, KindToBytes, ReadKind;
    hide ReadLegacy, ReadEip1559, ReadEip4844, ReadEip7702, ReadTx, CommonFields;
    hide ReadAccessItem, AccessItemToProto;
    CommonExact(p);
    NumbersExact(p);
    KindExact(p.to);
    AccessListExact(p.accessList);
  }

  lemma Eip1559Exact(p: P.Transaction)
    requires ReadTx(p).Some? && p.txType == 2
    ensures TxToProto(ReadTx(p).value) == p
  {
    hide U64ToBytes, U128ToBytes, U256ToBytes, ReadU64, ReadU128, ReadU256, ReadAll, ReadB256, KindToBytes, ReadKind;
    hide ReadLegacy, ReadEip2930, ReadEip4844, ReadEip7702, ReadTx, CommonFields;
    hide ReadAccessItem, AccessItemToProto;
    CommonExact(p);
    NumbersExact(p);
    KindExact(p.to);
    AccessListExact(p.accessList);
  }

  lemma Eip4844Exact(p: P.Transaction)
    requires ReadTx(p).Some? && p.txType == 3
    ensures TxToProto(ReadTx(p).value) == p
  {
    hide U64ToBytes, U128ToBytes, U256ToBytes, ReadU64, ReadU128, ReadU256, ReadAll, ReadB256;
    hide ReadLegacy, ReadEip2930, ReadEip1559, ReadEip7702, ReadTx, CommonFields;
    hide ReadAccessItem, AccessItemToProto;
    CommonExact(p);
    NumbersExact(p);
    AccessListExact(p.accessList);
    HashesExact(p.blobVersionedHashes);
  }

  lemma Eip7702Exact(p: P.Transaction)
    requires ReadTx(p).Some? && p.txType == 4
    ensures TxToProto(ReadTx(p).value) == p
  {
    hide U64ToBytes, U128ToBytes, U256ToBytes, ReadU64, ReadU128, ReadU256, ReadAll, ReadB256;
    hide ReadLegacy, ReadEip2930, ReadEip1559, ReadEip4844, ReadTx, CommonFields;
    hide ReadAccessItem, AccessItemToProto, ReadAuth, AuthToProto;
    CommonExact(p);
    NumbersExact(p);
    AccessListExact(p.accessList);
    AuthorizationsExact(p.authorizationList);
  }

  /** The reader accepts only messages that the conversion makes: of what it returns, it makes that very message. */
  lemma TxExact(p: P.Transaction)
    ensures ReadTx(p).Some? ==> TxToProto(ReadTx(p).value) == p
  {
    if ReadTx(p).Some? {
      hide TxToProto, ReadLegacy, ReadEip2930, ReadEip1559, ReadEip4844, ReadEip7702;
      match p.txType
      case 0 => LegacyExact(p);
      case 1 => Eip2930Exact(p);
      case 2 => Eip1559Exact(p);
      case 3 => Eip4844Exact(p);
      case 4 => Eip7702Exact(p);
      case _ =>
    }
  }

  /** Two transactions share a message exactly when they are equal up to the parity bytes. */
  lemma TxCollapse(a: R.Transaction, b: R.Transaction)
    ensures TxToProto(a) == TxToProto(b) <==> NormalTx(a) == NormalTx(b)
  {
    hide TxToProto, ReadTx, NormalTx;
    TxRoundTrip(a);
    TxRoundTrip(b);
    TxExact(TxToProto(a));
    TxExact(TxToProto(b));
  }

  /** The type on the wire is the one that the type's own standard gives it. */
  lemma TypeNumbers(tx: R.Transaction)
    ensures TxToProto(tx).txType ==
            match tx.body {
              case Legacy(_, _, _) => 0
              case Eip2930(_, _, _, _) => 1
              case Eip1559(_, _, _, _, _) => 2
              case Eip4844(_, _, _, _, _, _, _) => 3
              case Eip7702(_, _, _, _, _, _) => 4
            }
  {
  }

  lemma NormalAuths(auths: seq<R.SignedAuthorization>)
    ensures Map(NormalAuth, auths) == auths <==> forall a :: a in auths ==> a.yParity <= 1
  {
    if a :| a in auths && a.yParity > 1 {
      var i :| 0 <= i < |auths| && auths[i] == a;
      assert Map(NormalAuth, auths)[i] != auths[i];
    } else {
      forall i | 0 <= i < |auths|
        ensures NormalAuth(auths[i]) == auths[i]
      {
        assert auths[i] in auths;
      }
    }
  }

  /** A transaction comes back unchanged exactly when every authorization has parity 0 or 1. */
  lemma TxRecoveredIff(tx: R.Transaction)
    ensures ReadTx(TxToProto(tx)) == Some(tx) <==>
              (tx.body.Eip7702? ==> forall a :: a in tx.body.authorizationList ==> a.yParity <= 1)
  {
    hide ReadTx, TxToProto;
    TxRoundTrip(tx);
    if tx.body.Eip7702? {
      NormalAuths(tx.body.authorizationList);
    }
  }
}
