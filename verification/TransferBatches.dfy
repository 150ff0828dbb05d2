/** core/transfers.ts: a batch of transfers as a node holds it, and loading one from a message. */
module TransferBatches {
  import opened Base
  import opened TransferIds
  import opened Bitcoin
  import opened AccessControl
  import opened BridgeState
  import opened NodeDatabase
  import opened Payout

  /** An address as text: the same account can be spelt in different letter cases.  The chain and the
      recovery function use the checksummed spelling, number 0. */
  datatype AddressText = AddressText(account: Address, spelling: nat)

  function ToLowerCase(a: AddressText): Address { a.account }

  function Checksummed(a: Address): AddressText { AddressText(a, 0) }

  type UpdateSignature = Signature<UpdateMessage>

  datatype LoadedTransfer = LoadedTransfer(transferId: TransferId, row: TransferRow)

  datatype TransferBatch = TransferBatch(
    transfers: seq<LoadedTransfer>,
    rskSendingSignatures: seq<UpdateSignature>,
    rskSendingSigners: seq<AddressText>,
    bitcoinTransactionHash: Option<BtcHash>,
    initialBtcTransaction: Psbt,
    signedBtcTransaction: Option<Psbt>,
    rskMinedSignatures: seq<UpdateSignature>,
    rskMinedSigners: seq<AddressText>,
    commitment: Option<CommitmentRow>)

  /** The part of a message that describes a batch. */
  datatype BatchDto = BatchDto(
    transferIds: seq<TransferId>,
    rskSendingSignatures: seq<UpdateSignature>,
    rskSendingSigners: seq<AddressText>,
    bitcoinTransactionHash: Option<BtcHash>,
    initialBtcTransaction: Psbt,
    signedBtcTransaction: Option<Psbt>,
    rskMinedSignatures: seq<UpdateSignature>,
    rskMinedSigners: seq<AddressText>)

  function TransferIdsOf(transfers: seq<LoadedTransfer>): (ids: seq<TransferId>)
    ensures |ids| == |transfers|
    ensures forall i :: 0 <= i < |ids| ==> ids[i] == transfers[i].transferId
  {
    seq(|transfers|, i requires 0 <= i < |transfers| => transfers[i].transferId)
  }

  function KeyOfRow(row: TransferRow): Key { (row.btcAddress, row.nonce) }

  function BatchKeys(transfers: seq<LoadedTransfer>): (keys: seq<Key>)
    ensures |keys| == |transfers|
    ensures forall i :: 0 <= i < |keys| ==> keys[i] == KeyOfRow(transfers[i].row)
  {
    seq(|transfers|, i requires 0 <= i < |transfers| => KeyOfRow(transfers[i].row))
  }

  /** The commitment row of a hash; hashes are unique in the table. */
  function CommitmentOf(commitments: seq<CommitmentRow>, hash: BtcHash): (r: Option<CommitmentRow>)
    ensures r.Some? ==> r.value in commitments && r.value.btcTransactionHash == hash
    ensures r.None? ==> !HasCommitment(commitments, hash)
  {
    if |commitments| == 0 then None
    else if commitments[0].btcTransactionHash == hash then Some(commitments[0])
    else
      var r := CommitmentOf(commitments[1..], hash);
      assert commitments == [commitments[0]] + commitments[1..];
      r
  }

  function LoadTransfers(db: Database, ids: seq<TransferId>): (transfers: seq<LoadedTransfer>)
    requires forall id :: id in ids ==> id in db.transfers
    ensures TransferIdsOf(transfers) == ids
    ensures forall i :: 0 <= i < |transfers| ==> transfers[i].row == db.transfers[ids[i]]
  {
    seq(|ids|, i requires 0 <= i < |ids| => LoadedTransfer(ids[i], db.transfers[ids[i]]))
  }

  /** loadFromDto: None when some transfer is not in the node's database. */
  function LoadFromDto(db: Database, dto: BatchDto): (r: Option<TransferBatch>) {
    if exists i :: 0 <= i < |dto.transferIds| && dto.transferIds[i] !in db.transfers then None
    else
      Some(TransferBatch(
        LoadTransfers(db, dto.transferIds), dto.rskSendingSignatures, dto.rskSendingSigners,
        dto.bitcoinTransactionHash, dto.initialBtcTransaction, dto.signedBtcTransaction,
        dto.rskMinedSignatures, dto.rskMinedSigners,
        if dto.bitcoinTransactionHash.None? then None
        else CommitmentOf(db.commitments, dto.bitcoinTransactionHash.value)))
  }

  /** getDto. */
  function DtoOf(b: TransferBatch): (dto: BatchDto) {
    BatchDto(TransferIdsOf(b.transfers), b.rskSendingSignatures, b.rskSendingSigners, b.bitcoinTransactionHash,
             b.initialBtcTransaction, b.signedBtcTransaction, b.rskMinedSignatures, b.rskMinedSigners)
  }

  /** A message that can be loaded is what the loaded batch sends on, and loading that again gives the same batch. */
  lemma LoadRoundTrip(db: Database, dto: BatchDto)
    requires LoadFromDto(db, dto).Some?
    ensures var b := LoadFromDto(db, dto).value; DtoOf(b) == dto && LoadFromDto(db, DtoOf(b)) == Some(b)
    ensures forall t :: t in LoadFromDto(db, dto).value.transfers ==>
      t.transferId in db.transfers && t.row == db.transfers[t.transferId]
  {
    var transfers := LoadTransfers(db, dto.transferIds);
    assert forall i :: 0 <= i < |transfers| ==> TransferIdsOf(transfers)[i] == transfers[i].transferId;
  }

  predicate IsMarkedAsSendingInRsk(b: TransferBatch) {
    forall t :: t in b.transfers ==> t.row.status == Sending || t.row.status == Mined
  }

  predicate IsMarkedAsMinedInRsk(b: TransferBatch) {
    forall t :: t in b.transfers ==> t.row.status == Mined
  }

  /** All transfers have one and the same status, and it is New, Sending or Mined. */
  predicate ValidTransferState(transfers: seq<LoadedTransfer>) {
    && (forall t :: t in transfers ==> t.row.status == New || t.row.status == Sending || t.row.status == Mined)
    && (forall t, u :: t in transfers && u in transfers ==> t.row.status == u.row.status)
  }

  method HasValidTransferState(transfers: seq<LoadedTransfer>) returns (valid: bool)
    ensures valid <==> ValidTransferState(transfers)
  {
    if |transfers| == 0 { return true; }
    var seenStatuses: set<Status> := {};
    var i := 0;
    while i < |transfers|
      invariant 0 <= i <= |transfers|
      invariant forall k :: 0 <= k < i ==> transfers[k].row.status in {New, Sending, Mined}
      invariant forall k :: 0 <= k < i ==> transfers[k].row.status in seenStatuses
      invariant forall st :: st in seenStatuses ==> exists k :: 0 <= k < i && transfers[k].row.status == st
      invariant |seenStatuses| <= i
      invariant i > 0 ==> |seenStatuses| > 0
    {
      if transfers[i].row.status !in {New, Sending, Mined} {
        assert transfers[i] in transfers;
        return false;
      }
      seenStatuses := seenStatuses + {transfers[i].row.status};
      i := i + 1;
    }
    valid := |seenStatuses| == 1;
    var first := transfers[0].row.status;
    if valid { OnlyElement(seenStatuses, first); }
    if seenStatuses != {first} {
      var st :| st in seenStatuses && st != first;
      var k :| 0 <= k < |transfers| && transfers[k].row.status == st;
      assert transfers[k] in transfers && transfers[0] in transfers;
    }
  }

  lemma OnlyElement<T>(s: set<T>, x: T)
    requires |s| == 1 && x in s
    ensures s == {x}
  {
    assert s == {x} + (s - {x});
    assert |s| == |{x}| + |s - {x}|;
  }
}
