/** When a node that follows the contract signs: each of its three signatures, exactly, in terms of what the contract
    has recorded and of the outputs of the transaction. */
module SigningConditions {
  import opened Base
  import opened TransferIds
  import opened Bitcoin
  import opened AccessControl
  import opened BridgeState
  import opened BridgeInvariants
  import opened NodeDatabase
  import opened NodeAgreement
  import opened Payout
  import opened TransferBatches
  import opened Validator
  import opened BatchService
  import opened RskSignatures
  import opened NodeIteration
  import opened SignedPayouts

  /** What the node asks about is a later state than the one it has scanned, and an earlier one of the same chain. */
  ghost predicate Sees(view: ChainView, s: State) {
    Evolves(s, view.latest) && (view.earlier.Some? ==> Evolves(view.earlier.value, view.latest))
  }

  /** The transfer was in the contract some blocks ago already, and is there now, with that status if one is asked for. */
  predicate Confirmed(view: ChainView, id: TransferId, expected: Option<Status>) {
    && view.earlier.Some? && id in view.earlier.value.transfers
    && (expected.Some? ==> HasStatus(view.latest, id, expected.value))
  }

  lemma ConfirmedExactly(db: Database, s: State, id: TransferId, expected: Option<Status>, view: ChainView, valid: BtcAddress -> bool)
    requires Reachable(s) && Follows(db, s, valid) && Sees(view, s) && id in db.transfers
    ensures TransferConfirmed(view, db.transfers[id], expected) <==> Confirmed(view, id, expected)
  {
    hide Reachable, Follows, Evolves;
    FollowsMatches(db, s, id, valid);
    ReachableInv(s);
    EvolvesTransfer(s, view.latest, id);
    if view.earlier.Some? && id in view.earlier.value.transfers {
      EvolvesTransfer(view.earlier.value, view.latest, id);
    }
  }

  /** The rows of the node have one and the same status, one of those given. */
  predicate AllShow(db: Database, ids: seq<TransferId>, statuses: set<Status>)
    requires forall id :: id in ids ==> id in db.transfers
  {
    && (forall id :: id in ids ==> db.transfers[id].status in statuses)
    && (forall a, b :: a in ids && b in ids ==> db.transfers[a].status == db.transfers[b].status)
  }

  /** The signatures on the two updates, if there are any, are by distinct federators and on exactly these updates. */
  predicate UpdatesSigned(b: TransferBatch, ids: seq<TransferId>, federators: set<Address>) {
    && (b.rskSendingSignatures != [] ==>
          && b.bitcoinTransactionHash.Some?
          && SignaturesValid(federators, BatchUpdateWithTxHash(Sending, b.bitcoinTransactionHash.value, ids),
                             b.rskSendingSignatures, b.rskSendingSigners))
    && (b.rskMinedSignatures != [] ==>
          SignaturesValid(federators, BatchUpdate(Mined, ids), b.rskMinedSignatures, b.rskMinedSigners))
  }

  /** The transaction has the hash of the batch and is a payout of its transfers. */
  ghost predicate PaysOut(b: TransferBatch, psbt: Psbt, changeAddress: BtcAddress) {
    b.bitcoinTransactionHash == Some(HashOf(psbt.tx)) && exists paid :: IsPayoutOf(psbt, paid, b.transfers, changeAddress)
  }

  /** What a node checks before any of its signatures. */
  ghost predicate Checks(db: Database, ids: seq<TransferId>, b: TransferBatch, expected: Option<Status>, view: ChainView, changeAddress: BtcAddress)
    requires forall id :: id in ids ==> id in db.transfers
  {
    && NoDuplicates(ids)
    && AllShow(db, ids, {New, Sending, Mined})
    && (forall id :: id in ids ==> Confirmed(view, id, expected))
    && UpdatesSigned(b, ids, view.latest.config.federators)
    && PaysOut(b, b.initialBtcTransaction, changeAddress)
    && (b.signedBtcTransaction.Some? ==> PaysOut(b, b.signedBtcTransaction.value, changeAddress))
  }

  lemma LoadedMembers(db: Database, ids: seq<TransferId>)
    requires forall id :: id in ids ==> id in db.transfers
    ensures forall t :: t in LoadTransfers(db, ids) <==> t.transferId in ids && t == LoadedTransfer(t.transferId, db.transfers[t.transferId])
  {
    var transfers := LoadTransfers(db, ids);
    forall t: LoadedTransfer | t.transferId in ids && t == LoadedTransfer(t.transferId, db.transfers[t.transferId]) ensures t in transfers {
      var i :| 0 <= i < |ids| && ids[i] == t.transferId;
      assert transfers[i] == t;
    }
  }

  /** For a node that follows the contract, validation is exactly this, whatever the message holds and whatever statuses
      the node has written itself. */
  lemma BatchValidExactly(db: Database, s: State, ids: seq<TransferId>, b: TransferBatch, expected: Option<Status>, requireSigned: bool,
                          view: ChainView, changeAddress: BtcAddress, valid: BtcAddress -> bool)
    requires Reachable(s) && Follows(db, s, valid) && Sees(view, s)
    requires (forall id :: id in ids ==> id in db.transfers) && b.transfers == LoadTransfers(db, ids)
    ensures BatchValid(b, expected, requireSigned, view, changeAddress) <==>
      Checks(db, ids, b, expected, view, changeAddress) && (requireSigned ==> b.signedBtcTransaction.Some?)
  {
    hide Reachable, Follows, Sees, TransferConfirmed, Confirmed, SignaturesValid, PsbtValid, IsPayoutOf;
    LoadedMembers(db, ids);
    forall id | id in ids ensures TransferConfirmed(view, db.transfers[id], expected) <==> Confirmed(view, id, expected) {
      ConfirmedExactly(db, s, id, expected, view, valid);
    }
    if NoDuplicates(ids) {
      PsbtExactly(b.transfers, b.bitcoinTransactionHash, b.initialBtcTransaction, changeAddress);
      if b.signedBtcTransaction.Some? {
        PsbtExactly(b.transfers, b.bitcoinTransactionHash, b.signedBtcTransaction.value, changeAddress);
      }
    }
  }

  // ---- The commitment ----

  /** The transfers are those of a batch committed under the hash. */
  ghost predicate CommittedAs(s: State, ids: seq<TransferId>, hash: Option<BtcHash>) {
    exists c :: 0 <= c < |s.history.batches| && hash == Some(s.history.batches[c].bitcoinTxHash)
                && Elements(ids) == Elements(s.history.batches[c].ids)
  }

  lemma RowsOfBatch(db: Database, s: State, ids: seq<TransferId>, c: nat, valid: BtcAddress -> bool)
    requires Reachable(s) && Follows(db, s, valid) && c < |s.history.batches| && NoDuplicates(ids)
    requires Elements(ids) == Elements(s.history.batches[c].ids) && forall id :: id in ids ==> id in db.transfers
    ensures |ids| == |s.history.batches[c].ids|
    ensures forall id :: id in ids ==> db.transfers[id].btcTransactionHash == Some(s.history.batches[c].bitcoinTxHash)
  {
    hide Follows;
    ReachableInv(s);
    DistinctCount(ids);
    DistinctCount(s.history.batches[c].ids);
    forall id | id in ids ensures db.transfers[id].btcTransactionHash == Some(s.history.batches[c].bitcoinTxHash) {
      FollowsMatches(db, s, id, valid);
      assert id in Elements(ids);
      assert id in s.history.batches[c].ids;
    }
  }

  lemma CommitmentFound(db: Database, s: State, hash: BtcHash, c: nat, valid: BtcAddress -> bool)
    requires Reachable(s) && Follows(db, s, valid) && c < |s.history.batches| && s.history.batches[c].bitcoinTxHash == hash
    ensures var r := CommitmentOf(db.commitments, hash);
      r.Some? && r.value.btcTransactionHash == hash && r.value.transferBatchSize == |s.history.batches[c].ids|
  {
    hide Reachable, Follows;
    FollowsCommitments(db, s, valid);
    assert db.commitments[c].btcTransactionHash == hash;
    var r := CommitmentOf(db.commitments, hash).value;
    var j :| 0 <= j < |db.commitments| && db.commitments[j] == r;
    assert s.history.batches[j].bitcoinTxHash == hash;
  }

  /** The commitment check of a loaded batch without repetitions accepts exactly what was committed. */
  lemma CommitmentExactly(db: Database, s: State, dto: BatchDto, valid: BtcAddress -> bool)
    requires Reachable(s) && Follows(db, s, valid) && LoadFromDto(db, dto).Some? && NoDuplicates(dto.transferIds)
    ensures CommitmentValid(LoadFromDto(db, dto).value) <==> CommittedAs(s, dto.transferIds, dto.bitcoinTransactionHash)
  {
    hide Reachable, Follows;
    var b, ids := LoadFromDto(db, dto).value, dto.transferIds;
    if CommitmentValid(b) {
      var c := ExactCommitment(db, s, dto, valid);
    }
    if CommittedAs(s, ids, dto.bitcoinTransactionHash) {
      var c :| 0 <= c < |s.history.batches| && dto.bitcoinTransactionHash == Some(s.history.batches[c].bitcoinTxHash)
               && Elements(ids) == Elements(s.history.batches[c].ids);
      RowsOfBatch(db, s, ids, c, valid);
      CommitmentFound(db, s, dto.bitcoinTransactionHash.value, c, valid);
      LoadedMembers(db, ids);
    }
  }

  // ---- The three signatures ----

  /** A node signs the Bitcoin transaction of a batch exactly if the batch was committed in the contract under the hash of
      the transaction, the transaction is a payout of its transfers, each of them is SENDING in the contract, and the
      node has them all as SENDING or all as MINED. */
  lemma SigningExactly(db: Database, s: State, dto: BatchDto, view: ChainView, changeAddress: BtcAddress, valid: BtcAddress -> bool)
    requires Reachable(s) && Follows(db, s, valid) && Sees(view, s) && LoadFromDto(db, dto).Some?
    ensures SigningValid(LoadFromDto(db, dto).value, view, changeAddress) <==>
      && dto.transferIds != []
      && AllShow(db, dto.transferIds, {Sending, Mined})
      && Checks(db, dto.transferIds, LoadFromDto(db, dto).value, Some(Sending), view, changeAddress)
      && CommittedAs(s, dto.transferIds, dto.bitcoinTransactionHash)
  {
    hide Reachable, Follows, Sees, BatchValid, CommitmentValid, CommittedAs, Confirmed, UpdatesSigned, PaysOut;
    var b, ids := LoadFromDto(db, dto).value, dto.transferIds;
    BatchValidExactly(db, s, ids, b, Some(Sending), false, view, changeAddress, valid);
    LoadedMembers(db, ids);
    if NoDuplicates(ids) {
      CommitmentExactly(db, s, dto, valid);
    }
  }

  /** One signature short of a complete SENDING update, the node completes it exactly if every transfer is NEW in the
      contract, and the rest is in order. */
  lemma SendingExactly(db: Database, s: State, ids: seq<TransferId>, b: TransferBatch, offers: seq<Offer>, me: Settings,
                       view: ChainView, valid: BtcAddress -> bool)
    requires Reachable(s) && Follows(db, s, valid) && Sees(view, s)
    requires (forall id :: id in ids ==> id in db.transfers) && b.transfers == LoadTransfers(db, ids)
    requires |offers| > 0 && !IsMarkedAsSendingInRsk(b) && b.bitcoinTransactionHash.Some?
    requires |TakeAll(SendingList(b), SendingMessage(b), offers, me.numRequiredSigners).signers| == me.numRequiredSigners - 1
    ensures var gathered := TakeAll(SendingList(b), SendingMessage(b), offers, me.numRequiredSigners);
      WithSending(b, offers, me, view).Some? <==> Checks(db, ids, SetSending(b, gathered), Some(New), view, me.changeAddress)
  {
    hide Reachable, Follows, Sees, BatchValid, Checks, TakeAll;
    var gathered := TakeAll(SendingList(b), SendingMessage(b), offers, me.numRequiredSigners);
    BatchValidExactly(db, s, ids, SetSending(b, gathered), Some(New), false, view, me.changeAddress, valid);
  }

  /** One signature short of a complete MINED update: exactly if the transaction is known to Bitcoin and every transfer is
      SENDING in the contract. */
  lemma MinedExactly(db: Database, s: State, ids: seq<TransferId>, b: TransferBatch, offers: seq<Offer>, me: Settings,
                     view: ChainView, sentToBitcoin: bool, valid: BtcAddress -> bool)
    requires Reachable(s) && Follows(db, s, valid) && Sees(view, s)
    requires (forall id :: id in ids ==> id in db.transfers) && b.transfers == LoadTransfers(db, ids)
    requires |offers| > 0 && !IsMarkedAsMinedInRsk(b)
    requires |TakeAll(MinedList(b), MinedMessage(b), offers, me.numRequiredSigners).signers| == me.numRequiredSigners - 1
    ensures var gathered := TakeAll(MinedList(b), MinedMessage(b), offers, me.numRequiredSigners);
      WithMined(b, offers, me, view, sentToBitcoin).Some? <==>
        sentToBitcoin && Checks(db, ids, SetMined(b, gathered), Some(Sending), view, me.changeAddress)
  {
    hide Reachable, Follows, Sees, BatchValid, Checks, TakeAll;
    var gathered := TakeAll(MinedList(b), MinedMessage(b), offers, me.numRequiredSigners);
    BatchValidExactly(db, s, ids, SetMined(b, gathered), Some(Sending), false, view, me.changeAddress, valid);
  }

  // ---- A batch as an initiator builds it ----

  /** createTransferBatch pays each transfer its amount without the fee. */
  function PayoutOf(transfers: seq<LoadedTransfer>): (pays: seq<BtcTransfer>)
    ensures |pays| == |transfers| && Keys(pays) == BatchKeys(transfers)
    ensures forall i :: 0 <= i < |pays| ==> pays[i].amountSatoshi + transfers[i].row.feeSatoshi == transfers[i].row.TotalAmountSatoshi()
  {
    seq(|transfers|, i requires 0 <= i < |transfers| =>
      BtcTransfer(transfers[i].row.btcAddress, transfers[i].row.amountSatoshi, transfers[i].row.nonce))
  }

  /** Different transfers of the contract have different addresses or nonces, and nonces stay below 255, so any of them can
      be paid by one transaction and read back. */
  lemma KeysArePayable(db: Database, s: State, ids: seq<TransferId>, pays: seq<BtcTransfer>, valid: BtcAddress -> bool)
    requires Reachable(s) && Follows(db, s, valid) && ids != [] && NoDuplicates(ids)
    requires (forall id :: id in ids ==> id in db.transfers) && Keys(pays) == BatchKeys(LoadTransfers(db, ids))
    ensures Payable(pays)
  {
    hide Follows;
    ReachableInv(s);
    var keys := BatchKeys(LoadTransfers(db, ids));
    forall i | 0 <= i < |ids| ensures keys[i].1 < 255 && ids[i] == GetTransferId(keys[i].0, keys[i].1) {
      FollowsMatches(db, s, ids[i], valid);
    }
    forall i, j | 0 <= i < j < |ids| ensures keys[i] != keys[j] {
      assert ids[i] != ids[j];
    }
    assert forall i :: 0 <= i < |pays| ==> KeyOf(pays[i]) == keys[i];
  }

  /** A payout of its rows as an initiator builds it, with any inputs and change, and whatever amounts, is signed by every
      node that follows the contract, once it is committed and SENDING there, and the node has seen that. */
  lemma BuiltBatchIsSigned(db: Database, s: State, ids: seq<TransferId>, payment: Psbt, inputs: seq<OutPoint>, pays: seq<BtcTransfer>,
                           change: int, required: nat, view: ChainView, changeAddress: BtcAddress, valid: BtcAddress -> bool)
    requires Reachable(s) && Follows(db, s, valid) && Sees(view, s)
    requires ids != [] && NoDuplicates(ids) && forall id :: id in ids ==> id in db.transfers
    requires AllShow(db, ids, {Sending, Mined}) && forall id :: id in ids ==> Confirmed(view, id, Some(Sending))
    requires Keys(pays) == BatchKeys(LoadTransfers(db, ids))
    requires payment == Payment(inputs, pays, changeAddress, change, required) && CommittedAs(s, ids, Some(HashOf(payment.tx)))
    ensures var dto := DtoOf(FreshBatch(LoadTransfers(db, ids), payment));
      LoadFromDto(db, dto).Some? && SigningValid(LoadFromDto(db, dto).value, view, changeAddress)
  {
    hide Reachable, Follows, Sees, SigningValid, Confirmed, CommittedAs;
    var transfers := LoadTransfers(db, ids);
    var dto := DtoOf(FreshBatch(transfers, payment));
    KeysArePayable(db, s, ids, pays, valid);
    assert dto.transferIds == ids;
    var b := LoadFromDto(db, dto).value;
    assert IsPayoutOf(payment, pays, b.transfers, changeAddress) by {
      assert payment.tx.outputs == Outputs(pays, changeAddress, change);
    }
    assert b.bitcoinTransactionHash == Some(HashOf(payment.tx));
    assert PaysOut(b, payment, changeAddress);
    assert AllShow(db, ids, {New, Sending, Mined});
    assert UpdatesSigned(b, ids, view.latest.config.federators);
    assert b.initialBtcTransaction == payment && b.signedBtcTransaction.None?;
    assert Checks(db, ids, b, Some(Sending), view, changeAddress);
    SigningExactly(db, s, dto, view, changeAddress, valid);
  }
}
