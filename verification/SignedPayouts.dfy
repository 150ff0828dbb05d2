/** What a node's signature establishes: the transaction pays exactly one batch committed in the contract. */
module SignedPayouts {
  import opened Base
  import opened TransferIds
  import opened Bitcoin
  import opened BridgeState
  import opened BridgeInvariants
  import opened NodeDatabase
  import opened ScannerRefinement
  import opened NodeAgreement
  import opened Payout
  import opened TransferBatches
  import opened Validator

  function KeyOfTransfer(t: BitcoinTransfer): Key { (t.btcAddress, t.nonce) }

  ghost predicate InBatch(s: State, b: nat, key: Key)
    requires b < |s.history.batches|
  {
    exists id :: id in s.history.batches[b].ids && id in s.transfers && KeyOfTransfer(s.transfers[id]) == key
  }

  /** The transaction is the one committed for batch `b`, and it pays exactly the transfers of that batch, each
      by one output. */
  ghost predicate PaysBatch(s: State, b: nat, tx: UnsignedTx) {
    && b < |s.history.batches|
    && s.history.batches[b].bitcoinTxHash == HashOf(tx)
    && PaysOnce(tx)
    && forall key :: Pays(tx, key) <==> InBatch(s, b, key)
  }

  ghost predicate PaysSomeBatch(s: State, tx: UnsignedTx) {
    exists b: nat :: PaysBatch(s, b, tx)
  }

  lemma PaysBatchStays(s: State, t: State, b: nat, tx: UnsignedTx)
    requires Inv(s) && Evolves(s, t) && PaysBatch(s, b, tx)
    ensures PaysBatch(t, b, tx)
  {
    var ids := s.history.batches[b].ids;
    assert t.history.batches[b] == s.history.batches[b];
    forall id | id in ids ensures id in s.transfers && id in t.transfers && KeyOfTransfer(t.transfers[id]) == KeyOfTransfer(s.transfers[id]) {
      assert id in s.history.committedIn;
      EvolvesTransfer(s, t, id);
    }
    forall key ensures Pays(tx, key) <==> InBatch(t, b, key) {
      assert InBatch(t, b, key) <==> InBatch(s, b, key);
    }
  }

  /** A batch that passes the commitment check holds exactly the transfers committed under its hash:
      none is missing and none is extra. */
  lemma ExactCommitment(db: Database, s: State, dto: BatchDto, valid: BtcAddress -> bool) returns (b: nat)
    requires Reachable(s) && Follows(db, s, valid)
    requires LoadFromDto(db, dto).Some?
    requires CommitmentValid(LoadFromDto(db, dto).value) && NoDuplicates(dto.transferIds)
    ensures b < |s.history.batches|
    ensures dto.bitcoinTransactionHash == Some(s.history.batches[b].bitcoinTxHash)
    ensures Elements(dto.transferIds) == Elements(s.history.batches[b].ids)
    ensures |dto.transferIds| == |s.history.batches[b].ids|
  {
    var batch := LoadFromDto(db, dto).value;
    var hash := dto.bitcoinTransactionHash.value;
    FollowsCommitments(db, s, valid);
    b :| 0 <= b < |db.commitments| && db.commitments[b] == batch.commitment.value;
    var ids := s.history.batches[b].ids;
    forall id | id in dto.transferIds ensures id in ids {
      var i :| 0 <= i < |dto.transferIds| && dto.transferIds[i] == id;
      assert batch.transfers[i] in batch.transfers && batch.transfers[i].row == db.transfers[id];
      FollowsMatches(db, s, id, valid);
      CommittedMember(s, id, hash, b);
    }
    ReachableInv(s);
    DistinctCount(ids);
    DistinctListCovers(dto.transferIds, Elements(ids));
  }

  lemma CommittedMember(s: State, id: TransferId, hash: BtcHash, b: nat)
    requires Reachable(s) && Replayable(s.history.batches)
    requires CommittedHash(s, id) == Some(hash)
    requires b < |s.history.batches| && s.history.batches[b].bitcoinTxHash == hash
    ensures id in s.history.batches[b].ids
  {
    ReachableInv(s);
    var batches, c := s.history.batches, s.history.committedIn[id];
    assert batches[c].bitcoinTxHash == batches[b].bitcoinTxHash;
  }

  /** A node that follows the contract up to some state and signs after validation signs a transaction
      that pays exactly one committed batch. */
  lemma SigningEstablishes(db: Database, s: State, dto: BatchDto, view: ChainView, changeAddress: BtcAddress, valid: BtcAddress -> bool)
    requires Reachable(s) && Follows(db, s, valid)
    requires LoadFromDto(db, dto).Some? && SigningValid(LoadFromDto(db, dto).value, view, changeAddress)
    ensures PaysSomeBatch(s, dto.initialBtcTransaction.tx)
  {
    var batch := LoadFromDto(db, dto).value;
    var tx := dto.initialBtcTransaction.tx;
    assert TransferIdsOf(batch.transfers) == dto.transferIds;
    PsbtBijection(batch.transfers, dto.bitcoinTransactionHash, dto.initialBtcTransaction, changeAddress);
    ReadIsPaid(dto.initialBtcTransaction, changeAddress);
    var b := ExactCommitment(db, s, dto, valid);
    KeysOfLoaded(db, s, dto, b, valid);
    assert forall key :: Pays(tx, key) <==> InBatch(s, b, key);
    assert PaysBatch(s, b, tx);
  }

  lemma KeysOfLoaded(db: Database, s: State, dto: BatchDto, b: nat, valid: BtcAddress -> bool)
    requires Reachable(s) && Follows(db, s, valid) && LoadFromDto(db, dto).Some?
    requires b < |s.history.batches| && Elements(dto.transferIds) == Elements(s.history.batches[b].ids)
    ensures forall key :: key in BatchKeys(LoadFromDto(db, dto).value.transfers) <==> InBatch(s, b, key)
  {
    var transfers := LoadFromDto(db, dto).value.transfers;
    var keys, ids := BatchKeys(transfers), dto.transferIds;
    forall i | 0 <= i < |ids|
      ensures ids[i] in s.history.batches[b].ids && ids[i] in s.transfers && KeyOfTransfer(s.transfers[ids[i]]) == keys[i]
    {
      assert ids[i] in Elements(ids);
      assert transfers[i].row == db.transfers[ids[i]];
      FollowsMatches(db, s, ids[i], valid);
    }
    forall key ensures key in keys <==> InBatch(s, b, key) {
      if InBatch(s, b, key) {
        var id :| id in s.history.batches[b].ids && id in s.transfers && KeyOfTransfer(s.transfers[id]) == key;
        assert id in Elements(ids);
        var i :| 0 <= i < |ids| && ids[i] == id;
        assert keys[i] == key;
      }
    }
  }
}
