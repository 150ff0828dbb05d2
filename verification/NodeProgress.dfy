/** core/node.ts: the stages a batch goes through, and why it does not fall back. */
module NodeProgress {
  import opened TransferIds
  import opened Bitcoin
  import opened BridgeState
  import opened BridgeInvariants
  import opened NodeDatabase
  import opened ScannerRefinement
  import opened NodeAgreement
  import opened TransferBatches
  import opened Validator
  import opened RskSignatures
  import opened BitcoinSignatures
  import opened NodeIteration

  datatype Stage = PurgeInvalid | NotDue | RequestSending | MarkSending | RequestBitcoin | SendBitcoin
                 | RequestMined | MarkMined | Finished

  /** The branch of runIteration for the batch, after reclaimed transfers have been dealt with. */
  function StageOf(b: TransferBatch, due: bool, sentToBitcoin: bool, numRequiredSigners: nat): (stage: Stage) {
    if !ValidTransferState(b.transfers) then PurgeInvalid
    else if !due then NotDue
    else if !IsMarkedAsSendingInRsk(b) && |b.rskSendingSignatures| < numRequiredSigners then RequestSending
    else if !IsMarkedAsSendingInRsk(b) then MarkSending
    else if !sentToBitcoin && !EnoughSignatures(b.signedBtcTransaction) then RequestBitcoin
    else if !sentToBitcoin then SendBitcoin
    else if !IsMarkedAsMinedInRsk(b) && |b.rskMinedSignatures| < numRequiredSigners then RequestMined
    else if !IsMarkedAsMinedInRsk(b) then MarkMined
    else Finished
  }

  function Rank(stage: Stage): nat {
    match stage
    case PurgeInvalid => 0
    case NotDue => 0
    case RequestSending => 1
    case MarkSending => 2
    case RequestBitcoin => 3
    case SendBitcoin => 4
    case RequestMined => 5
    case MarkMined => 6
    case Finished => 7
  }

  /** A later version of the batch: signatures added, the same transfers further on towards Mined. */
  predicate Later(b: TransferBatch, c: TransferBatch) {
    && |c.transfers| == |b.transfers|
    && (forall i :: 0 <= i < |b.transfers| ==>
          Allowed(b.transfers[i].row.status, c.transfers[i].row.status))
    && |b.rskSendingSignatures| <= |c.rskSendingSignatures| && |b.rskMinedSignatures| <= |c.rskMinedSignatures|
    && (EnoughSignatures(b.signedBtcTransaction) ==> EnoughSignatures(c.signedBtcTransaction))
  }

  lemma LaterAdvances(b: TransferBatch, c: TransferBatch, sentToBitcoin: bool, sentLater: bool, numRequiredSigners: nat)
    requires Later(b, c) && ValidTransferState(b.transfers) && ValidTransferState(c.transfers)
    requires sentToBitcoin ==> sentLater
    ensures Rank(StageOf(b, true, sentToBitcoin, numRequiredSigners)) <= Rank(StageOf(c, true, sentLater, numRequiredSigners))
  {
    hide EnoughSignatures, IsMarkedAsSendingInRsk, IsMarkedAsMinedInRsk, ValidTransferState;
    MarksStay(b, c);
  }

  lemma MarkedStatuses(b: TransferBatch)
    requires IsMarkedAsSendingInRsk(b)
    ensures forall t :: t in b.transfers ==> t.row.status == Sending || t.row.status == Mined
  {
  }

  lemma MarksStay(b: TransferBatch, c: TransferBatch)
    requires |c.transfers| == |b.transfers|
    requires forall i :: 0 <= i < |b.transfers| ==> Allowed(b.transfers[i].row.status, c.transfers[i].row.status)
    ensures IsMarkedAsSendingInRsk(b) ==> IsMarkedAsSendingInRsk(c)
    ensures IsMarkedAsMinedInRsk(b) ==> IsMarkedAsMinedInRsk(c)
  {
    assert forall i :: 0 <= i < |b.transfers| ==> b.transfers[i] in b.transfers;
  }

  // ---- What makes a batch move on ----

  lemma UpdateIsLater(b: TransferBatch, responses: Responses, me: Settings, outside: Outside)
    requires Updated(b, responses, me, outside).Some?
    ensures Later(b, Updated(b, responses, me, outside).value)
    ensures Updated(b, responses, me, outside).value.transfers == b.transfers
  {
    hide BatchValid, Gathered, IsMarkedAsSendingInRsk, IsMarkedAsMinedInRsk, TakeAll, AddOwn;
    UpdateExtends(b, responses, me, outside);
  }

  /** The node's tables are exactly what its confirmed part of the log says: it has not written statuses ahead. */
  ghost predicate Mirrored(db: Database, s: State, valid: BtcAddress -> bool) {
    Replay(EMPTY_DATABASE, s.log, valid) == Scanned(db)
  }

  /** The statuses of a mirrored batch in a valid state are the contract's. */
  lemma StatusOnChain(db: Database, s: State, id: TransferId, valid: BtcAddress -> bool)
    requires Reachable(s) && Mirrored(db, s, valid) && id in db.transfers
    ensures id in s.transfers && db.transfers[id].status == Shown(s.transfers[id], valid)
  {
    ReplayRefines(s, valid);
    assert RowMatches(s, id, db.transfers[id], valid);
  }

  lemma StatusKnown(db: Database, s: State, id: TransferId, valid: BtcAddress -> bool)
    requires Reachable(s) && Mirrored(db, s, valid) && id in s.transfers
    ensures id in db.transfers
  {
    ReplayRefines(s, valid);
  }

  /** It shows what the contract has, except that a waiting transfer to an address the node cannot parse is Invalid: it never
      gets into a batch. */
  lemma StatusExactly(db: Database, s: State, id: TransferId, valid: BtcAddress -> bool)
    requires Reachable(s) && Mirrored(db, s, valid) && id in db.transfers
    ensures id in s.transfers
    ensures var shown, status := db.transfers[id].status, s.transfers[id].status;
      if status == New && !valid(s.transfers[id].btcAddress) then shown == Invalid else shown == status
  {
    StatusOnChain(db, s, id, valid);
  }

  /** Some event of the range is a status update of the transfer. */
  predicate IsUpdated(range: seq<LogEntry>, id: TransferId) {
    exists e :: e in range && e.event.StatusUpdated? && e.event.id == id
  }

  lemma UpdatedNext(entries: seq<LogEntry>, id: TransferId)
    requires |entries| > 0
    ensures var init, last := entries[..|entries| - 1], entries[|entries| - 1].event;
      IsUpdated(entries, id) <==> IsUpdated(init, id) || (last.StatusUpdated? && last.id == id)
  {
    var init, last := entries[..|entries| - 1], entries[|entries| - 1];
    assert entries == init + [last] && last in entries;
  }

  /** Replayed on tables that differ in statuses only, events settle the status of what they update and leave the rest. */
  lemma {:induction false} ReplayStatus(a: Database, b: Database, entries: seq<LogEntry>, valid: BtcAddress -> bool, id: TransferId)
    requires Agrees(a, b) && Replay(a, entries, valid).Scanned? && Replay(b, entries, valid).Scanned? && id in a.transfers
    ensures var x, y := Replay(a, entries, valid).db.transfers, Replay(b, entries, valid).db.transfers;
      && id in x && id in y
      && if IsUpdated(entries, id) then x[id].status == y[id].status
         else x[id].status == a.transfers[id].status && y[id].status == b.transfers[id].status
  {
    if |entries| > 0 {
      hide IsUpdated;
      var init := entries[..|entries| - 1];
      ReplayStatus(a, b, init, valid, id);
      UpdatedNext(entries, id);
    } else {
      assert !IsUpdated(entries, id);
    }
  }

  /** What a scan makes of a status, whatever the node had written ahead. */
  lemma ScanStatus(db: Database, s: State, range: seq<LogEntry>, db': Database, t: State, id: TransferId, valid: BtcAddress -> bool)
    requires Reachable(s) && Reachable(t) && Follows(db, s, valid) && t.log == s.log + range
    requires Replay(db, range, valid) == Scanned(db') && id in db.transfers
    ensures id in db'.transfers && id in t.transfers
    ensures db'.transfers[id].status == if IsUpdated(range, id) then Shown(t.transfers[id], valid) else db.transfers[id].status
  {
    hide Reachable, IsUpdated;
    var mirror := Replay(EMPTY_DATABASE, s.log, valid).db;
    ReplayConcat(EMPTY_DATABASE, s.log, range, valid);
    ReplayAgrees(db, mirror, range, valid);
    ReplayStatus(db, mirror, range, valid, id);
    StatusOnChain(Replay(EMPTY_DATABASE, t.log, valid).db, t, id, valid);
  }

  /** No status of the batch that the scan is going to settle is ahead of the contract. */
  predicate NotAhead(db: Database, range: seq<LogEntry>, t: State, dto: BatchDto, valid: BtcAddress -> bool) {
    forall id :: id in dto.transferIds && IsUpdated(range, id) && id in db.transfers && id in t.transfers ==>
      Allowed(db.transfers[id].status, Shown(t.transfers[id], valid))
  }

  /** After a scan the same batch loads with every status as before or moved forward exactly if the node had
      written none of those that the scan settles ahead of the contract. */
  lemma ScanIsLaterExactly(db: Database, s: State, range: seq<LogEntry>, db': Database, t: State, dto: BatchDto, valid: BtcAddress -> bool)
    requires Reachable(s) && Reachable(t) && Follows(db, s, valid) && t.log == s.log + range
    requires Replay(db, range, valid) == Scanned(db') && LoadFromDto(db, dto).Some?
    ensures LoadFromDto(db', dto).Some?
    ensures Later(LoadFromDto(db, dto).value, LoadFromDto(db', dto).value) <==> NotAhead(db, range, t, dto, valid)
  {
    hide Reachable, Follows, IsUpdated, Replay;
    var b, ids := LoadFromDto(db, dto).value, dto.transferIds;
    forall i | 0 <= i < |ids|
      ensures ids[i] in db.transfers && ids[i] in db'.transfers && ids[i] in t.transfers
      ensures db'.transfers[ids[i]].status
           == if IsUpdated(range, ids[i]) then Shown(t.transfers[ids[i]], valid) else db.transfers[ids[i]].status
    {
      ScanStatus(db, s, range, db', t, ids[i], valid);
    }
    var c := LoadFromDto(db', dto).value;
    assert forall i :: 0 <= i < |ids| ==> b.transfers[i].row == db.transfers[ids[i]] && c.transfers[i].row == db'.transfers[ids[i]];
    if Later(b, c) {
      forall id | id in ids && IsUpdated(range, id) ensures Allowed(db.transfers[id].status, Shown(t.transfers[id], valid)) {
        var i :| 0 <= i < |ids| && ids[i] == id;
        assert Allowed(b.transfers[i].row.status, c.transfers[i].row.status);
      }
    }
  }

  /** A node that has written nothing ahead is never ahead of the contract, once its batch has a valid state. */
  lemma MirroredNotAhead(db: Database, s: State, range: seq<LogEntry>, t: State, dto: BatchDto, valid: BtcAddress -> bool)
    requires Reachable(s) && Evolves(s, t) && Mirrored(db, s, valid)
    requires LoadFromDto(db, dto).Some? && ValidTransferState(LoadFromDto(db, dto).value.transfers)
    ensures NotAhead(db, range, t, dto, valid)
  {
    hide Reachable, Evolves, Mirrored, IsUpdated;
    var b := LoadFromDto(db, dto).value;
    forall id | id in dto.transferIds && id in t.transfers
      ensures Allowed(db.transfers[id].status, Shown(t.transfers[id], valid))
    {
      var i :| 0 <= i < |dto.transferIds| && dto.transferIds[i] == id;
      assert b.transfers[i] in b.transfers && b.transfers[i].row == db.transfers[id];
      StatusOnChain(db, s, id, valid);
      EvolvesTransfer(s, t, id);
    }
  }

  /** An iteration of the initiator never puts its batch back: the responses it adds leave a valid, due batch at
      its stage or further on. */
  lemma UpdateAdvances(b: TransferBatch, responses: Responses, me: Settings, outside: Outside, sentToBitcoin: bool)
    requires Updated(b, responses, me, outside).Some? && ValidTransferState(b.transfers)
    ensures Rank(StageOf(b, true, sentToBitcoin, me.numRequiredSigners))
         <= Rank(StageOf(Updated(b, responses, me, outside).value, true, sentToBitcoin, me.numRequiredSigners))
  {
    hide Later;
    UpdateIsLater(b, responses, me, outside);
    LaterAdvances(b, Updated(b, responses, me, outside).value, sentToBitcoin, sentToBitcoin, me.numRequiredSigners);
  }

  /** Neither does a scan, as long as the node was not ahead of the contract and the batch has a valid state again:
      no transfer of it was refunded or reclaimed, and all have the same status. */
  lemma ScanAdvances(db: Database, s: State, range: seq<LogEntry>, db': Database, t: State, dto: BatchDto, valid: BtcAddress -> bool,
                     sentToBitcoin: bool, sentLater: bool, numRequiredSigners: nat)
    requires Reachable(s) && Reachable(t) && Follows(db, s, valid) && t.log == s.log + range
    requires Replay(db, range, valid) == Scanned(db') && LoadFromDto(db, dto).Some?
    requires NotAhead(db, range, t, dto, valid) && ValidTransferState(LoadFromDto(db, dto).value.transfers)
    requires sentToBitcoin ==> sentLater
    ensures LoadFromDto(db', dto).Some?
    ensures var b, c := LoadFromDto(db, dto).value, LoadFromDto(db', dto).value;
      ValidTransferState(c.transfers) ==>
        Rank(StageOf(b, true, sentToBitcoin, numRequiredSigners)) <= Rank(StageOf(c, true, sentLater, numRequiredSigners))
  {
    hide Reachable, Follows, NotAhead, Later, ValidTransferState, Replay;
    ScanIsLaterExactly(db, s, range, db', t, dto, valid);
    var b, c := LoadFromDto(db, dto).value, LoadFromDto(db', dto).value;
    if ValidTransferState(c.transfers) {
      LaterAdvances(b, c, sentToBitcoin, sentLater, numRequiredSigners);
    }
  }

  /** A node that is ahead is put back: with MINED written for a transfer whose SENDING update is still to be scanned, the
      scan makes it SENDING. */
  lemma ScanPutsBack(db: Database, s: State, id: TransferId, hash: BtcHash, valid: BtcAddress -> bool)
    requires Reachable(s) && Mirrored(db, s, valid) && HasStatus(s, id, New) && s.initialized
    requires Replayable(s.history.batches + [Batch(hash, [id])])
    ensures var t := AfterCommit(s, hash, [id]);
      var r := Replay(Written(db, {id}, Mined), t.log[|s.log|..], valid);
      && s.log <= t.log
      && r.Scanned? && id in r.db.transfers && r.db.transfers[id].status == Sending
  {
    var t := AfterCommit(s, hash, [id]);
    OneCommitted(s, t, hash, id);
    hide AfterCommit, Reachable, Replay, IsUpdated, Shown;
    var ahead, range := Written(db, {id}, Mined), t.log[|s.log|..];
    assert t.log == s.log + range;
    ReplayRefines(t, valid);
    ReplayConcat(EMPTY_DATABASE, s.log, range, valid);
    WrittenFollows(db, s, {id}, Mined, valid);
    ReplayAgrees(ahead, db, range, valid);
    StatusKnown(db, s, id, valid);
    ScanStatus(ahead, s, range, Replay(ahead, range, valid).db, t, id, valid);
    SendingShown(t.transfers[id], valid);
  }

  lemma SendingShown(t: BitcoinTransfer, valid: BtcAddress -> bool)
    ensures t.status == Sending ==> Shown(t, valid) == Sending
  {
  }

  lemma OneCommitted(s: State, t: State, hash: BtcHash, id: TransferId)
    requires Reachable(s) && HasStatus(s, id, New) && s.initialized && t == AfterCommit(s, hash, [id])
    ensures Reachable(t) && s.log <= t.log && IsUpdated(t.log[|s.log|..], id)
    ensures t.history.batches == s.history.batches + [Batch(hash, [id])] && HasStatus(t, id, Sending)
  {
    ReachableStep(s, CommitBatch(hash, [id]));
    hide Reachable;
    var range := t.log[|s.log|..];
    assert |range| == 2 && range[1].event == StatusUpdated(id, Sending);
    assert range[1] in range;
  }

  /** Statuses written ahead leave everything else as the scanner had it. */
  lemma WrittenFollows(db: Database, s: State, ids: set<TransferId>, status: Status, valid: BtcAddress -> bool)
    requires Mirrored(db, s, valid)
    ensures Follows(Written(db, ids, status), s, valid) && Agrees(Written(db, ids, status), db)
  {
    hide Replay;
  }

  // ---- When the transfers of a batch are really committed ----

  predicate AllCommitted(s: State, ids: seq<TransferId>) {
    forall id :: id in ids ==> HasStatus(s, id, Sending) || HasStatus(s, id, Mined)
  }

  predicate AllHashed(b: TransferBatch) {
    forall t :: t in b.transfers ==> t.row.btcTransactionHash.Some?
  }

  /** Whatever statuses a node has written ahead: the contract has all transfers of a batch as SENDING or MINED exactly
      if every loaded row has a Bitcoin hash, which only the scanner writes. */
  lemma CommittedExactly(db: Database, s: State, dto: BatchDto, valid: BtcAddress -> bool)
    requires Reachable(s) && Follows(db, s, valid) && LoadFromDto(db, dto).Some?
    ensures AllCommitted(s, dto.transferIds) <==> AllHashed(LoadFromDto(db, dto).value)
  {
    hide Reachable, Follows;
    var b, ids := LoadFromDto(db, dto).value, dto.transferIds;
    forall i | 0 <= i < |ids|
      ensures HasStatus(s, ids[i], Sending) || HasStatus(s, ids[i], Mined) <==> b.transfers[i].row.btcTransactionHash.Some?
    {
      assert b.transfers[i].row == db.transfers[ids[i]];
      FollowsMatches(db, s, ids[i], valid);
      HashedIsCommitted(s, ids[i]);
    }
    if AllCommitted(s, ids) {
      forall t | t in b.transfers ensures t.row.btcTransactionHash.Some? {
        var i :| 0 <= i < |ids| && b.transfers[i] == t;
        assert ids[i] in ids;
      }
    } else {
      var id :| id in ids && !HasStatus(s, id, Sending) && !HasStatus(s, id, Mined);
      var i :| 0 <= i < |ids| && ids[i] == id;
      assert b.transfers[i] in b.transfers;
    }
  }

  lemma HashedIsCommitted(s: State, id: TransferId)
    requires Reachable(s) && id in s.transfers
    ensures CommittedHash(s, id).Some? <==> HasStatus(s, id, Sending) || HasStatus(s, id, Mined)
  {
    ReachableInv(s);
  }

  lemma CommittedStays(s: State, t: State, ids: seq<TransferId>)
    requires Evolves(s, t) && AllCommitted(s, ids)
    ensures AllCommitted(t, ids)
  {
    hide Evolves;
    forall id | id in ids ensures HasStatus(t, id, Sending) || HasStatus(t, id, Mined) {
      EvolvesTransfer(s, t, id);
    }
  }

  /** A node whose statuses are the scanner's asks for, sends and follows up the Bitcoin transaction only while every
      transfer is SENDING or MINED in the contract, which it then stays. */
  lemma BitcoinStagesSafe(db: Database, s: State, t: State, dto: BatchDto, valid: BtcAddress -> bool,
                          sentToBitcoin: bool, numRequiredSigners: nat)
    requires Reachable(s) && Evolves(s, t) && Mirrored(db, s, valid) && LoadFromDto(db, dto).Some?
    requires Rank(StageOf(LoadFromDto(db, dto).value, true, sentToBitcoin, numRequiredSigners)) >= 3
    ensures AllCommitted(t, dto.transferIds)
  {
    hide Reachable, Evolves, Mirrored, ValidTransferState;
    var b := LoadFromDto(db, dto).value;
    MarkedStatuses(b);
    forall id | id in dto.transferIds ensures HasStatus(s, id, Sending) || HasStatus(s, id, Mined) {
      var i :| 0 <= i < |dto.transferIds| && dto.transferIds[i] == id;
      assert b.transfers[i] in b.transfers && b.transfers[i].row == db.transfers[id];
      StatusOnChain(db, s, id, valid);
    }
    CommittedStays(s, t, dto.transferIds);
  }

  /** That is not so when the node has written SENDING by itself: with the transfer still NEW in the contract, it asks for
      Bitcoin signatures. */
  lemma AskedTooEarly(db: Database, s: State, id: TransferId, dto: BatchDto, valid: BtcAddress -> bool, numRequiredSigners: nat)
    requires Reachable(s) && Mirrored(db, s, valid) && HasStatus(s, id, New)
    requires dto.transferIds == [id] && dto.signedBtcTransaction.None?
    ensures var ahead := Written(db, {id}, Sending);
      && Follows(ahead, s, valid) && LoadFromDto(ahead, dto).Some?
      && StageOf(LoadFromDto(ahead, dto).value, true, false, numRequiredSigners) == RequestBitcoin
  {
    StatusKnown(db, s, id, valid);
    WrittenFollows(db, s, {id}, Sending, valid);
    hide Replay, Reachable, Follows;
    var ahead := Written(db, {id}, Sending);
    assert id in db.transfers && dto.transferIds[0] == id;
    var b := LoadFromDto(ahead, dto).value;
    assert |b.transfers| == 1 && b.transfers[0].row.status == Sending;
  }

  /** What the validation before signing adds: with whatever statuses written ahead, a node signs a Bitcoin transaction
      only if every transfer is SENDING or MINED in the contract, now and ever after. */
  lemma SigningSafe(db: Database, s: State, t: State, dto: BatchDto, view: ChainView, changeAddress: BtcAddress, valid: BtcAddress -> bool)
    requires Reachable(s) && Evolves(s, t) && Follows(db, s, valid) && LoadFromDto(db, dto).Some?
    requires SigningValid(LoadFromDto(db, dto).value, view, changeAddress)
    ensures AllCommitted(t, dto.transferIds)
  {
    hide Reachable, Evolves, Follows, BatchValid, AllCommitted, LoadFromDto;
    CommittedExactly(db, s, dto, valid);
    CommittedStays(s, t, dto.transferIds);
  }
}
