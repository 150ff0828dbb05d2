/** core/transfers.ts: choosing the next batch, and rebuilding a batch when some of its transfers were
    reclaimed; db/models.ts: the table of stored batches. */
module BatchService {
  import opened Base
  import opened TransferIds
  import opened Bitcoin
  import opened BridgeState
  import opened BridgeInvariants
  import opened Payout
  import opened TransferBatches

  const MAX_SATOSHI_IN_BATCH: nat := 500_000_000

  function TotalSatoshi(transfers: seq<LoadedTransfer>): (sum: nat) {
    if |transfers| == 0 then 0
    else TotalSatoshi(transfers[..|transfers| - 1]) + transfers[|transfers| - 1].row.TotalAmountSatoshi()
  }

  predicate WithinCaps(transfers: seq<LoadedTransfer>, maxTransfers: nat) {
    |transfers| <= maxTransfers && TotalSatoshi(transfers) <= MAX_SATOSHI_IN_BATCH
  }

  lemma {:induction false} TotalOfPrefix(transfers: seq<LoadedTransfer>, k: nat)
    requires k <= |transfers|
    ensures TotalSatoshi(transfers[..k]) <= TotalSatoshi(transfers)
    decreases |transfers|
  {
    if k < |transfers| {
      TotalOfPrefix(transfers[..|transfers| - 1], k);
      assert transfers[..|transfers| - 1][..k] == transfers[..k];
    } else {
      assert transfers[..k] == transfers;
    }
  }

  /** getNextBatchTransfers: the longest prefix of the queue within both caps. */
  method GetNextBatchTransfers(queue: seq<LoadedTransfer>, maxTransfersInBatch: nat) returns (batch: seq<LoadedTransfer>)
    ensures batch <= queue && WithinCaps(batch, maxTransfersInBatch)
    ensures forall k :: 0 <= k <= |queue| && WithinCaps(queue[..k], maxTransfersInBatch) ==> k <= |batch|
  {
    var allPossibleTransfers := if |queue| <= maxTransfersInBatch then queue else queue[..maxTransfersInBatch];
    batch := [];
    var totalSatoshiInBatch := 0;
    var i := 0;
    while i < |allPossibleTransfers|
      invariant 0 <= i <= |allPossibleTransfers|
      invariant batch == queue[..i] && totalSatoshiInBatch == TotalSatoshi(batch) <= MAX_SATOSHI_IN_BATCH
    {
      var withTransfer := totalSatoshiInBatch + allPossibleTransfers[i].row.TotalAmountSatoshi();
      assert queue[..i + 1][..i] == queue[..i];
      assert TotalSatoshi(queue[..i + 1]) == withTransfer;
      if withTransfer > MAX_SATOSHI_IN_BATCH {
        forall k | i < k <= |queue| ensures TotalSatoshi(queue[..k]) > MAX_SATOSHI_IN_BATCH {
          TotalOfPrefix(queue[..k], i + 1);
          assert queue[..k][..i + 1] == queue[..i + 1];
        }
        return;
      }
      totalSatoshiInBatch := withTransfer;
      batch := batch + [allPossibleTransfers[i]];
      assert batch == queue[..i + 1];
      i := i + 1;
    }
  }

  // ---- Stored batches ----

  datatype StoredBatch = StoredBatch(batch: TransferBatch, finalized: bool)

  function IdSet(b: StoredBatch): set<TransferId> {
    Elements(TransferIdsOf(b.batch.transfers))
  }

  /** findByTransferIds compares the identifiers as sets: position of the first match, or the length. */
  function Find(stored: seq<StoredBatch>, ids: set<TransferId>): (i: nat)
    ensures i <= |stored|
    ensures i < |stored| ==> IdSet(stored[i]) == ids
    ensures forall j :: 0 <= j < i ==> IdSet(stored[j]) != ids
  {
    if |stored| == 0 || IdSet(stored[0]) == ids then 0 else 1 + Find(stored[1..], ids)
  }

  function Removed(stored: seq<StoredBatch>, ids: set<TransferId>): (r: seq<StoredBatch>) {
    var i := Find(stored, ids);
    if i < |stored| then stored[..i] + stored[i + 1..] else stored
  }

  /** createOrUpdateFromTransferBatch: a batch once marked finalized stays so. */
  function Saved(stored: seq<StoredBatch>, batch: TransferBatch): (r: seq<StoredBatch>) {
    var markFinalized := IsMarkedAsMinedInRsk(batch);
    var i := Find(stored, Elements(TransferIdsOf(batch.transfers)));
    if i < |stored| then stored[i := StoredBatch(batch, stored[i].finalized || markFinalized)]
    else stored + [StoredBatch(batch, markFinalized)]
  }

  /** No two stored batches hold the same transfers. */
  predicate OneEach(stored: seq<StoredBatch>) {
    forall i, j :: 0 <= i < j < |stored| ==> IdSet(stored[i]) != IdSet(stored[j])
  }

  lemma SavedIsFound(stored: seq<StoredBatch>, batch: TransferBatch)
    requires OneEach(stored)
    ensures var r := Saved(stored, batch);
      var ids := Elements(TransferIdsOf(batch.transfers));
      && OneEach(r)
      && Find(r, ids) < |r| && r[Find(r, ids)].batch == batch
      && (r[Find(r, ids)].finalized <==>
            || (Find(stored, ids) < |stored| && stored[Find(stored, ids)].finalized)
            || (forall t :: t in batch.transfers ==> t.row.status == Mined))
      && forall other :: other != ids ==>
           && (Find(r, other) < |r| <==> Find(stored, other) < |stored|)
           && (Find(r, other) < |r| ==> r[Find(r, other)] == stored[Find(stored, other)])
  {
    var r := Saved(stored, batch);
    var ids := Elements(TransferIdsOf(batch.transfers));
    var i := Find(stored, ids);
    assert IdSet(r[i]) == ids && r[i].batch == batch;
    forall other | other != ids
      ensures Find(r, other) < |r| <==> Find(stored, other) < |stored|
      ensures Find(r, other) < |r| ==> r[Find(r, other)] == stored[Find(stored, other)]
    {
      var a, b := Find(stored, other), Find(r, other);
      assert a < |stored| ==> r[a] == stored[a];
      assert b < |r| ==> b != i && r[b] == stored[b];
    }
  }

  /** Removing takes away the batch of these transfers and no other. */
  lemma RemovedIsGone(stored: seq<StoredBatch>, ids: set<TransferId>)
    requires OneEach(stored)
    ensures var r := Removed(stored, ids);
      && OneEach(r) && Find(r, ids) == |r|
      && forall other :: other != ids ==>
           && (Find(r, other) < |r| <==> Find(stored, other) < |stored|)
           && (Find(r, other) < |r| ==> r[Find(r, other)] == stored[Find(stored, other)])
  {
    hide IdSet;
    var r, i := Removed(stored, ids), Find(stored, ids);
    if i < |stored| {
      assert forall k :: 0 <= k < |r| ==> r[k] == if k < i then stored[k] else stored[k + 1];
      forall other | other != ids
        ensures Find(r, other) < |r| <==> Find(stored, other) < |stored|
        ensures Find(r, other) < |r| ==> r[Find(r, other)] == stored[Find(stored, other)]
      {
        var a, b := Find(stored, other), Find(r, other);
        assert a < |stored| ==> a != i && stored[a] == r[if a < i then a else a - 1];
        assert b < |r| ==> r[b] == stored[if b < i then b else b + 1];
      }
    }
  }

  // ---- Reclaimed transfers ----

  predicate AllKnown(transfers: seq<LoadedTransfer>, chain: State) {
    forall t :: t in transfers ==> t.transferId in chain.transfers
  }

  /** hasValidState with the statuses the contract has at that moment; None when the contract, which is only
      asked about a batch with a valid state of its own, does not know one of the transfers. */
  function HasValidState(transfers: seq<LoadedTransfer>, chain: State): (r: Option<bool>) {
    if |transfers| == 0 || !ValidTransferState(transfers) then Some(false)
    else if !AllKnown(transfers, chain) then None
    else Some(forall t :: t in transfers ==> t.row.status == chain.transfers[t.transferId].status)
  }

  /** The status of all rows, and of all transfers in the contract. */
  predicate AllAre(transfers: seq<LoadedTransfer>, chain: State, status: Status) {
    forall t :: t in transfers ==> t.row.status == status && HasStatus(chain, t.transferId, status)
  }

  /** A batch is valid exactly if it is not empty and one and the same status, NEW, SENDING or MINED, is that of all its
      rows and of all its transfers in the contract. */
  lemma ValidExactly(transfers: seq<LoadedTransfer>, chain: State)
    ensures HasValidState(transfers, chain) == Some(true) <==>
      && transfers != []
      && (AllAre(transfers, chain, New) || AllAre(transfers, chain, Sending) || AllAre(transfers, chain, Mined))
  {
    if HasValidState(transfers, chain) == Some(true) {
      assert transfers[0] in transfers;
      assert AllAre(transfers, chain, transfers[0].row.status);
    }
  }

  function Select(transfers: seq<LoadedTransfer>, chain: State, reclaimed: bool): (r: seq<LoadedTransfer>)
    requires AllKnown(transfers, chain)
  {
    if |transfers| == 0 then []
    else
      var init, last := transfers[..|transfers| - 1], transfers[|transfers| - 1];
      Select(init, chain, reclaimed)
      + (if (chain.transfers[last.transferId].status == Reclaimed) == reclaimed then [last] else [])
  }

  datatype PurgeResult = PurgeDone | PurgeDenied | PurgeReverted

  datatype ReclaimResult =
    | CallReverted
    | NoneReclaimed
    | PurgeRefused
    | NoPayment
    | Purged(reclaimedIds: seq<TransferId>, newBatch: Option<TransferBatch>)

  /** createTransferBatch around a freshly built transaction. */
  function FreshBatch(transfers: seq<LoadedTransfer>, payment: Psbt): (b: TransferBatch) {
    TransferBatch(transfers, [], [], Some(HashOf(payment.tx)), payment, None, [], [], None)
  }

  lemma {:induction false} SelectTotals(transfers: seq<LoadedTransfer>, chain: State)
    requires AllKnown(transfers, chain)
    ensures var left, gone := Select(transfers, chain, false), Select(transfers, chain, true);
      && |transfers| == |left| + |gone|
      && TotalSatoshi(transfers) == TotalSatoshi(left) + TotalSatoshi(gone)
  {
    if |transfers| > 0 {
      var init, last := transfers[..|transfers| - 1], transfers[|transfers| - 1];
      assert last in transfers;
      SelectTotals(init, chain);
      TotalAppend(Select(init, chain, false), last);
      TotalAppend(Select(init, chain, true), last);
    }
  }

  lemma TotalAppend(transfers: seq<LoadedTransfer>, last: LoadedTransfer)
    ensures TotalSatoshi(transfers + [last]) == TotalSatoshi(transfers) + last.row.TotalAmountSatoshi()
    ensures TotalSatoshi(transfers + []) == TotalSatoshi(transfers)
  {
    assert (transfers + [last])[..|transfers|] == transfers;
    assert transfers + [] == transfers;
  }

  /** The two parts are the transfers with and without the status Reclaimed. */
  lemma {:induction false} SelectMembers(transfers: seq<LoadedTransfer>, chain: State, reclaimed: bool)
    requires AllKnown(transfers, chain)
    ensures forall t :: t in Select(transfers, chain, reclaimed) <==>
      t in transfers && ((chain.transfers[t.transferId].status == Reclaimed) == reclaimed)
  {
    if |transfers| > 0 {
      var init, last := transfers[..|transfers| - 1], transfers[|transfers| - 1];
      assert transfers == init + [last];
      SelectMembers(init, chain, reclaimed);
    }
  }

  predicate Belongs(t: LoadedTransfer, chain: State, reclaimed: bool)
    requires t.transferId in chain.transfers
  {
    (chain.transfers[t.transferId].status == Reclaimed) == reclaimed
  }

  /** They keep their order: the transfers at increasing positions, exactly those where the status is, or is not, Reclaimed. */
  lemma {:induction false} SelectInOrder(transfers: seq<LoadedTransfer>, chain: State, reclaimed: bool) returns (at: seq<nat>)
    requires AllKnown(transfers, chain)
    ensures var r := Select(transfers, chain, reclaimed);
      && |at| == |r| && (forall k :: 0 <= k < |r| ==> at[k] < |transfers| && r[k] == transfers[at[k]])
    ensures forall k, l :: 0 <= k < l < |at| ==> at[k] < at[l]
    ensures forall i :: 0 <= i < |transfers| ==>
      transfers[i].transferId in chain.transfers && (i in at <==> Belongs(transfers[i], chain, reclaimed))
  {
    if |transfers| == 0 {
      at := [];
    } else {
      var n := |transfers| - 1;
      var init, last := transfers[..n], transfers[n];
      assert transfers == init + [last];
      assert last in transfers;
      var before := SelectInOrder(init, chain, reclaimed);
      SelectNext(init, last, chain, reclaimed);
      hide Belongs, Select;
      at := before + (if Belongs(last, chain, reclaimed) then [n] else []);
      assert n !in before;
      assert forall i :: 0 <= i < n ==> init[i] == transfers[i] && (i in at <==> i in before);
    }
  }

  lemma SelectNext(init: seq<LoadedTransfer>, last: LoadedTransfer, chain: State, reclaimed: bool)
    requires AllKnown(init + [last], chain)
    ensures AllKnown(init, chain) && last.transferId in chain.transfers
    ensures Select(init + [last], chain, reclaimed)
      == Select(init, chain, reclaimed) + (if Belongs(last, chain, reclaimed) then [last] else [])
  {
    assert (init + [last])[..|init|] == init && last in init + [last];
    assert forall t :: t in init ==> t in init + [last];
  }

  /** Taking reclaimed transfers out of a batch keeps it within the caps. */
  lemma RemainderWithinCaps(transfers: seq<LoadedTransfer>, chain: State, maxTransfers: nat)
    requires AllKnown(transfers, chain)
    requires WithinCaps(transfers, maxTransfers)
    ensures WithinCaps(Select(transfers, chain, false), maxTransfers)
  {
    SelectTotals(transfers, chain);
  }

  /** A reclaimed transfer is reclaimed for good, so a batch that contains one is invalid at any later
      moment and purging it is never refused. */
  lemma PurgeNotRefused(transfers: seq<LoadedTransfer>, atCheck: State, atPurge: State)
    requires AllKnown(transfers, atCheck)
    requires Evolves(atCheck, atPurge) && Select(transfers, atCheck, true) != []
    ensures AllKnown(transfers, atPurge) && HasValidState(transfers, atPurge) == Some(false)
  {
    SelectMembers(transfers, atCheck, true);
    var gone := Select(transfers, atCheck, true)[0];
    assert gone in Select(transfers, atCheck, true);
    forall t | t in transfers ensures t.transferId in atPurge.transfers {
      EvolvesTransfer(atCheck, atPurge, t.transferId);
    }
    EvolvesTransfer(atCheck, atPurge, gone.transferId);
    assert gone in transfers;
  }

  class BitcoinTransferService {
    var stored: seq<StoredBatch>

    constructor ()
      ensures stored == [] && OneEach(stored)
    {
      stored := [];
    }

    method UpdateStoredTransferBatch(batch: TransferBatch)
      requires OneEach(stored)
      modifies this
      ensures OneEach(stored) && stored == Saved(old(stored), batch)
    {
      SavedIsFound(stored, batch);
      stored := Saved(stored, batch);
    }

    /** Purges exactly the batches that are not valid; asking about them can revert. */
    method PurgeTransferBatch(transfers: seq<LoadedTransfer>, chain: State) returns (r: PurgeResult)
      requires OneEach(stored)
      modifies this
      ensures OneEach(stored)
      ensures r == match HasValidState(transfers, chain)
        case None => PurgeReverted
        case Some(valid) => if valid then PurgeDenied else PurgeDone
      ensures stored == if r.PurgeDone? then Removed(old(stored), Elements(TransferIdsOf(transfers))) else old(stored)
      ensures r.PurgeDone? ==> Find(stored, Elements(TransferIdsOf(transfers))) == |stored|
    {
      var isValid := HasValidState(transfers, chain);
      if isValid.None? { return PurgeReverted; }
      if isValid.value { return PurgeDenied; }
      RemovedIsGone(stored, Elements(TransferIdsOf(transfers)));
      stored := Removed(stored, Elements(TransferIdsOf(transfers)));
      return PurgeDone;
    }

    /** handleReclaimedTransfers.  The chain is read twice: `atCheck`, and later `atPurge`.  `payment`
        is the transaction that paying the remaining transfers would give (None is a thrown error). */
    method HandleReclaimedTransfers(batch: TransferBatch, atCheck: State, atPurge: State, payment: Option<Psbt>)
      returns (r: ReclaimResult)
      requires OneEach(stored) && Evolves(atCheck, atPurge)
      modifies this
      ensures OneEach(stored) && r != PurgeRefused
      ensures var transfers := batch.transfers;
        var ids := Elements(TransferIdsOf(transfers));
        if exists i :: 0 <= i < |transfers| && transfers[i].transferId !in atCheck.transfers then
          r == CallReverted && stored == old(stored)
        else
          var left, gone := Select(transfers, atCheck, false), Select(transfers, atCheck, true);
          if gone == [] then r == NoneReclaimed && stored == old(stored)
          else if left == [] then
            r == Purged(TransferIdsOf(gone), None) && stored == Removed(old(stored), ids)
          else if payment.None? then r == NoPayment && stored == Removed(old(stored), ids)
          else
            && r == Purged(TransferIdsOf(gone), Some(FreshBatch(left, payment.value)))
            && stored == Saved(Removed(old(stored), ids), FreshBatch(left, payment.value))
    {
      var transfers := batch.transfers;
      if exists i :: 0 <= i < |transfers| && transfers[i].transferId !in atCheck.transfers { return CallReverted; }
      var reclaimedTransfers: seq<LoadedTransfer>, validTransfers: seq<LoadedTransfer> := [], [];
      var i := 0;
      while i < |transfers|
        invariant 0 <= i <= |transfers|
        invariant forall t :: t in transfers[..i] ==> t in transfers
        invariant reclaimedTransfers == Select(transfers[..i], atCheck, true)
        invariant validTransfers == Select(transfers[..i], atCheck, false)
      {
        assert transfers[..i + 1][..i] == transfers[..i];
        if atCheck.transfers[transfers[i].transferId].status == Reclaimed {
          reclaimedTransfers := reclaimedTransfers + [transfers[i]];
        } else {
          validTransfers := validTransfers + [transfers[i]];
        }
        i := i + 1;
      }
      assert transfers[..i] == transfers;
      if |reclaimedTransfers| == 0 { return NoneReclaimed; }
      PurgeNotRefused(transfers, atCheck, atPurge);
      var purge := PurgeTransferBatch(transfers, atPurge);
      if purge != PurgeDone { return PurgeRefused; }
      if |validTransfers| == 0 { return Purged(TransferIdsOf(reclaimedTransfers), None); }
      if payment.None? { return NoPayment; }
      UpdateStoredTransferBatch(FreshBatch(validTransfers, payment.value));
      return Purged(TransferIdsOf(reclaimedTransfers), Some(FreshBatch(validTransfers, payment.value)));
    }
  }
}
