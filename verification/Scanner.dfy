/** rsk/scanner.ts: the event scanner of a node, which brings its tables up to date inside one
    database transaction. */
module Scanner {
  import opened Base
  import opened TransferIds
  import opened BridgeState
  import opened NodeDatabase
  import opened Events

  const EVENT_BATCH_SIZE: nat := 100

  /** What a node holds about the chain. */
  datatype NodeState = NodeState(db: Database, lastProcessedBlock: int)

  /** One run of scanNewEvents: nothing new, a rolled-back exception, or all new confirmed blocks. */
  function ScanStep(node: NodeState, log: seq<LogEntry>, currentBlock: int, requiredConfirmations: nat,
                    valid: BtcAddress -> bool): (r: Option<NodeState>)
  {
    var toBlock := currentBlock - requiredConfirmations;
    if toBlock < node.lastProcessedBlock + 1 then Some(node)
    else
      var q := Replay(node.db, InRange(log, node.lastProcessedBlock + 1, toBlock), valid);
      if q.Thrown? then None else Some(NodeState(q.db, toBlock))
  }

  /** After a scan the node stands at the latest confirmed block, or where it stood if that is later. */
  lemma ScansToConfirmed(node: NodeState, log: seq<LogEntry>, currentBlock: int, requiredConfirmations: nat, valid: BtcAddress -> bool)
    requires ScanStep(node, log, currentBlock, requiredConfirmations, valid).Some?
    ensures var r := ScanStep(node, log, currentBlock, requiredConfirmations, valid).value;
      && r.lastProcessedBlock >= node.lastProcessedBlock && r.lastProcessedBlock >= currentBlock - requiredConfirmations
      && (r.lastProcessedBlock == node.lastProcessedBlock || r.lastProcessedBlock == currentBlock - requiredConfirmations)
      && (r.lastProcessedBlock == node.lastProcessedBlock ==> r == node)
  {
  }

  /** What comes after the last confirmed block has no influence: two chains that agree up to there give the same result,
      whatever they hold later. */
  lemma UnconfirmedIgnored(node: NodeState, a: seq<LogEntry>, b: seq<LogEntry>, common: seq<LogEntry>,
                           currentBlock: int, requiredConfirmations: nat, valid: BtcAddress -> bool)
    requires common <= a && common <= b
    requires forall i :: |common| <= i < |a| ==> a[i].at.block > currentBlock - requiredConfirmations
    requires forall i :: |common| <= i < |b| ==> b[i].at.block > currentBlock - requiredConfirmations
    ensures ScanStep(node, a, currentBlock, requiredConfirmations, valid)
         == ScanStep(node, b, currentBlock, requiredConfirmations, valid)
  {
    RangeOfLonger(common, a, node.lastProcessedBlock + 1, currentBlock - requiredConfirmations);
    RangeOfLonger(common, b, node.lastProcessedBlock + 1, currentBlock - requiredConfirmations);
  }

  class EventScanner {
    var transferTable: map<TransferId, TransferRow>
    var commitmentTable: seq<CommitmentRow>
    var lastProcessedBlock: int
    const requiredConfirmations: nat

    constructor (startBlock: int, requiredConfirmations: nat)
      ensures Contents() == NodeState(EMPTY_DATABASE, startBlock - 1)
      ensures this.requiredConfirmations == requiredConfirmations
    {
      transferTable, commitmentTable, lastProcessedBlock := map[], [], startBlock - 1;
      this.requiredConfirmations := requiredConfirmations;
    }

    function Contents(): (r: NodeState)
      reads this
    {
      NodeState(Database(transferTable, commitmentTable), lastProcessedBlock)
    }

    /** `updated` are the transfers it saved, each once.  An exception rolls everything back. */
    method ScanNewEvents(log: seq<LogEntry>, currentBlock: int, valid: BtcAddress -> bool)
      returns (thrown: bool, updated: seq<TransferId>)
      requires InOrder(log)
      modifies this
      ensures var r := ScanStep(old(Contents()), log, currentBlock, requiredConfirmations, valid);
        && (thrown <==> r.None?)
        && Contents() == (if thrown then old(Contents()) else r.value)
      ensures !thrown ==>
        (var confirmed := currentBlock - requiredConfirmations;
         lastProcessedBlock == if confirmed > old(lastProcessedBlock) then confirmed else old(lastProcessedBlock))
      ensures NoDuplicates(updated)
      ensures !thrown ==> forall id :: id in transferTable ==>
        id in updated || (id in old(transferTable) && transferTable[id] == old(transferTable[id]))
    {
      hide Apply, InRange;
      thrown, updated := false, [];
      var fromBlock := lastProcessedBlock + 1;
      var toBlock := currentBlock - requiredConfirmations;
      if toBlock < fromBlock {
        return;
      }
      var events := GetEvents(log, fromBlock, toBlock, EVENT_BATCH_SIZE);

      var savedCommitments := commitmentTable;
      ghost var start := Database(transferTable, commitmentTable);
      var touched: map<TransferId, TransferRow> := map[];  // transfersByTransferId
      var refused := false;  // a transfer was created that the unique index will refuse
      var i := 0;
      while i < |events|
        invariant 0 <= i <= |events|
        invariant transferTable == old(transferTable) && lastProcessedBlock == old(lastProcessedBlock)
        invariant NoDuplicates(updated) && forall id :: id in updated <==> id in touched
        invariant Replay(start, events[..i], valid)
               == if refused then Thrown else Scanned(Database(transferTable + touched, commitmentTable))
      {
        ReplayOne(start, events[..i], events[i], valid);
        assert events[..i + 1] == events[..i] + [events[i]];
        var failed;
        failed, refused, touched, updated := HandleEvent(events[i], valid, refused, touched, updated);
        if failed {
          FailedScan(start, events, i + 1, valid);
          commitmentTable := savedCommitments;
          return true, [];
        }
        i := i + 1;
      }
      assert events[..i] == events;
      if refused {
        commitmentTable := savedCommitments;
        return true, [];
      }
      transferTable := transferTable + touched;
      lastProcessedBlock := toBlock;
    }

    /** One event.  `touched` are the rows to be saved at the end, `refused` that the unique index
        will refuse one of them; `failed` is an exception here and now. */
    method HandleEvent(entry: LogEntry, valid: BtcAddress -> bool, refused: bool,
                       touched: map<TransferId, TransferRow>, updated: seq<TransferId>)
      returns (failed: bool, refused': bool, touched': map<TransferId, TransferRow>, updated': seq<TransferId>)
      requires NoDuplicates(updated) && forall id :: id in updated <==> id in touched
      modifies this`commitmentTable
      ensures NoDuplicates(updated') && forall id :: id in updated' <==> id in touched'
      ensures refused ==> refused'
      ensures var r := Apply(Database(transferTable + touched, old(commitmentTable)), entry, valid);
        && (failed || (refused' && !refused) ==> r.Thrown?)
        && (!failed && !refused' ==> r == Scanned(Database(transferTable + touched', commitmentTable)))
    {
      failed, refused', touched', updated' := false, refused, touched, updated;
      match entry.event {
        case NewBitcoinTransfer(id, _, _, _, _, _) =>
          refused' := refused || id in transferTable || id in touched;
          if id !in touched { updated' := updated + [id]; }
          touched' := touched[id := NewRow(entry, valid)];
          assert transferTable + touched' == (transferTable + touched)[id := NewRow(entry, valid)];
        case StatusUpdated(id, newStatus) =>
          if id !in touched && id !in transferTable { failed := true; return; }
          var row := if id in touched then touched[id] else transferTable[id];
          if id !in touched { updated' := updated + [id]; }
          row := row.(status := newStatus);
          if newStatus == Sending {
            var commitment := FindCommitment(commitmentTable, entry.at);
            if commitment.None? { failed := true; touched', updated' := touched, updated; return; }
            row := row.(btcTransactionHash := Some(commitment.value.btcTransactionHash));
          }
          touched' := touched[id := row];
          assert transferTable + touched' == (transferTable + touched)[id := row];
        case BatchSending(hash, size) =>
          if HasCommitment(commitmentTable, hash) { failed := true; return; }
          commitmentTable := commitmentTable + [CommitmentRow(hash, size, entry.at)];
      }
    }
  }

  /** An exception among the first events is an exception of the whole replay. */
  lemma FailedScan(start: Database, events: seq<LogEntry>, k: nat, valid: BtcAddress -> bool)
    requires k <= |events| && Replay(start, events[..k], valid).Thrown?
    ensures Replay(start, events, valid).Thrown?
  {
    ThrownStays(start, events[..k], events, valid);
  }

  /** Scanning up to one block and later up to another is scanning up to the later one at once: the
      tables depend on the log alone, not on how it was cut into block ranges. */
  lemma ScansCompose(node: NodeState, log: seq<LogEntry>, mid: int, high: int, valid: BtcAddress -> bool)
    requires InOrder(log) && node.lastProcessedBlock <= mid <= high
    ensures ScanStep(node, log, high, 0, valid)
         == (var first := ScanStep(node, log, mid, 0, valid);
             if first.None? then None else ScanStep(first.value, log, high, 0, valid))
  {
    hide Replay, InRange, InOrder;
    var low := node.lastProcessedBlock + 1;
    if mid >= low && high > mid {
      RangesConcat(log, low, mid + 1, high);
      ReplayConcat(node.db, InRange(log, low, mid), InRange(log, mid + 1, high), valid);
    }
  }
}
