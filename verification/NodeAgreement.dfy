/** What signing relies on in a node's database: everything but the statuses, which a node may write
    ahead of the scanner after its own RSK transactions. */
module NodeAgreement {
  import opened TransferIds
  import opened BridgeState
  import opened BridgeInvariants
  import opened NodeDatabase
  import opened ScannerRefinement

  ghost predicate Agrees(a: Database, b: Database) {
    && a.transfers.Keys == b.transfers.Keys
    && (forall id :: id in a.transfers ==> a.transfers[id] == b.transfers[id].(status := a.transfers[id].status))
    && a.commitments == b.commitments
  }

  ghost predicate ResultsAgree(a: ScanResult, b: ScanResult) {
    (a.Scanned? <==> b.Scanned?) && (a.Scanned? ==> Agrees(a.db, b.db))
  }

  lemma ApplyAgrees(a: Database, b: Database, entry: LogEntry, valid: BtcAddress -> bool)
    requires Agrees(a, b)
    ensures ResultsAgree(Apply(a, entry, valid), Apply(b, entry, valid))
  {
  }

  /** Local statuses never influence whether a scan succeeds, nor anything else it stores. */
  lemma {:induction false} ReplayAgrees(a: Database, b: Database, entries: seq<LogEntry>, valid: BtcAddress -> bool)
    requires Agrees(a, b)
    ensures ResultsAgree(Replay(a, entries, valid), Replay(b, entries, valid))
  {
    if |entries| > 0 {
      var init := entries[..|entries| - 1];
      ReplayAgrees(a, b, init, valid);
      if Replay(a, init, valid).Scanned? {
        ApplyAgrees(Replay(a, init, valid).db, Replay(b, init, valid).db, entries[|entries| - 1], valid);
      }
    }
  }

  /** The node's tables are, up to statuses, what the contract's log in state `s` says. */
  ghost predicate Follows(db: Database, s: State, valid: BtcAddress -> bool) {
    var r := Replay(EMPTY_DATABASE, s.log, valid);
    r.Scanned? && Agrees(db, r.db)
  }

  lemma FollowsMatches(db: Database, s: State, id: TransferId, valid: BtcAddress -> bool)
    requires Reachable(s) && Follows(db, s, valid) && id in db.transfers
    ensures id in s.transfers
    ensures db.transfers[id].TotalAmountSatoshi() == s.transfers[id].totalAmountSatoshi
    ensures db.transfers[id].btcAddress == s.transfers[id].btcAddress && db.transfers[id].nonce == s.transfers[id].nonce
    ensures db.transfers[id].btcTransactionHash == CommittedHash(s, id)
  {
    ReplayRefines(s, valid);
    var r := Replay(EMPTY_DATABASE, s.log, valid);
    assert id in r.db.transfers && RowMatches(s, id, r.db.transfers[id], valid);
  }

  lemma FollowsCommitments(db: Database, s: State, valid: BtcAddress -> bool)
    requires Reachable(s) && Follows(db, s, valid)
    ensures Replayable(s.history.batches) && CommitmentsMatch(s, db.commitments)
  {
    ReplayRefines(s, valid);
  }
}
