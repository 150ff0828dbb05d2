/** The tables a node gets by replaying the contract's log are the contract's own state: exactly when
    every committed batch fits the eight-bit size and no hash was committed twice, and otherwise the
    replay throws. */
module ScannerRefinement {
  import opened Base
  import opened TransferIds
  import opened Bitcoin
  import opened AccessControl
  import opened BridgeState
  import opened BridgeCalls
  import opened BridgeInvariants
  import opened NodeDatabase

  /** What a node shows for a transfer of the contract. */
  function Shown(t: BitcoinTransfer, valid: BtcAddress -> bool): (status: Status) {
    if t.status == New && !valid(t.btcAddress) then Invalid else t.status
  }

  /** The hash passed to the markTransfersAsSending that moved the transfer, if there was one. */
  function CommittedHash(s: State, id: TransferId): (hash: Option<BtcHash>) {
    if id in s.history.committedIn && s.history.committedIn[id] < |s.history.batches| then Some(s.history.batches[s.history.committedIn[id]].bitcoinTxHash)
    else None
  }

  predicate RowMatches(s: State, id: TransferId, row: TransferRow, valid: BtcAddress -> bool)
    requires id in s.transfers
  {
    var t := s.transfers[id];
    && row.btcAddress == t.btcAddress && row.nonce == t.nonce && row.rskAddress == t.rskAddress
    && row.TotalAmountSatoshi() == t.totalAmountSatoshi
    && row.status == Shown(t, valid)
    && row.btcTransactionHash == CommittedHash(s, id)
  }

  ghost predicate RowsMatch(s: State, rows: map<TransferId, TransferRow>, valid: BtcAddress -> bool) {
    && rows.Keys == s.transfers.Keys
    && forall id :: id in rows ==> RowMatches(s, id, rows[id], valid)
  }

  /** The commitment's group of status updates is already in the log. */
  predicate Closed(c: CommitmentRow, now: Clock) {
    || c.at.txHash < now.txHash
    || (c.at.txHash == now.txHash && c.at.logIndex + c.transferBatchSize < now.logIndex)
  }

  ghost predicate CommitmentsMatch(s: State, commitments: seq<CommitmentRow>) {
    && |commitments| == |s.history.batches|
    && forall i :: 0 <= i < |commitments| ==>
         && commitments[i].btcTransactionHash == s.history.batches[i].bitcoinTxHash
         && commitments[i].transferBatchSize == |s.history.batches[i].ids|
         && Closed(commitments[i], s.clock)
  }

  ghost predicate Mirrors(s: State, db: Database, valid: BtcAddress -> bool) {
    RowsMatch(s, db.transfers, valid) && CommitmentsMatch(s, db.commitments)
  }

  /** The condition for a log to be replayable, in terms of the calls that produced it. */
  ghost predicate Replayable(batches: seq<Batch>) {
    && (forall b :: 0 <= b < |batches| ==> |batches[b].ids| <= 255)
    && (forall a, b :: 0 <= a < b < |batches| ==> batches[a].bitcoinTxHash != batches[b].bitcoinTxHash)
  }

  ghost predicate ReplayShows(s: State, valid: BtcAddress -> bool) {
    var r := Replay(EMPTY_DATABASE, s.log, valid);
    if Replayable(s.history.batches) then r.Scanned? && Mirrors(s, r.db, valid) else r.Thrown?
  }

  /** A status update to anything but Sending. */
  lemma MoveMirrors(s: State, id: TransferId, status: Status, db: Database, valid: BtcAddress -> bool)
    requires id in s.transfers && status != Sending && status != New && Mirrors(s, db, valid)
    ensures var r := Apply(db, LogEntry(s.clock, StatusUpdated(id, status)), valid);
      r.Scanned? && Mirrors(Move(s, id, status), r.db, valid)
  {
    var t := Move(s, id, status);
    var rows := db.transfers[id := db.transfers[id].(status := status)];
    forall k | k in rows ensures RowMatches(t, k, rows[k], valid) {
      assert RowMatches(s, k, db.transfers[k], valid);
    }
  }

  lemma MoveShows(s: State, id: TransferId, status: Status, valid: BtcAddress -> bool)
    requires id in s.transfers && status != Sending && status != New && ReplayShows(s, valid)
    ensures ReplayShows(Move(s, id, status), valid)
  {
    var entry := LogEntry(s.clock, StatusUpdated(id, status));
    ReplayOne(EMPTY_DATABASE, s.log, entry, valid);
    if Replayable(s.history.batches) {
      MoveMirrors(s, id, status, Replay(EMPTY_DATABASE, s.log, valid).db, valid);
    }
  }

  lemma {:induction false} MineShows(s: State, ids: seq<TransferId>, k: nat, valid: BtcAddress -> bool)
    requires k <= |ids| && (forall id :: id in ids ==> id in s.transfers) && ReplayShows(s, valid)
    ensures ReplayShows(MoveAll(s, ids[..k], Mined), valid)
  {
    if k == 0 {
      assert SetStatus(s.transfers, ids[..0], Mined) == s.transfers;
      assert MoveAll(s, ids[..0], Mined) == s;
    } else {
      MineShows(s, ids, k - 1, valid);
      MoveNext(s, ids, k - 1, Mined);
      assert ids[k - 1] in ids;
      MoveShows(MoveAll(s, ids[..k - 1], Mined), ids[k - 1], Mined, valid);
    }
  }

  lemma DepositMirrors(s: State, step: Step, db: Database, valid: BtcAddress -> bool)
    requires Fresh(s) && Commitments(s) && Enabled(s, step) && step.Deposit? && Mirrors(s, db, valid)
    ensures var t := After(s, step);
      var r := Apply(db, t.log[|s.log|], valid);
      r.Scanned? && Mirrors(t, r.db, valid)
  {
    hide FindCommitment;
    var t := After(s, step);
    var entry := t.log[|s.log|];
    var id := entry.event.id;
    FreshId(s, step.btcAddress);
    var rows := db.transfers[id := NewRow(entry, valid)];
    forall k | k in rows ensures RowMatches(t, k, rows[k], valid) {
      if k != id {
        assert RowMatches(s, k, db.transfers[k], valid);
      }
    }
  }

  // ---- The group of events of one markTransfersAsSending ----

  /** The contract after `k` of the status updates, with the commitment already recorded. */
  function Group(s: State, hash: BtcHash, ids: seq<TransferId>, k: nat): (r: State)
    requires k <= |ids|
  {
    MoveAll(Emit(s, BatchSending(hash, |ids| % 256)), ids[..k], Sending).(
      history := s.history.(batches := s.history.batches + [Batch(hash, ids)],
                            committedIn := RecordBatch(s.history.committedIn, ids[..k], |s.history.batches|)))
  }

  lemma GroupNext(s: State, hash: BtcHash, ids: seq<TransferId>, k: nat)
    requires k < |ids| && ids[k] in s.transfers
    ensures var g := Group(s, hash, ids, k);
      Group(s, hash, ids, k + 1) ==
        Move(g, ids[k], Sending).(history := g.history.(committedIn := g.history.committedIn[ids[k] := |s.history.batches|]))
    ensures Group(s, hash, ids, k + 1).log ==
      Group(s, hash, ids, k).log + [LogEntry(s.clock.(logIndex := s.clock.logIndex + 1 + k), StatusUpdated(ids[k], Sending))]
  {
    hide SetStatus;
    MoveNext(Emit(s, BatchSending(hash, |ids| % 256)), ids, k, Sending);
    assert ids[..k + 1] == ids[..k] + [ids[k]];
    assert RecordBatch(s.history.committedIn, ids[..k + 1], |s.history.batches|)
        == RecordBatch(s.history.committedIn, ids[..k], |s.history.batches|)[ids[k] := |s.history.batches|];
  }

  /** The lookup finds the group's own commitment as long as the eight-bit size reaches. */
  lemma GroupLookup(s: State, commitments: seq<CommitmentRow>, c: CommitmentRow, k: nat)
    requires CommitmentsMatch(s, commitments) && c.at == s.clock
    ensures FindCommitment(commitments + [c], s.clock.(logIndex := s.clock.logIndex + 1 + k))
         == if k < c.transferBatchSize then Some(c) else None
  {
    var at := s.clock.(logIndex := s.clock.logIndex + 1 + k);
    NothingCovers(commitments, at);
    assert (commitments + [c])[..|commitments|] == commitments;
  }

  /** One more update of the group, replayed. */
  lemma GroupStep(s: State, hash: BtcHash, ids: seq<TransferId>, k: nat, before: Database,
                  commitments: seq<CommitmentRow>, valid: BtcAddress -> bool)
    requires k < |ids| && ids[k] in s.transfers && CommitmentsMatch(s, commitments)
    requires before.commitments == commitments + [CommitmentRow(hash, |ids| % 256, s.clock)]
    requires RowsMatch(Group(s, hash, ids, k), before.transfers, valid)
    requires Replay(EMPTY_DATABASE, Group(s, hash, ids, k).log, valid) == Scanned(before)
    ensures var r := Replay(EMPTY_DATABASE, Group(s, hash, ids, k + 1).log, valid);
      if k < |ids| % 256 then
        && r.Scanned? && r.db.commitments == before.commitments
        && RowsMatch(Group(s, hash, ids, k + 1), r.db.transfers, valid)
      else r.Thrown?
  {
    var c := CommitmentRow(hash, |ids| % 256, s.clock);
    var g := Group(s, hash, ids, k);
    GroupNext(s, hash, ids, k);
    var entry := LogEntry(s.clock.(logIndex := s.clock.logIndex + 1 + k), StatusUpdated(ids[k], Sending));
    ReplayOne(EMPTY_DATABASE, g.log, entry, valid);
    GroupLookup(s, commitments, c, k);
    GroupRows(g, Group(s, hash, ids, k + 1), ids[k], hash, |s.history.batches|, before.transfers, valid);
  }

  lemma {:induction false} GroupMirrors(s: State, hash: BtcHash, ids: seq<TransferId>, k: nat, db: Database, valid: BtcAddress -> bool)
    returns (after: Database)
    requires Commitments(s) && AllHaveStatus(s, ids, New) && Mirrors(s, db, valid)
    requires Replay(EMPTY_DATABASE, s.log, valid) == Scanned(db) && !HasCommitment(db.commitments, hash)
    requires k <= |ids| && k <= |ids| % 256
    ensures Replay(EMPTY_DATABASE, Group(s, hash, ids, k).log, valid) == Scanned(after)
    ensures RowsMatch(Group(s, hash, ids, k), after.transfers, valid)
    ensures after.commitments == db.commitments + [CommitmentRow(hash, |ids| % 256, s.clock)]
  {
    if k == 0 {
      GroupStarts(s, hash, ids, db, valid);
      after := db.(commitments := db.commitments + [CommitmentRow(hash, |ids| % 256, s.clock)]);
    } else {
      var before := GroupMirrors(s, hash, ids, k - 1, db, valid);
      assert ids[k - 1] in ids;
      GroupStep(s, hash, ids, k - 1, before, db.commitments, valid);
      after := Replay(EMPTY_DATABASE, Group(s, hash, ids, k).log, valid).db;
    }
  }

  lemma GroupStarts(s: State, hash: BtcHash, ids: seq<TransferId>, db: Database, valid: BtcAddress -> bool)
    requires Commitments(s) && Mirrors(s, db, valid)
    requires Replay(EMPTY_DATABASE, s.log, valid) == Scanned(db) && !HasCommitment(db.commitments, hash)
    ensures var g := Group(s, hash, ids, 0);
      && Replay(EMPTY_DATABASE, g.log, valid)
         == Scanned(db.(commitments := db.commitments + [CommitmentRow(hash, |ids| % 256, s.clock)]))
      && RowsMatch(g, db.transfers, valid)
  {
    var g := Group(s, hash, ids, 0);
    var entry := LogEntry(s.clock, BatchSending(hash, |ids| % 256));
    ReplayOne(EMPTY_DATABASE, s.log, entry, valid);
    assert g.log == s.log + [entry];
    assert g.transfers == s.transfers;
    forall id | id in db.transfers ensures RowMatches(g, id, db.transfers[id], valid) {
      assert RowMatches(s, id, db.transfers[id], valid);
      assert CommittedHash(g, id) == CommittedHash(s, id);
    }
  }

  lemma GroupRows(g: State, h: State, id: TransferId, hash: BtcHash, index: nat,
                  rows: map<TransferId, TransferRow>, valid: BtcAddress -> bool)
    requires id in g.transfers && RowsMatch(g, rows, valid)
    requires h == Move(g, id, Sending).(history := g.history.(committedIn := g.history.committedIn[id := index]))
    requires index < |g.history.batches| && g.history.batches[index].bitcoinTxHash == hash
    ensures RowsMatch(h, rows[id := rows[id].(status := Sending, btcTransactionHash := Some(hash))], valid)
  {
    var after := rows[id := rows[id].(status := Sending, btcTransactionHash := Some(hash))];
    forall k | k in after ensures RowMatches(h, k, after[k], valid) {
      assert RowMatches(g, k, rows[k], valid);
    }
  }

  /** A batch of more than 255 transfers: the lookup fails at the first update the size does not reach. */
  lemma OversizedThrows(s: State, hash: BtcHash, ids: seq<TransferId>, db: Database, valid: BtcAddress -> bool)
    requires Commitments(s) && AllHaveStatus(s, ids, New) && Mirrors(s, db, valid)
    requires Replay(EMPTY_DATABASE, s.log, valid) == Scanned(db) && !HasCommitment(db.commitments, hash)
    requires |ids| > 255
    ensures Replay(EMPTY_DATABASE, Group(s, hash, ids, |ids|).log, valid).Thrown?
  {
    var k := |ids| % 256;
    var before := GroupMirrors(s, hash, ids, k, db, valid);
    assert ids[k] in ids;
    GroupStep(s, hash, ids, k, before, db.commitments, valid);
    GroupLogGrows(s, hash, ids, k + 1);
    ThrownStays(EMPTY_DATABASE, Group(s, hash, ids, k + 1).log, Group(s, hash, ids, |ids|).log, valid);
  }

  lemma GroupLogGrows(s: State, hash: BtcHash, ids: seq<TransferId>, k: nat)
    requires k <= |ids|
    ensures Group(s, hash, ids, k).log <= Group(s, hash, ids, |ids|).log
    ensures s.log <= Group(s, hash, ids, |ids|).log
  {
    var at := s.clock.(logIndex := s.clock.logIndex + 1);
    assert UpdateEntries(at, ids[..k], Sending) <= UpdateEntries(at, ids[..|ids|], Sending);
  }

  /** What markTransfersAsSending leaves in the log is the complete group. */
  lemma CommitIsGroup(s: State, hash: BtcHash, ids: seq<TransferId>)
    requires AllHaveStatus(s, ids, New)
    ensures var t := AfterCommit(s, hash, ids);
      t == Group(s, hash, ids, |ids|).(totalAdminWithdrawableRbtc := t.totalAdminWithdrawableRbtc)
  {
    assert ids[..|ids|] == ids;
  }

  lemma ReplayableGrows(batches: seq<Batch>, b: Batch)
    ensures Replayable(batches + [b]) <==>
      && Replayable(batches) && |b.ids| <= 255
      && forall i :: 0 <= i < |batches| ==> batches[i].bitcoinTxHash != b.bitcoinTxHash
  {
    var grown := batches + [b];
    assert forall i :: 0 <= i < |batches| ==> grown[i] == batches[i];
    assert grown[|batches|] == b;
  }

  /** A hash committed a second time: the unique index refuses the commitment. */
  lemma RepeatedThrows(s: State, hash: BtcHash, ids: seq<TransferId>, db: Database, valid: BtcAddress -> bool)
    requires Replay(EMPTY_DATABASE, s.log, valid) == Scanned(db) && HasCommitment(db.commitments, hash)
    ensures Replay(EMPTY_DATABASE, Group(s, hash, ids, |ids|).log, valid).Thrown?
  {
    var entry := LogEntry(s.clock, BatchSending(hash, |ids| % 256));
    ReplayOne(EMPTY_DATABASE, s.log, entry, valid);
    GroupLogGrows(s, hash, ids, 0);
    assert Group(s, hash, ids, 0).log == s.log + [entry];
    ThrownStays(EMPTY_DATABASE, s.log + [entry], Group(s, hash, ids, |ids|).log, valid);
  }

  /** A batch that fits, under a fresh hash. */
  lemma FittingShows(s: State, hash: BtcHash, ids: seq<TransferId>, db: Database, valid: BtcAddress -> bool)
    requires Commitments(s) && AllHaveStatus(s, ids, New) && Mirrors(s, db, valid) && |ids| <= 255
    requires Replay(EMPTY_DATABASE, s.log, valid) == Scanned(db) && !HasCommitment(db.commitments, hash)
    ensures var t := Group(s, hash, ids, |ids|);
      var r := Replay(EMPTY_DATABASE, t.log, valid);
      r.Scanned? && Mirrors(t, r.db, valid)
  {
    hide RowMatches, Replay;
    var t := Group(s, hash, ids, |ids|);
    var after := GroupMirrors(s, hash, ids, |ids|, db, valid);
    assert t.clock.logIndex == s.clock.logIndex + 1 + |ids| && t.clock.txHash == s.clock.txHash;
    assert t.history.batches == s.history.batches + [Batch(hash, ids)];
    assert CommitmentsMatch(t, after.commitments);
  }

  lemma CommitShows(s: State, hash: BtcHash, ids: seq<TransferId>, valid: BtcAddress -> bool)
    requires Commitments(s) && AllHaveStatus(s, ids, New) && ReplayShows(s, valid)
    ensures ReplayShows(Group(s, hash, ids, |ids|), valid)
  {
    var r := Replay(EMPTY_DATABASE, s.log, valid);
    var t := Group(s, hash, ids, |ids|);
    ReplayableGrows(s.history.batches, Batch(hash, ids));
    GroupLogGrows(s, hash, ids, 0);
    if r.Thrown? {
      ThrownStays(EMPTY_DATABASE, s.log, t.log, valid);
    } else if HasCommitment(r.db.commitments, hash) {
      RepeatedThrows(s, hash, ids, r.db, valid);
    } else if |ids| > 255 {
      OversizedThrows(s, hash, ids, r.db, valid);
    } else {
      FittingShows(s, hash, ids, r.db, valid);
    }
  }

  /** Book-keeping that is not part of the mirrored state. */
  lemma ShowsSame(s: State, t: State, valid: BtcAddress -> bool)
    requires ReplayShows(s, valid)
    requires t.log == s.log && t.history.batches == s.history.batches && t.transfers == s.transfers && t.history.committedIn == s.history.committedIn
    requires t.clock.txHash > s.clock.txHash || (t.clock.txHash == s.clock.txHash && t.clock.logIndex >= s.clock.logIndex)
    ensures ReplayShows(t, valid)
  {
    if Replayable(s.history.batches) {
      var db := Replay(EMPTY_DATABASE, s.log, valid).db;
      forall id | id in db.transfers ensures RowMatches(t, id, db.transfers[id], valid) {
        assert RowMatches(s, id, db.transfers[id], valid);
      }
    }
  }

  lemma DepositShows(s: State, step: Step, valid: BtcAddress -> bool)
    requires Fresh(s) && Commitments(s) && Enabled(s, step) && step.Deposit? && ReplayShows(s, valid)
    ensures ReplayShows(After(s, step), valid)
  {
    var t := After(s, step);
    ReplayOne(EMPTY_DATABASE, s.log, t.log[|s.log|], valid);
    assert t.log == s.log + [t.log[|s.log|]];
    if Replayable(s.history.batches) {
      DepositMirrors(s, step, Replay(EMPTY_DATABASE, s.log, valid).db, valid);
    }
  }

  lemma ShowsStep(s: State, step: Step, valid: BtcAddress -> bool)
    requires Fresh(s) && Commitments(s) && Enabled(s, step) && ReplayShows(s, valid)
    ensures ReplayShows(After(s, step), valid)
  {
    var t := After(s, step);
    match step
    case Deposit(_, _, _, _) => DepositShows(s, step, valid);
    case CommitBatch(hash, ids) =>
      CommitIsGroup(s, hash, ids);
      CommitShows(s, hash, ids, valid);
      ShowsSame(Group(s, hash, ids, |ids|), t, valid);
    case MineBatch(ids) =>
      MineShows(s, ids, |ids|, valid);
      assert ids[..|ids|] == ids;
    case PayReclaim(_, id) =>
      MoveShows(s, id, Reclaimed, valid);
      ShowsSame(Move(s, id, Reclaimed), t, valid);
    case PayRefund(id) =>
      MoveShows(s, id, Refunded, valid);
      ShowsSame(Move(s, id, Refunded), t, valid);
    case _ => ShowsSame(s, t, valid);
  }

  lemma {:induction false} ShowsLeads(s: State, steps: seq<Step>, t: State, valid: BtcAddress -> bool)
    requires Inv(s) && ReplayShows(s, valid) && Leads(s, steps, t)
    ensures ReplayShows(t, valid)
    decreases |steps|
  {
    if |steps| != 0 {
      InvStep(s, steps[0]);
      ShowsStep(s, steps[0], valid);
      ShowsLeads(After(s, steps[0]), steps[1..], t, valid);
    }
  }

  /** In every reachable state of the contract, replaying its log gives its own state when every
      batch fits and no hash repeats, and throws otherwise. */
  lemma ReplayRefines(s: State, valid: BtcAddress -> bool)
    requires Reachable(s)
    ensures ReplayShows(s, valid)
    ensures Replay(EMPTY_DATABASE, s.log, valid).Scanned? <==> Replayable(s.history.batches)
  {
    var first: State, steps: seq<Step> :| IsInitial(first) && Leads(first, steps, s);
    InitialInv(first);
    assert Mirrors(first, EMPTY_DATABASE, valid);
    ShowsLeads(first, steps, s, valid);
  }

  /** The entry that a row was made from. */
  predicate MadeFrom(row: TransferRow, id: TransferId, e: LogEntry) {
    && e.at == row.at
    && e.event == NewBitcoinTransfer(id, row.btcAddress, row.nonce, row.amountSatoshi, row.feeSatoshi, row.rskAddress)
  }

  /** Every row holds what a deposit in the log says: address, nonce, the amount without the fee, the fee, the owner, and
      where it is in the chain. */
  lemma {:induction false} RowsFromDeposits(entries: seq<LogEntry>, valid: BtcAddress -> bool, id: TransferId)
    requires Replay(EMPTY_DATABASE, entries, valid).Scanned?
    requires id in Replay(EMPTY_DATABASE, entries, valid).db.transfers
    ensures var row := Replay(EMPTY_DATABASE, entries, valid).db.transfers[id];
      exists i :: 0 <= i < |entries| && MadeFrom(row, id, entries[i])
  {
    hide FindCommitment;
    var n := |entries| - 1;
    var init, last := entries[..n], entries[n];
    var before := Replay(EMPTY_DATABASE, init, valid).db;
    if last.event.NewBitcoinTransfer? && last.event.id == id {
      assert MadeFrom(Replay(EMPTY_DATABASE, entries, valid).db.transfers[id], id, entries[n]);
    } else {
      RowsFromDeposits(init, valid, id);
      var i :| 0 <= i < n && MadeFrom(before.transfers[id], id, init[i]);
      assert MadeFrom(Replay(EMPTY_DATABASE, entries, valid).db.transfers[id], id, entries[i]);
    }
  }

  /** The signatures of the given signers on the commitment of an empty batch. */
  function QuorumOn(signers: seq<Address>, hash: BtcHash): (signatures: Signatures)
    ensures |signatures| == |signers|
  {
    seq(|signers|, i requires 0 <= i < |signers| => Signature(signers[i], BatchUpdateWithTxHash(Sending, hash, [])))
  }

  /** One call of markTransfersAsSending for an empty batch, accepted. */
  lemma EmptyCommit(s: State, sender: Address, signers: seq<Address>, hash: BtcHash)
    requires s.initialized && !s.config.frozen && sender in s.config.federators && IsQuorum(s.config.federators, signers)
    ensures var r := Exec(s, MarkTransfersAsSending(sender, hash, [], QuorumOn(signers, hash)));
      && r.Ok? && r.state.history.batches == s.history.batches + [Batch(hash, [])]
      && r.state.initialized && r.state.config == s.config
  {
    assert Recovered(BatchUpdateWithTxHash(Sending, hash, []), QuorumOn(signers, hash)) == signers;
  }

  /** Logs that cannot be replayed are reachable by calls: an admin marks the contract ready, and a quorum of federators
      commits one hash twice. */
  lemma UnreplayableReachable(first: State, admin: Address, sender: Address, signers: seq<Address>, hash: BtcHash, valid: BtcAddress -> bool)
    returns (s: State)
    requires IsInitial(first) && !first.config.frozen && admin in first.config.admins
    requires sender in first.config.federators && IsQuorum(first.config.federators, signers)
    ensures var commit := MarkTransfersAsSending(sender, hash, [], QuorumOn(signers, hash));
      s == RunCalls(first, [MarkReadyBy(admin), commit, commit])
    ensures Reachable(s) && Replay(EMPTY_DATABASE, s.log, valid).Thrown?
  {
    var commit := MarkTransfersAsSending(sender, hash, [], QuorumOn(signers, hash));
    var calls := [MarkReadyBy(admin), commit, commit];
    s := RunCalls(first, calls);
    InitialReachable(first);
    var steps := RunCallsIsFlat(first, calls);
    ReachableLeads(first, steps, s);
    CommittedTwice(first, admin, commit, sender, signers, hash);
    ReplayRefines(s, valid);
    assert s.history.batches[0].bitcoinTxHash == s.history.batches[1].bitcoinTxHash;
  }

  lemma CommittedTwice(first: State, admin: Address, commit: Call, sender: Address, signers: seq<Address>, hash: BtcHash)
    requires IsInitial(first) && !first.config.frozen && admin in first.config.admins
    requires sender in first.config.federators && IsQuorum(first.config.federators, signers)
    requires commit == MarkTransfersAsSending(sender, hash, [], QuorumOn(signers, hash))
    ensures RunCalls(first, [MarkReadyBy(admin), commit, commit]).history.batches == [Batch(hash, []), Batch(hash, [])]
  {
    var ready := Exec(first, MarkReadyBy(admin)).state;
    EmptyCommit(ready, sender, signers, hash);
    var once := Exec(ready, commit).state;
    EmptyCommit(once, sender, signers, hash);
    var twice := Exec(once, commit).state;
    hide Exec, IsQuorum, QuorumOn;
    assert [MarkReadyBy(admin), commit, commit][1..] == [commit, commit];
    assert [commit, commit][1..] == [commit] && [commit][1..] == [];
    assert RunCalls(twice, []) == twice;
    assert RunCalls(once, [commit]) == twice;
    assert RunCalls(ready, [commit, commit]) == twice;
  }
}
