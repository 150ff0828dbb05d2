/** The tables of a federator node that mirror the chain, and what one event does to them. */
module NodeDatabase {
  import opened Base
  import opened TransferIds
  import opened Bitcoin
  import opened AccessControl
  import opened BridgeState

  datatype TransferRow = TransferRow(
    status: Status,
    btcAddress: BtcAddress,
    nonce: nat,
    amountSatoshi: nat,
    feeSatoshi: nat,
    rskAddress: Address,
    at: Clock,
    btcTransactionHash: Option<BtcHash>)  // None is the empty string of the source
  {
    function TotalAmountSatoshi(): nat { amountSatoshi + feeSatoshi }
  }

  datatype CommitmentRow = CommitmentRow(btcTransactionHash: BtcHash, transferBatchSize: nat, at: Clock)

  datatype Database = Database(transfers: map<TransferId, TransferRow>, commitments: seq<CommitmentRow>)

  const EMPTY_DATABASE: Database := Database(map[], [])

  datatype ScanResult = Scanned(db: Database) | Thrown

  /** The commitment was logged in the same transaction, at most its batch size before `at`. */
  predicate Covers(c: CommitmentRow, at: Clock) {
    && c.at.txHash == at.txHash && c.at.txIndex == at.txIndex
    && c.at.logIndex < at.logIndex <= c.at.logIndex + c.transferBatchSize
  }

  /** The covering commitment with the greatest log index. */
  function FindCommitment(commitments: seq<CommitmentRow>, at: Clock): (r: Option<CommitmentRow>) {
    if |commitments| == 0 then None
    else
      var rest := FindCommitment(commitments[..|commitments| - 1], at);
      var last := commitments[|commitments| - 1];
      if Covers(last, at) && (rest.None? || rest.value.at.logIndex <= last.at.logIndex) then Some(last) else rest
  }

  predicate HasCommitment(commitments: seq<CommitmentRow>, hash: BtcHash) {
    exists i :: 0 <= i < |commitments| && commitments[i].btcTransactionHash == hash
  }

  function NewRow(entry: LogEntry, valid: BtcAddress -> bool): (row: TransferRow)
    requires entry.event.NewBitcoinTransfer?
  {
    var e := entry.event;
    TransferRow(if valid(e.btcAddress) then New else Invalid, e.btcAddress, e.nonce,
                e.amountSatoshi, e.feeSatoshi, e.rskAddress, entry.at, None)
  }

  /** The effect of one event on the tables; Thrown stands for an exception or a refused write. */
  function Apply(db: Database, entry: LogEntry, valid: BtcAddress -> bool): (r: ScanResult) {
    match entry.event
    case NewBitcoinTransfer(id, _, _, _, _, _) =>
      if id in db.transfers then Thrown
      else Scanned(db.(transfers := db.transfers[id := NewRow(entry, valid)]))
    case StatusUpdated(id, newStatus) =>
      if id !in db.transfers then Thrown
      else if newStatus != Sending then
        Scanned(db.(transfers := db.transfers[id := db.transfers[id].(status := newStatus)]))
      else
        var commitment := FindCommitment(db.commitments, entry.at);
        if commitment.None? then Thrown
        else Scanned(db.(transfers := db.transfers[id := db.transfers[id].(
                           status := newStatus, btcTransactionHash := Some(commitment.value.btcTransactionHash))]))
    case BatchSending(hash, size) =>
      if HasCommitment(db.commitments, hash) then Thrown
      else Scanned(db.(commitments := db.commitments + [CommitmentRow(hash, size, entry.at)]))
  }

  function Replay(db: Database, entries: seq<LogEntry>, valid: BtcAddress -> bool): (r: ScanResult) {
    if |entries| == 0 then Scanned(db)
    else
      var r := Replay(db, entries[..|entries| - 1], valid);
      if r.Thrown? then Thrown else Apply(r.db, entries[|entries| - 1], valid)
  }

  function Then(r: ScanResult, entries: seq<LogEntry>, valid: BtcAddress -> bool): (q: ScanResult) {
    if r.Thrown? then Thrown else Replay(r.db, entries, valid)
  }

  /** A status that a node writes after its own transaction, without the scanner. */
  function Written(db: Database, ids: set<TransferId>, status: Status): (r: Database) {
    db.(transfers := map id | id in db.transfers ::
          if id in ids then db.transfers[id].(status := status) else db.transfers[id])
  }

  /** Replaying in two parts is replaying in one. */
  lemma {:induction false} ReplayConcat(db: Database, a: seq<LogEntry>, b: seq<LogEntry>, valid: BtcAddress -> bool)
    ensures Replay(db, a + b, valid) == Then(Replay(db, a, valid), b, valid)
  {
    if |b| == 0 {
      assert a + b == a;
    } else {
      var init := b[..|b| - 1];
      ReplayConcat(db, a, init, valid);
      assert (a + b)[..|a + b| - 1] == a + init;
    }
  }

  lemma ThrownStays(db: Database, a: seq<LogEntry>, b: seq<LogEntry>, valid: BtcAddress -> bool)
    requires a <= b && Replay(db, a, valid).Thrown?
    ensures Replay(db, b, valid).Thrown?
  {
    ReplayConcat(db, a, b[|a|..], valid);
    assert b == a + b[|a|..];
  }

  lemma ReplayOne(db: Database, entries: seq<LogEntry>, entry: LogEntry, valid: BtcAddress -> bool)
    ensures var r := Replay(db, entries, valid);
      Replay(db, entries + [entry], valid) == if r.Thrown? then Thrown else Apply(r.db, entry, valid)
  {
    assert (entries + [entry])[..|entries|] == entries;
  }

  lemma {:induction false} NothingCovers(commitments: seq<CommitmentRow>, at: Clock)
    requires forall i :: 0 <= i < |commitments| ==> !Covers(commitments[i], at)
    ensures FindCommitment(commitments, at).None?
  {
    if |commitments| > 0 {
      NothingCovers(commitments[..|commitments| - 1], at);
    }
  }
}
