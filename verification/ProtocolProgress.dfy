/** What gets done: when a node signs, in terms of the chain alone, and that every committed batch can be signed. */
module ProtocolProgress {
  import opened Base
  import opened TransferIds
  import opened Bitcoin
  import opened BridgeState
  import opened BridgeCalls
  import opened BridgeInvariants
  import opened BridgeTimeline
  import opened NodeDatabase
  import opened ScannerRefinement
  import opened NodeAgreement
  import opened Events
  import opened Scanner
  import opened Payout
  import opened TransferBatches
  import opened Validator
  import opened BatchService
  import opened NodeProgress
  import opened SignedPayouts
  import opened SigningConditions
  import opened ProtocolSystem
  import opened Protocol

  // ---- When a node signs ----

  lemma EvolvesSelf(s: State, t: State)
    requires t.transfers == s.transfers && t.log == s.log && t.history == s.history
    ensures Evolves(s, t)
  {
  }

  lemma LaterBlock(states: seq<State>, a: nat, b: nat)
    requires Timeline(states) && a <= b < |states|
    ensures Evolves(states[a], states[b]) && Reachable(states[a])
  {
    if a < b {
      assert Succeeds(states[a], states[b], a);
    } else {
      EvolvesSelf(states[a], states[a]);
    }
  }

  /** The latest mined block, and the one so many blocks before it, if there is one. */
  function ChainAt(sys: System, p: Params): (view: ChainView)
    requires |sys.states| >= 2
  {
    var latest := |sys.states| - 2;
    ChainView(sys.states[latest], if latest < p.confirmations then None else Some(sys.states[latest - p.confirmations]))
  }

  lemma NodeSees(sys: System, p: Params, valid: BtcAddress -> bool, n: PublicKey)
    requires SystemInv(sys, p, valid) && n in sys.nodes && |sys.states| >= 2
    ensures var node := sys.nodes[n].scanned;
      && 0 <= node.lastProcessedBlock < |sys.states|
      && var s := sys.states[node.lastProcessedBlock];
      && Reachable(s) && Follows(node.db, s, valid) && Sees(ChainAt(sys, p), s)
  {
    hide Reachable, Follows, Evolves, Timeline;
    assert NodeOk(sys.states, sys.nodes[n].scanned, p, valid);
    var latest := |sys.states| - 2;
    LaterBlock(sys.states, sys.nodes[n].scanned.lastProcessedBlock, latest);
    if latest >= p.confirmations {
      LaterBlock(sys.states, latest - p.confirmations, latest);
    }
  }

  /** In every run, a node can sign a transaction for a batch exactly if the contract has it committed, each of its transfers is
      SENDING at the latest block and was there so many blocks before, and the transaction pays it. */
  lemma RespondsExactly(run: seq<System>, actions: seq<Action>, p: Params, valid: BtcAddress -> bool, i: nat, n: PublicKey, dto: BatchDto)
    requires IsRun(run, actions, p, valid) && i < |run| && n in run[i].nodes && |run[i].states| >= 2
    requires GenuineDto(run[i].signatures, dto) && LoadFromDto(run[i].nodes[n].scanned.db, dto).Some?
    ensures var sys, node, ids := run[i], run[i].nodes[n].scanned, dto.transferIds;
      0 <= node.lastProcessedBlock < |sys.states| &&
      (CanHappen(sys, Respond(n, dto), p) <==>
        && ids != []
        && AllShow(node.db, ids, {Sending, Mined})
        && Checks(node.db, ids, LoadFromDto(node.db, dto).value, Some(Sending), ChainAt(sys, p), p.changeAddress)
        && CommittedAs(sys.states[node.lastProcessedBlock], ids, dto.bitcoinTransactionHash))
  {
    hide IsRun, SystemInv, Reachable, Follows, Sees, SigningValid, Checks, CommittedAs, GenuineDto, LoadFromDto;
    RunInv(run, actions, p, valid, i);
    var sys, node := run[i], run[i].nodes[n].scanned;
    NodeSees(sys, p, valid, n);
    SigningExactly(node.db, sys.states[node.lastProcessedBlock], dto, ChainAt(sys, p), p.changeAddress, valid);
    assert View(sys, p) == ChainAt(sys, p);
  }

  /** A transaction in the block being built has the effect of its call, and every block before stays as it is. */
  lemma TransactRuns(sys: System, call: Call, p: Params, valid: BtcAddress -> bool)
    requires |sys.states| > 0
    ensures var r, s := Next(sys, Transact(call), p, valid), Now(sys);
      var started := s.(clock := s.clock.(txHash := s.clock.txHash + 1, txIndex := s.clock.txIndex + 1));
      && |r.states| == |sys.states| && r.states[..|sys.states| - 1] == sys.states[..|sys.states| - 1]
      && Now(r) == if Exec(started, call).Ok? then Exec(started, call).state else started
  {
    hide Exec;
  }

  /** A scan brings a node to the latest confirmed block, or fails and leaves everything as it is. */
  lemma ScanReachesConfirmed(sys: System, n: PublicKey, p: Params, valid: BtcAddress -> bool)
    requires CanHappen(sys, Scan(n), p)
    ensures var r, before := Next(sys, Scan(n), p, valid), sys.nodes[n].scanned.lastProcessedBlock;
      var confirmed := |sys.states| - 2 - p.confirmations;
      r == sys || r.nodes[n].scanned.lastProcessedBlock == if confirmed > before then confirmed else before
  {
    hide Replay, InRange;
  }

  // ---- A committed batch can be signed ----

  /** A run that only mines blocks. */
  lemma {:induction false} Wait(run: seq<System>, actions: seq<Action>, p: Params, valid: BtcAddress -> bool, k: nat)
    returns (longer: seq<System>, more: seq<Action>)
    requires IsRun(run, actions, p, valid) && |run[|actions|].states| > 0
    ensures IsRun(longer, more, p, valid) && run <= longer && |more| == |actions| + k
    ensures var sys, end := run[|actions|], longer[|more|];
      && end == sys.(states := end.states)
      && |end.states| == |sys.states| + k && end.states[..|sys.states|] == sys.states
      && forall b :: |sys.states| - 1 <= b < |end.states| ==> end.states[b] == Now(sys).(clock := end.states[b].clock)
  {
    hide IsRun;
    RunLength(run, actions, p, valid);
    if k == 0 {
      longer, more := run, actions;
      assert run[|actions|].states[..|run[|actions|].states|] == run[|actions|].states;
    } else {
      var before, done := Wait(run, actions, p, valid, k - 1);
      RunLength(before, done, p, valid);
      var last := before[|done|];
      RunExtends(before, done, MineBlock, p, valid);
      longer, more := before + [Next(last, MineBlock, p, valid)], done + [MineBlock];
      assert longer[|more|] == Next(last, MineBlock, p, valid);
    }
  }

  lemma ReplaysOn(states: seq<State>, db: Database, low: nat, high: nat, now: nat, valid: BtcAddress -> bool)
    requires Timeline(states) && low <= high <= now < |states| && Mirrored(db, states[low], valid)
    ensures Replay(db, InRange(states[now].log, low + 1, high), valid) == Replay(EMPTY_DATABASE, states[high].log, valid)
  {
    hide Timeline, Replay, InRange;
    RangeIsDifference(states, low, high, now);
    ReplayConcat(EMPTY_DATABASE, states[low].log, InRange(states[now].log, low + 1, high), valid);
  }

  lemma ScannedReplays(s: State, valid: BtcAddress -> bool)
    requires Reachable(s) && Replayable(s.history.batches)
    ensures Replay(EMPTY_DATABASE, s.log, valid).Scanned?
  {
    hide Reachable;
    ReplayRefines(s, valid);
  }

  /** A node without statuses of its own writing scans up to a state whose log can be replayed. */
  lemma ScanSucceeds(states: seq<State>, node: NodeState, high: nat, now: nat, confirmations: nat, valid: BtcAddress -> bool)
    requires Timeline(states) && 0 <= node.lastProcessedBlock < high == now - confirmations && now < |states|
    requires Mirrored(node.db, states[node.lastProcessedBlock], valid) && Replayable(states[high].history.batches)
    ensures var r := ScanStep(node, states[now].log, now, confirmations, valid);
      r.Some? && r.value.lastProcessedBlock == high && Mirrored(r.value.db, states[high], valid)
  {
    hide Timeline, Reachable, Replayable, Evolves, Replay, InRange;
    LaterBlock(states, high, now);
    ReplaysOn(states, node.db, node.lastProcessedBlock, high, now, valid);
    ScannedReplays(states[high], valid);
  }

  lemma MirroredShows(db: Database, s: State, ids: seq<TransferId>, valid: BtcAddress -> bool)
    requires Reachable(s) && Mirrored(db, s, valid) && forall id :: id in ids ==> HasStatus(s, id, Sending)
    ensures Follows(db, s, valid)
    ensures forall id :: id in ids ==>
      && id in db.transfers && id in s.transfers && db.transfers[id].status == Sending
      && KeyOfRow(db.transfers[id]) == KeyOfTransfer(s.transfers[id])
  {
    WrittenNothing(db);
    hide Reachable, Replay;
    assert Follows(db, s, valid);
    forall id | id in ids
      ensures id in db.transfers && id in s.transfers && db.transfers[id].status == Sending
      ensures KeyOfRow(db.transfers[id]) == KeyOfTransfer(s.transfers[id])
    {
      StatusKnown(db, s, id, valid);
      StatusOnChain(db, s, id, valid);
      FollowsMatches(db, s, id, valid);
    }
  }

  lemma WrittenNothing(db: Database)
    ensures Agrees(db, db)
  {
  }

  /** The keys of the transfers, in order. */
  function KeysOf(s: State, ids: seq<TransferId>): (keys: seq<Key>)
    requires forall id :: id in ids ==> id in s.transfers
    ensures |keys| == |ids|
    ensures forall i :: 0 <= i < |keys| ==> keys[i] == KeyOfTransfer(s.transfers[ids[i]])
  {
    seq(|ids|, i requires 0 <= i < |ids| => KeyOfTransfer(s.transfers[ids[i]]))
  }

  /** A system in which the node has scanned the block that is the latest confirmed one, with the batch committed there. */
  lemma NodeCanSign(sys: System, n: PublicKey, p: Params, valid: BtcAddress -> bool, ids: seq<TransferId>, payment: Psbt,
                    inputs: seq<OutPoint>, pays: seq<BtcTransfer>, change: int, required: nat) returns (dto: BatchDto)
    requires SystemInv(sys, p, valid) && n in sys.nodes
    requires var seen := sys.nodes[n].scanned.lastProcessedBlock;
      && 0 <= seen && seen + p.confirmations == |sys.states| - 2
      && var s := sys.states[seen];
      && Mirrored(sys.nodes[n].scanned.db, s, valid)
      && (forall id :: id in ids ==> HasStatus(s, id, Sending) && HasStatus(sys.states[|sys.states| - 2], id, Sending))
      && ids != [] && NoDuplicates(ids) && Keys(pays) == KeysOf(s, ids)
      && payment == Payment(inputs, pays, p.changeAddress, change, required) && CommittedAs(s, ids, Some(HashOf(payment.tx)))
    ensures CanHappen(sys, Respond(n, dto), p) && dto.initialBtcTransaction == payment
  {
    hide SystemInv, Reachable, Mirrored, Sees, CommittedAs, SigningValid, Payment, Timeline, KeysOf, Payable;
    var node, s := sys.nodes[n].scanned, sys.states[sys.nodes[n].scanned.lastProcessedBlock];
    NodeSees(sys, p, valid, n);
    MirroredShows(node.db, s, ids, valid);
    hide Follows;
    var transfers := LoadTransfers(node.db, ids);
    assert Keys(pays) == BatchKeys(transfers);
    dto := DtoOf(FreshBatch(transfers, payment));
    assert View(sys, p) == ChainAt(sys, p);
    BuiltBatchIsSigned(node.db, s, ids, payment, inputs, pays, change, required, ChainAt(sys, p), p.changeAddress, valid);
    NothingListed(inputs, pays, p.changeAddress, change, required);
    hide LoadFromDto, LoadTransfers;
    RespondHappens(sys, n, dto, p);
  }

  lemma RespondHappens(sys: System, n: PublicKey, dto: BatchDto, p: Params)
    requires n in sys.nodes && |sys.states| >= 2 && LoadFromDto(sys.nodes[n].scanned.db, dto).Some?
    requires dto.initialBtcTransaction.signedPublicKeys == [] && dto.signedBtcTransaction.None?
    requires SigningValid(LoadFromDto(sys.nodes[n].scanned.db, dto).value, View(sys, p), p.changeAddress)
    ensures CanHappen(sys, Respond(n, dto), p)
  {
    hide SigningValid, LoadFromDto;
  }

  lemma NothingListed(inputs: seq<OutPoint>, pays: seq<BtcTransfer>, changeAddress: BtcAddress, change: int, required: nat)
    ensures Payment(inputs, pays, changeAddress, change, required).signedPublicKeys == []
  {
  }

  /** Every committed batch gets signed: in any run, when a payout of transfers that are SENDING has been committed in the contract
      and the log can be replayed, any node that has not written statuses ahead signs it after so many blocks, one
      scan and one message, whatever the amounts. */
  lemma CommittedIsSigned(run: seq<System>, actions: seq<Action>, p: Params, valid: BtcAddress -> bool, n: PublicKey, ids: seq<TransferId>,
                          payment: Psbt, inputs: seq<OutPoint>, pays: seq<BtcTransfer>, change: int, required: nat)
    returns (longer: seq<System>, more: seq<Action>)
    requires IsRun(run, actions, p, valid)
    requires var sys := run[|actions|];
      && n in sys.nodes && |sys.states| > 0 && 0 <= sys.nodes[n].scanned.lastProcessedBlock < |sys.states|
      && Mirrored(sys.nodes[n].scanned.db, sys.states[sys.nodes[n].scanned.lastProcessedBlock], valid)
      && var s := Now(sys);
      && Replayable(s.history.batches)
      && ids != [] && NoDuplicates(ids) && (forall id :: id in ids ==> HasStatus(s, id, Sending))
      && Keys(pays) == KeysOf(s, ids) && payment == Payment(inputs, pays, p.changeAddress, change, required)
      && CommittedAs(s, ids, Some(HashOf(payment.tx)))
    ensures IsRun(longer, more, p, valid) && run <= longer && |more| == |actions| + p.confirmations + 3
    ensures (n, payment.tx) in longer[|more|].checked && (n, payment.tx) in longer[|more|].signatures
  {
    hide IsRun, SystemInv, Mirrored, Replayable, CommittedAs, Payment, CanHappen, Next;
    RunLength(run, actions, p, valid);
    var sys := run[|actions|];
    var high := |sys.states| - 1;
    longer, more := Wait(run, actions, p, valid, p.confirmations + 1);
    RunLength(longer, more, p, valid);
    var waited := longer[|more|];
    RunInv(run, actions, p, valid, |actions|);
    RunInv(longer, more, p, valid, |more|);
    assert waited.states[high] == sys.states[high];
    ScanFirst(sys, waited, n, p, valid);
    RunExtends(longer, more, Scan(n), p, valid);
    longer, more := longer + [Next(waited, Scan(n), p, valid)], more + [Scan(n)];
    RunLength(longer, more, p, valid);
    var scanned := longer[|more|];
    RunInv(longer, more, p, valid, |more|);
    SameBatch(Now(sys), waited.states[|waited.states| - 2], ids);
    var dto := NodeCanSign(scanned, n, p, valid, ids, payment, inputs, pays, change, required);
    RunExtends(longer, more, Respond(n, dto), p, valid);
    Signs(scanned, n, dto, p, valid);
    longer, more := longer + [Next(scanned, Respond(n, dto), p, valid)], more + [Respond(n, dto)];
  }

  lemma SameBatch(s: State, t: State, ids: seq<TransferId>)
    requires t == s.(clock := t.clock) && forall id :: id in ids ==> HasStatus(s, id, Sending)
    ensures forall id :: id in ids ==> HasStatus(t, id, Sending)
  {
  }

  /** After the wait, the scan reaches the state in which the wait began. */
  lemma ScanFirst(sys: System, waited: System, n: PublicKey, p: Params, valid: BtcAddress -> bool)
    requires SystemInv(sys, p, valid) && SystemInv(waited, p, valid) && n in sys.nodes && |sys.states| > 0
    requires waited == sys.(states := waited.states) && |waited.states| == |sys.states| + p.confirmations + 1
    requires waited.states[..|sys.states|] == sys.states && Replayable(Now(sys).history.batches)
    requires 0 <= sys.nodes[n].scanned.lastProcessedBlock < |sys.states|
    requires Mirrored(sys.nodes[n].scanned.db, sys.states[sys.nodes[n].scanned.lastProcessedBlock], valid)
    ensures CanHappen(waited, Scan(n), p)
    ensures var r := Next(waited, Scan(n), p, valid);
      && n in r.nodes && r.states == waited.states
      && r.nodes[n].scanned.lastProcessedBlock == |sys.states| - 1
      && Mirrored(r.nodes[n].scanned.db, Now(sys), valid)
  {
    hide Timeline, Mirrored, Replayable, SignaturesOk, StoredOk, Follows;
    var node, low, high := sys.nodes[n].scanned, sys.nodes[n].scanned.lastProcessedBlock, |sys.states| - 1;
    assert NodeOk(sys.states, sys.nodes[n].scanned, p, valid);
    assert waited.states[low] == waited.states[..|sys.states|][low];
    assert waited.states[high] == waited.states[..|sys.states|][high];
    ScanSucceeds(waited.states, node, high, waited.LatestBlock(), p.confirmations, valid);
    hide ScanStep;
  }

  lemma Signs(sys: System, n: PublicKey, dto: BatchDto, p: Params, valid: BtcAddress -> bool)
    requires CanHappen(sys, Respond(n, dto), p)
    ensures var r := Next(sys, Respond(n, dto), p, valid);
      (n, dto.initialBtcTransaction.tx) in r.checked && (n, dto.initialBtcTransaction.tx) in r.signatures
  {
    hide SigningValid, Saved;
  }
}
