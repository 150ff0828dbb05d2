/** The whole system: the contract block by block, nodes that scan, store batches and sign, and the
    signatures that exist; and what each of its actions keeps. */
module ProtocolSystem {
  import opened Base
  import opened TransferIds
  import opened Bitcoin
  import opened BridgeState
  import opened BridgeCalls
  import opened BridgeInvariants
  import opened BridgeTimeline
  import opened NodeDatabase
  import opened NodeAgreement
  import opened Events
  import opened Scanner
  import opened Payout
  import opened TransferBatches
  import opened Validator
  import opened BatchService
  import opened BitcoinSignatures
  import opened NodeIteration
  import opened SignedPayouts

  // ---- The system ----

  datatype Params = Params(startBlock: nat, confirmations: nat, changeAddress: BtcAddress)

  type SignedBy = (PublicKey, UnsignedTx)

  datatype Node = Node(scanned: NodeState, stored: seq<StoredBatch>)

  /** `checked` are the signatures that nodes gave after validation, as responders; `signatures` are all that
      exist, including the initiators' own; `alone` are the transactions that some initiator signed on
      its own, when all it got were responses without a signature. */
  datatype System = System(
    states: seq<State>,
    nodes: map<PublicKey, Node>,
    checked: set<SignedBy>,
    signatures: set<SignedBy>,
    alone: set<UnsignedTx>)
  {
    /** The latest mined block; the one after it is being built. */
    function LatestBlock(): int { |states| - 2 }
  }

  datatype Action =
    | Transact(call: Call)
    | MineBlock
    | Scan(node: PublicKey)
    | WriteStatuses(node: PublicKey, ids: set<TransferId>, status: Status)
    | Respond(node: PublicKey, dto: BatchDto)
    | Accept(node: PublicKey, dto: BatchDto, expectedStatus: Option<Status>, requireSigned: bool)
    | Purge(node: PublicKey, ids: set<TransferId>)
    | Rebuild(node: PublicKey, ids: set<TransferId>, batch: TransferBatch)
    | Update(me: Settings, batch: TransferBatch, responses: Responses, outside: Outside)

  /** A transaction with the call in it, successful or reverted. */
  function AfterCall(s: State, call: Call): (t: State) {
    var started := After(s, NextTransaction);
    var r := Exec(started, call);
    if r.Ok? then r.state else started
  }

  function View(sys: System, p: Params): (view: ChainView)
    requires sys.LatestBlock() >= 0
  {
    var earlier := sys.LatestBlock() - p.confirmations;
    ChainView(sys.states[sys.LatestBlock()], if earlier < 0 then None else Some(sys.states[earlier]))
  }

  /** The keys listed in a transaction that is sent around or stored have signed it. */
  predicate Genuine(signatures: set<SignedBy>, psbt: Psbt) {
    forall k :: k in psbt.signedPublicKeys ==> (k, psbt.tx) in signatures
  }

  predicate GenuineDto(signatures: set<SignedBy>, dto: BatchDto) {
    && Genuine(signatures, dto.initialBtcTransaction)
    && (dto.signedBtcTransaction.Some? ==> Genuine(signatures, dto.signedBtcTransaction.value))
  }

  predicate GenuineBatch(signatures: set<SignedBy>, b: TransferBatch) {
    && Genuine(signatures, b.initialBtcTransaction)
    && (b.signedBtcTransaction.Some? ==>
          && b.signedBtcTransaction.value.tx == b.initialBtcTransaction.tx
          && Genuine(signatures, b.signedBtcTransaction.value))
  }

  /** A batch around a transaction this node has just built, which nobody has signed. */
  predicate IsFresh(b: TransferBatch) {
    b == FreshBatch(b.transfers, b.initialBtcTransaction) && b.initialBtcTransaction.signedPublicKeys == []
  }

  /** getCurrentTransferBatch: one of the stored batches, loaded again, or a fresh one. */
  predicate OwnBatch(node: Node, b: TransferBatch) {
    || IsFresh(b)
    || exists i :: 0 <= i < |node.stored| && LoadFromDto(node.scanned.db, DtoOf(node.stored[i].batch)) == Some(b)
  }

  ghost predicate CanHappen(sys: System, a: Action, p: Params) {
    match a
    case Transact(call) => |sys.states| > 0
    case MineBlock => |sys.states| > 0
    case Scan(n) => n in sys.nodes && sys.LatestBlock() >= 0
    case WriteStatuses(n, ids, status) => n in sys.nodes
    case Respond(n, dto) =>
      && n in sys.nodes && sys.LatestBlock() >= 0 && GenuineDto(sys.signatures, dto)
      && LoadFromDto(sys.nodes[n].scanned.db, dto).Some?
      && SigningValid(LoadFromDto(sys.nodes[n].scanned.db, dto).value, View(sys, p), p.changeAddress)
    case Accept(n, dto, expectedStatus, requireSigned) =>
      && n in sys.nodes && sys.LatestBlock() >= 0 && GenuineDto(sys.signatures, dto)
      && LoadFromDto(sys.nodes[n].scanned.db, dto).Some?
      && BatchValid(LoadFromDto(sys.nodes[n].scanned.db, dto).value, expectedStatus, requireSigned, View(sys, p), p.changeAddress)
    case Purge(n, ids) => n in sys.nodes
    case Rebuild(n, ids, batch) => n in sys.nodes && IsFresh(batch)
    case Update(me, batch, responses, outside) =>
      && me.publicKey in sys.nodes && OwnBatch(sys.nodes[me.publicKey], batch)
      && (forall r :: r in responses.bitcoin ==> Genuine(sys.signatures, r))
      && Updated(batch, responses, me, outside).Some?
  }

  function Store(sys: System, n: PublicKey, stored: seq<StoredBatch>): (r: System)
    requires n in sys.nodes
  {
    sys.(nodes := sys.nodes[n := sys.nodes[n].(stored := stored)])
  }

  function SetScanned(sys: System, n: PublicKey, scanned: NodeState): (r: System)
    requires n in sys.nodes
  {
    sys.(nodes := sys.nodes[n := sys.nodes[n].(scanned := scanned)])
  }

  function SignaturesOn(b: TransferBatch): (r: set<SignedBy>) {
    var now := Current(b.initialBtcTransaction, b.signedBtcTransaction);
    set k | k in now.signedPublicKeys :: (k, now.tx)
  }

  /** An initiator's update in which it signs a transaction that nobody else has signed. */
  predicate IsLone(a: Action) {
    a.Update? && SignsAlone(a.batch, a.responses) && a.batch.initialBtcTransaction.signedPublicKeys == []
  }

  ghost function Next(sys: System, a: Action, p: Params, valid: BtcAddress -> bool): (r: System)
    requires CanHappen(sys, a, p)
  {
    match a
    case Transact(call) =>
      var last := |sys.states| - 1;
      sys.(states := sys.states[last := AfterCall(sys.states[last], call)])
    case MineBlock =>
      sys.(states := sys.states + [After(sys.states[|sys.states| - 1], NextBlock)])
    case Scan(n) =>
      var now := sys.LatestBlock();
      var r := ScanStep(sys.nodes[n].scanned, sys.states[now].log, now, p.confirmations, valid);
      if r.None? then sys else SetScanned(sys, n, r.value)
    case WriteStatuses(n, ids, status) =>
      SetScanned(sys, n, sys.nodes[n].scanned.(db := Written(sys.nodes[n].scanned.db, ids, status)))
    case Respond(n, dto) =>
      var tx := dto.initialBtcTransaction.tx;
      Store(sys, n, Saved(sys.nodes[n].stored, LoadFromDto(sys.nodes[n].scanned.db, dto).value)).(
        checked := sys.checked + {(n, tx)}, signatures := sys.signatures + {(n, tx)})
    case Accept(n, dto, _, _) =>
      Store(sys, n, Saved(sys.nodes[n].stored, LoadFromDto(sys.nodes[n].scanned.db, dto).value))
    case Purge(n, ids) => Store(sys, n, Removed(sys.nodes[n].stored, ids))
    case Rebuild(n, ids, batch) => Store(sys, n, Saved(Removed(sys.nodes[n].stored, ids), batch))
    case Update(me, batch, responses, outside) =>
      var c := Updated(batch, responses, me, outside).value;
      var stored := sys.nodes[me.publicKey].stored;
      Store(sys, me.publicKey, if responses == Responses([], [], []) then stored else Saved(stored, c)).(
        signatures := sys.signatures + SignaturesOn(c),
        alone := if IsLone(a) then sys.alone + {batch.initialBtcTransaction.tx} else sys.alone)
  }

  /** Before the start block nothing has happened; every node starts with empty tables there. */
  ghost predicate Init(sys: System, p: Params) {
    && p.startBlock >= 1
    && |sys.states| == p.startBlock + 1
    && IsInitial(sys.states[p.startBlock])
    && (forall b :: 0 <= b <= p.startBlock ==>
          sys.states[b] == sys.states[p.startBlock].(clock := sys.states[b].clock)
          && sys.states[b].clock.block == b && sys.states[b].clock.logIndex == 0)
    && (forall n :: n in sys.nodes ==> sys.nodes[n] == Node(NodeState(EMPTY_DATABASE, p.startBlock - 1), []))
    && sys.checked == {} && sys.signatures == {} && sys.alone == {}
  }

  // ---- The invariant ----

  /** The node follows the contract up to the end of a block, a confirmed one unless it has not scanned yet. */
  ghost predicate NodeOk(states: seq<State>, node: NodeState, p: Params, valid: BtcAddress -> bool) {
    && p.startBlock - 1 <= node.lastProcessedBlock <= |states| - 2
    && 0 <= node.lastProcessedBlock
    && (node.lastProcessedBlock == p.startBlock - 1 || node.lastProcessedBlock <= |states| - 2 - p.confirmations)
    && Follows(node.db, states[node.lastProcessedBlock], valid)
  }

  /** Every stored batch has one transaction, and its listed keys have signed it. */
  ghost predicate StoredOk(signatures: set<SignedBy>, stored: seq<StoredBatch>) {
    forall e :: e in stored ==> GenuineBatch(signatures, e.batch)
  }

  /** Checked signatures are on transactions that pay a committed batch; any other signature is on a transaction
      with a checked one, or on one that an initiator signed alone. */
  ghost predicate SignaturesOk(now: State, checked: set<SignedBy>, signatures: set<SignedBy>, alone: set<UnsignedTx>) {
    && checked <= signatures
    && (forall g :: g in checked ==> PaysSomeBatch(now, g.1))
    && (forall g :: g in signatures ==> g.1 in alone || exists n :: (n, g.1) in checked)
  }

  ghost predicate SystemInv(sys: System, p: Params, valid: BtcAddress -> bool) {
    && Timeline(sys.states)
    && (forall n :: n in sys.nodes ==> NodeOk(sys.states, sys.nodes[n].scanned, p, valid))
    && (forall n :: n in sys.nodes ==> StoredOk(sys.signatures, sys.nodes[n].stored))
    && SignaturesOk(sys.states[|sys.states| - 1], sys.checked, sys.signatures, sys.alone)
  }

  lemma InitInv(sys: System, p: Params, valid: BtcAddress -> bool)
    requires Init(sys, p)
    ensures SystemInv(sys, p, valid)
  {
    var states := sys.states;
    forall b | 0 <= b < |states| ensures Reachable(states[b]) {
      InitialReachable(states[b]);
    }
    forall b, c | 0 <= b < c < |states| ensures Succeeds(states[b], states[c], b) {
      assert Evolves(states[b], states[c]);
    }
    assert Replay(EMPTY_DATABASE, [], valid) == Scanned(EMPTY_DATABASE);
  }

  /** A transaction is a run of steps of the contract inside the current block. */
  lemma CallIsFlat(s: State, call: Call) returns (steps: seq<Step>)
    ensures Leads(s, steps, AfterCall(s, call))
    ensures AfterCall(s, call).clock.block == s.clock.block
  {
    var started := After(s, NextTransaction);
    var first := Single(s, NextTransaction);
    var r := Exec(started, call);
    if r.Ok? {
      var rest := ExecIsFlat(started, call);
      LeadsConcat(s, first, started, rest, r.state);
      SameBlock(started, rest, r.state);
      steps := first + rest;
    } else {
      steps := first;
    }
  }

  /** When the contract moves on, signed transactions go on paying the batch they paid. */
  lemma SignaturesStayOk(s: State, t: State, checked: set<SignedBy>, signatures: set<SignedBy>, alone: set<UnsignedTx>)
    requires Inv(s) && Evolves(s, t) && SignaturesOk(s, checked, signatures, alone)
    ensures SignaturesOk(t, checked, signatures, alone)
  {
    hide Inv, Evolves, PaysBatch;
    forall g | g in checked ensures PaysSomeBatch(t, g.1) {
      var b: nat :| PaysBatch(s, b, g.1);
      PaysBatchStays(s, t, b, g.1);
    }
  }

  /** The states at the ends of mined blocks stay as they are, and so do the nodes that scanned them. */
  lemma NodesStayOk(sys: System, later: System, p: Params, valid: BtcAddress -> bool)
    requires |sys.states| > 0 && |later.states| >= |sys.states| && later.nodes == sys.nodes
    requires forall b :: 0 <= b < |sys.states| - 1 ==> later.states[b] == sys.states[b]
    requires forall n :: n in sys.nodes ==> NodeOk(sys.states, sys.nodes[n].scanned, p, valid)
    ensures forall n :: n in later.nodes ==> NodeOk(later.states, later.nodes[n].scanned, p, valid)
  {
    hide Follows;
  }

  lemma TransactInv(sys: System, call: Call, p: Params, valid: BtcAddress -> bool)
    requires SystemInv(sys, p, valid)
    ensures SystemInv(Next(sys, Transact(call), p, valid), p, valid)
  {
    var later := Next(sys, Transact(call), p, valid);
    var s := sys.states[|sys.states| - 1];
    var steps := CallIsFlat(s, call);
    TimelineContinues(sys.states, steps, AfterCall(s, call));
    ReachableInv(s);
    EvolvesLeads(s, steps, AfterCall(s, call));
    SignaturesStayOk(s, later.states[|later.states| - 1], sys.checked, sys.signatures, sys.alone);
    NodesStayOk(sys, later, p, valid);
  }

  lemma MineBlockInv(sys: System, p: Params, valid: BtcAddress -> bool)
    requires SystemInv(sys, p, valid)
    ensures SystemInv(Next(sys, MineBlock, p, valid), p, valid)
  {
    var later := Next(sys, MineBlock, p, valid);
    var s := sys.states[|sys.states| - 1];
    TimelineGrows(sys.states);
    ReachableInv(s);
    EvolvesStep(s, NextBlock);
    SignaturesStayOk(s, later.states[|later.states| - 1], sys.checked, sys.signatures, sys.alone);
    NodesStayOk(sys, later, p, valid);
  }

  /** A scan takes a node that follows the contract up to one block to the end of a later, confirmed block. */
  lemma ScanFollows(states: seq<State>, node: NodeState, now: nat, requiredConfirmations: nat, valid: BtcAddress -> bool)
    requires Timeline(states) && 0 <= node.lastProcessedBlock <= now < |states|
    requires Follows(node.db, states[node.lastProcessedBlock], valid)
    requires ScanStep(node, states[now].log, now, requiredConfirmations, valid).Some?
    ensures var r := ScanStep(node, states[now].log, now, requiredConfirmations, valid).value;
      && node.lastProcessedBlock <= r.lastProcessedBlock <= now
      && (r.lastProcessedBlock == node.lastProcessedBlock || r.lastProcessedBlock <= now - requiredConfirmations)
      && Follows(r.db, states[r.lastProcessedBlock], valid)
  {
    hide Timeline, Agrees;
    var low, high := node.lastProcessedBlock, now - requiredConfirmations;
    if high > low {
      var range := InRange(states[now].log, low + 1, high);
      RangeIsDifference(states, low, high, now);
      ReplayConcat(EMPTY_DATABASE, states[low].log, range, valid);
      ReplayAgrees(node.db, Replay(EMPTY_DATABASE, states[low].log, valid).db, range, valid);
    }
  }

  lemma ScanInv(sys: System, n: PublicKey, p: Params, valid: BtcAddress -> bool)
    requires SystemInv(sys, p, valid) && CanHappen(sys, Scan(n), p)
    ensures SystemInv(Next(sys, Scan(n), p, valid), p, valid)
  {
    hide Timeline, SignaturesOk, Follows, ScanStep, StoredOk;
    var later := Next(sys, Scan(n), p, valid);
    var now := sys.LatestBlock();
    assert NodeOk(sys.states, sys.nodes[n].scanned, p, valid);
    if ScanStep(sys.nodes[n].scanned, sys.states[now].log, now, p.confirmations, valid).Some? {
      ScanFollows(sys.states, sys.nodes[n].scanned, now, p.confirmations, valid);
    }
  }

  lemma WriteStatusesInv(sys: System, n: PublicKey, ids: set<TransferId>, status: Status, p: Params, valid: BtcAddress -> bool)
    requires SystemInv(sys, p, valid) && n in sys.nodes
    ensures SystemInv(Next(sys, WriteStatuses(n, ids, status), p, valid), p, valid)
  {
    hide Timeline, SignaturesOk, NodeOk, StoredOk, Written;
    assert NodeOk(sys.states, sys.nodes[n].scanned, p, valid);
    WrittenStaysOk(sys.states, sys.nodes[n].scanned, ids, status, p, valid);
  }

  lemma WrittenStaysOk(states: seq<State>, node: NodeState, ids: set<TransferId>, status: Status, p: Params, valid: BtcAddress -> bool)
    requires NodeOk(states, node, p, valid)
    ensures NodeOk(states, node.(db := Written(node.db, ids, status)), p, valid)
  {
    hide Replay;
  }

  /** A batch that was committed by the end of some block is committed now. */
  lemma PaysSinceBlock(states: seq<State>, block: nat, tx: UnsignedTx)
    requires Timeline(states) && block + 1 < |states| && PaysSomeBatch(states[block], tx)
    ensures PaysSomeBatch(states[|states| - 1], tx)
  {
    hide Inv, Evolves, PaysBatch;
    var s, t := states[block], states[|states| - 1];
    assert Succeeds(s, t, block);
    var b: nat :| PaysBatch(s, b, tx);
    ReachableInv(s);
    PaysBatchStays(s, t, b, tx);
  }

  lemma SavedMembers(stored: seq<StoredBatch>, batch: TransferBatch)
    ensures forall e :: e in Saved(stored, batch) ==> e in stored || e.batch == batch
  {
  }

  lemma RemovedMembers(stored: seq<StoredBatch>, ids: set<TransferId>)
    ensures forall e :: e in Removed(stored, ids) ==> e in stored
  {
  }

  /** With more signatures around, and another genuine batch stored, the stored batches stay genuine. */
  lemma StoredStaysOk(signatures: set<SignedBy>, later: set<SignedBy>, stored: seq<StoredBatch>, batch: TransferBatch)
    requires StoredOk(signatures, stored) && signatures <= later && GenuineBatch(later, batch)
    ensures StoredOk(later, Saved(stored, batch)) && StoredOk(later, stored)
  {
    hide Saved;
    SavedMembers(stored, batch);
  }

  /** A valid batch has one transaction: both hashes were compared with that of the batch. */
  lemma ValidIsGenuine(signatures: set<SignedBy>, db: Database, dto: BatchDto, expectedStatus: Option<Status>,
                       requireSigned: bool, view: ChainView, changeAddress: BtcAddress)
    requires GenuineDto(signatures, dto) && LoadFromDto(db, dto).Some?
    requires BatchValid(LoadFromDto(db, dto).value, expectedStatus, requireSigned, view, changeAddress)
    ensures GenuineBatch(signatures, LoadFromDto(db, dto).value)
  {
    hide ValidTransferState, TransfersValid, RskSignaturesValid, ReadTransfers, Genuine;
  }

  /** Only the stored batches of one node and the signatures have changed. */
  lemma StoringInv(sys: System, n: PublicKey, stored: seq<StoredBatch>, later: System, p: Params, valid: BtcAddress -> bool)
    requires SystemInv(sys, p, valid) && n in sys.nodes && sys.signatures <= later.signatures
    requires later.states == sys.states && later.nodes == sys.nodes[n := sys.nodes[n].(stored := stored)]
    requires StoredOk(later.signatures, stored)
    requires SignaturesOk(sys.states[|sys.states| - 1], later.checked, later.signatures, later.alone)
    ensures SystemInv(later, p, valid)
  {
    hide Timeline, NodeOk, SignaturesOk;
  }

  lemma RespondInv(sys: System, n: PublicKey, dto: BatchDto, p: Params, valid: BtcAddress -> bool)
    requires SystemInv(sys, p, valid) && CanHappen(sys, Respond(n, dto), p)
    ensures SystemInv(Next(sys, Respond(n, dto), p, valid), p, valid)
  {
    hide PaysSomeBatch, Follows, BatchValid, CommitmentValid, LoadFromDto, Saved, StoredOk, GenuineBatch, Timeline, IsMarkedAsSendingInRsk;
    var later := Next(sys, Respond(n, dto), p, valid);
    var tx, node := dto.initialBtcTransaction.tx, sys.nodes[n];
    assert NodeOk(sys.states, node.scanned, p, valid);
    var seen := node.scanned.lastProcessedBlock;
    LastIsReachable(sys.states);
    BlockIsReachable(sys.states, seen);
    SigningEstablishes(node.scanned.db, sys.states[seen], dto, View(sys, p), p.changeAddress, valid);
    PaysSinceBlock(sys.states, seen, tx);
    assert (n, tx) in later.checked;
    MoreGenuine(sys.signatures, later.signatures, dto);
    ValidIsGenuine(later.signatures, node.scanned.db, dto, Some(Sending), false, View(sys, p), p.changeAddress);
    StoredStaysOk(sys.signatures, later.signatures, node.stored, LoadFromDto(node.scanned.db, dto).value);
    StoringInv(sys, n, later.nodes[n].stored, later, p, valid);
  }

  lemma MoreGenuine(signatures: set<SignedBy>, later: set<SignedBy>, dto: BatchDto)
    requires signatures <= later && GenuineDto(signatures, dto)
    ensures GenuineDto(later, dto)
  {
  }

  lemma BlockIsReachable(states: seq<State>, block: nat)
    requires Timeline(states) && block < |states|
    ensures Reachable(states[block])
  {
  }

  lemma AcceptInv(sys: System, a: Action, p: Params, valid: BtcAddress -> bool)
    requires SystemInv(sys, p, valid) && a.Accept? && CanHappen(sys, a, p)
    ensures SystemInv(Next(sys, a, p, valid), p, valid)
  {
    hide BatchValid, LoadFromDto, Saved, StoredOk, SignaturesOk, NodeOk, GenuineBatch, Timeline;
    var later, node := Next(sys, a, p, valid), sys.nodes[a.node];
    ValidIsGenuine(sys.signatures, node.scanned.db, a.dto, a.expectedStatus, a.requireSigned, View(sys, p), p.changeAddress);
    StoredStaysOk(sys.signatures, sys.signatures, node.stored, LoadFromDto(node.scanned.db, a.dto).value);
    TimelineNotEmpty(sys.states);
    StoringInv(sys, a.node, later.nodes[a.node].stored, later, p, valid);
  }

  lemma TimelineNotEmpty(states: seq<State>)
    requires Timeline(states)
    ensures |states| > 0
  {
  }

  lemma PurgeInv(sys: System, a: Action, p: Params, valid: BtcAddress -> bool)
    requires SystemInv(sys, p, valid) && (a.Purge? || a.Rebuild?) && CanHappen(sys, a, p)
    ensures SystemInv(Next(sys, a, p, valid), p, valid)
  {
    hide Saved, Removed, SignaturesOk, NodeOk, Timeline;
    var later, removed := Next(sys, a, p, valid), Removed(sys.nodes[a.node].stored, a.ids);
    RemovedMembers(sys.nodes[a.node].stored, a.ids);
    assert StoredOk(sys.signatures, sys.nodes[a.node].stored);
    assert StoredOk(sys.signatures, removed);
    if a.Rebuild? {
      StoredStaysOk(sys.signatures, sys.signatures, removed, a.batch);
    }
    TimelineNotEmpty(sys.states);
    StoringInv(sys, a.node, later.nodes[a.node].stored, later, p, valid);
  }

  /** The batch an initiator works on has one transaction, and its listed keys have signed it. */
  lemma OwnIsGenuine(signatures: set<SignedBy>, node: Node, b: TransferBatch)
    requires StoredOk(signatures, node.stored) && OwnBatch(node, b)
    ensures GenuineBatch(signatures, b)
  {
    if !IsFresh(b) {
      var i :| 0 <= i < |node.stored| && LoadFromDto(node.scanned.db, DtoOf(node.stored[i].batch)) == Some(b);
      assert node.stored[i] in node.stored;
    }
  }

  /** A key on the updated transaction had signed it before, or is the initiator's own; then the transaction has some
      other signature, or it was signed alone. */
  lemma UpdatedKey(signatures: set<SignedBy>, a: Action, k: PublicKey)
    requires a.Update? && Updated(a.batch, a.responses, a.me, a.outside).Some?
    requires GenuineBatch(signatures, a.batch) && forall r :: r in a.responses.bitcoin ==> Genuine(signatures, r)
    requires var c := Updated(a.batch, a.responses, a.me, a.outside).value;
      k in Current(c.initialBtcTransaction, c.signedBtcTransaction).signedPublicKeys
    ensures var tx := a.batch.initialBtcTransaction.tx;
      (k, tx) in signatures || IsLone(a) || exists l :: (l, tx) in signatures
  {
    hide Updated, AllEmpty;
    var c := Updated(a.batch, a.responses, a.me, a.outside).value;
    var initial := a.batch.initialBtcTransaction;
    var had, now := Current(initial, a.batch.signedBtcTransaction), Current(c.initialBtcTransaction, c.signedBtcTransaction);
    UpdateExtends(a.batch, a.responses, a.me, a.outside);
    NewKeysFollow(a.batch, a.responses, a.me, a.outside);
    if had.signedPublicKeys != [] {
      assert (had.signedPublicKeys[0], initial.tx) in signatures;
    } else if initial.signedPublicKeys != [] {
      assert (initial.signedPublicKeys[0], initial.tx) in signatures;
    } else if SomeResponseOn(a.responses.bitcoin, now.tx) {
      var p :| p in a.responses.bitcoin && p.tx == now.tx && p.signedPublicKeys != [];
      assert (p.signedPublicKeys[0], p.tx) in signatures;
    } else {
      OwnKeyAloneExactly(a.batch, a.responses, a.me, a.outside);
      LoneKey(a.responses, now);
    }
  }

  /** A signature while no response carries one on this transaction. */
  lemma LoneKey(responses: Responses, now: Psbt)
    requires now.signedPublicKeys != [] && AllEmpty(responses.bitcoin)
    ensures SignedAlone(now, responses.bitcoin)
  {
  }

  lemma UpdateInv(sys: System, a: Action, p: Params, valid: BtcAddress -> bool)
    requires SystemInv(sys, p, valid) && a.Update? && CanHappen(sys, a, p)
    ensures SystemInv(Next(sys, a, p, valid), p, valid)
  {
    hide Timeline, NodeOk, Updated, PaysSomeBatch, OwnBatch, Saved, IsLone, StoredOk;
    var later, n := Next(sys, a, p, valid), a.me.publicKey;
    var c := Updated(a.batch, a.responses, a.me, a.outside).value;
    TimelineNotEmpty(sys.states);
    OwnIsGenuine(sys.signatures, sys.nodes[n], a.batch);
    UpdateExtends(a.batch, a.responses, a.me, a.outside);
    UpdatedIsGenuine(sys.signatures, a.batch, c);
    StoredStaysOk(sys.signatures, later.signatures, sys.nodes[n].stored, c);
    forall g | g in later.signatures ensures g.1 in later.alone || exists m :: (m, g.1) in sys.checked {
      if g !in sys.signatures {
        UpdatedKey(sys.signatures, a, g.0);
      }
    }
    StoringInv(sys, n, later.nodes[n].stored, later, p, valid);
  }

  lemma UpdatedIsGenuine(signatures: set<SignedBy>, b: TransferBatch, c: TransferBatch)
    requires GenuineBatch(signatures, b) && Extends(b, c)
    ensures GenuineBatch(signatures + SignaturesOn(c), c)
    ensures forall g :: g in SignaturesOn(c) ==> g.1 == b.initialBtcTransaction.tx
  {
  }

  lemma StepInv(sys: System, a: Action, p: Params, valid: BtcAddress -> bool)
    requires SystemInv(sys, p, valid) && CanHappen(sys, a, p)
    ensures SystemInv(Next(sys, a, p, valid), p, valid)
  {
    match a
    case Transact(call) => TransactInv(sys, call, p, valid);
    case MineBlock => MineBlockInv(sys, p, valid);
    case Scan(n) => ScanInv(sys, n, p, valid);
    case WriteStatuses(n, ids, status) => WriteStatusesInv(sys, n, ids, status, p, valid);
    case Respond(n, dto) => RespondInv(sys, n, dto, p, valid);
    case Accept(_, _, _, _) => AcceptInv(sys, a, p, valid);
    case Purge(_, _) => PurgeInv(sys, a, p, valid);
    case Rebuild(_, _, _) => PurgeInv(sys, a, p, valid);
    case Update(_, _, _, _) => UpdateInv(sys, a, p, valid);
  }
}
