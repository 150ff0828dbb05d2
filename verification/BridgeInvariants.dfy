/** What every atomic step of the contract keeps: solvency, fresh identifiers, and the record of
    committed batches. */
module BridgeInvariants {
  import opened Base
  import opened TransferIds
  import opened Bitcoin
  import opened BridgeState
  import opened BridgeCalls

  type Transfers = map<TransferId, BitcoinTransfer>

  /** Where the ether of a transfer stands: waiting, promised to Bitcoin, or paid back. */
  datatype Group = Pending | Committed | Returned

  predicate InGroup(status: Status, group: Group) {
    match group
    case Pending => status == New
    case Committed => status == Sending || status == Mined
    case Returned => status == Refunded || status == Reclaimed
  }

  /** A status that a stored transfer can have. */
  predicate OnChain(status: Status) {
    status != NotApplicable && status != Invalid
  }

  // ---- Sums over the transfers map ----

  function Share(t: BitcoinTransfer, group: Group): nat {
    if InGroup(t.status, group) then t.Wei() else 0
  }

  ghost function HeldOn(m: Transfers, keys: set<TransferId>, group: Group): nat
    requires keys <= m.Keys
  {
    if keys == {} then 0
    else
      var k :| k in keys;
      Share(m[k], group) + HeldOn(m, keys - {k}, group)
  }

  /** Total wei of the transfers in `group`. */
  ghost function Held(m: Transfers, group: Group): nat {
    HeldOn(m, m.Keys, group)
  }

  lemma {:induction false} HeldPick(m: Transfers, keys: set<TransferId>, group: Group, k: TransferId)
    requires keys <= m.Keys && k in keys
    ensures HeldOn(m, keys, group) == Share(m[k], group) + HeldOn(m, keys - {k}, group)
  {
    var j :| j in keys && HeldOn(m, keys, group) == Share(m[j], group) + HeldOn(m, keys - {j}, group);
    if j != k {
      HeldPick(m, keys - {j}, group, k);
      HeldPick(m, keys - {k}, group, j);
      assert keys - {j} - {k} == keys - {k} - {j};
    }
  }

  lemma {:induction false} HeldSame(m: Transfers, n: Transfers, keys: set<TransferId>, group: Group)
    requires keys <= m.Keys && keys <= n.Keys
    requires forall k :: k in keys ==> Share(m[k], group) == Share(n[k], group)
    ensures HeldOn(m, keys, group) == HeldOn(n, keys, group)
  {
    if keys != {} {
      var k :| k in keys;
      HeldPick(m, keys, group, k);
      HeldPick(n, keys, group, k);
      HeldSame(m, n, keys - {k}, group);
    }
  }

  /** Writing one entry changes the sum by the difference of the shares. */
  lemma HeldWrite(m: Transfers, id: TransferId, t: BitcoinTransfer, group: Group)
    ensures Held(m[id := t], group) + (if id in m then Share(m[id], group) else 0)
         == Held(m, group) + Share(t, group)
  {
    var n := m[id := t];
    HeldPick(n, n.Keys, group, id);
    assert n.Keys - {id} == m.Keys - {id};
    HeldSame(n, m, m.Keys - {id}, group);
    if id in m {
      HeldPick(m, m.Keys, group, id);
    } else {
      assert m.Keys - {id} == m.Keys;
    }
  }

  /** Moving distinct transfers between statuses moves exactly their wei. */
  lemma {:induction false} HeldMove(m: Transfers, ids: seq<TransferId>, from: Status, to: Status, group: Group)
    requires NoDuplicates(ids)
    requires forall id :: id in ids ==> id in m && m[id].status == from
    ensures Held(SetStatus(m, ids, to), group) + (if InGroup(from, group) then WeiOf(m, ids) else 0)
         == Held(m, group) + (if InGroup(to, group) then WeiOf(m, ids) else 0)
  {
    if |ids| == 0 {
      assert SetStatus(m, ids, to) == m;
    } else {
      var init, last := ids[..|ids| - 1], ids[|ids| - 1];
      assert ids == init + [last];
      HeldMove(m, init, from, to, group);
      var n := SetStatus(m, init, to);
      assert last !in init;
      assert SetStatus(m, ids, to) == n[last := m[last].(status := to)];
      HeldWrite(n, last, m[last].(status := to), group);
    }
  }

  // ---- The invariants ----

  /** Solvency, as exact book-keeping. */
  ghost predicate Funds(s: State) {
    && s.balance < UINT256
    && s.balance == Held(s.transfers, Pending) + s.totalAdminWithdrawableRbtc + s.history.forced
    && s.totalAdminWithdrawableRbtc + s.history.withdrawn == Held(s.transfers, Committed)
    && s.history.returned == Held(s.transfers, Returned)
  }

  /** Every transfer sits under the identifier of its own address and an already used nonce. */
  ghost predicate Fresh(s: State) {
    && s.config.WithinBounds()
    && (!s.initialized ==> s.transfers == map[])
    && forall id :: id in s.transfers ==>
         var t := s.transfers[id];
         && id == GetTransferId(t.btcAddress, t.nonce)
         && t.nonce < NextNonce(s, t.btcAddress) <= 255
         && OnChain(t.status)
         && t.totalAmountSatoshi < UINT40
  }

  /** Batches are disjoint, and together they are exactly the transfers that left status New towards Bitcoin. */
  ghost predicate Commitments(s: State) {
    && Partition(s.history.batches, s.history.committedIn)
    && (forall id :: id in s.history.committedIn <==> id in s.transfers && InGroup(s.transfers[id].status, Committed))
  }

  /** `committedIn` sends every identifier to the one batch that lists it, once. */
  ghost predicate Partition(batches: seq<Batch>, committedIn: map<TransferId, nat>) {
    && (forall id :: id in committedIn ==> committedIn[id] < |batches| && id in batches[committedIn[id]].ids)
    && (forall b :: 0 <= b < |batches| ==> NoDuplicates(batches[b].ids))
    && (forall b, id :: 0 <= b < |batches| && id in batches[b].ids ==> id in committedIn && committedIn[id] == b)
  }

  ghost predicate Inv(s: State) {
    Funds(s) && Fresh(s) && Commitments(s)
  }

  lemma InitialInv(s: State)
    requires IsInitial(s)
    ensures Inv(s)
  {
  }

  /** Rewriting one transfer shifts its wei between the three sums. */
  lemma FundsWrite(m: Transfers, id: TransferId, t: BitcoinTransfer)
    ensures Held(m[id := t], Pending) + (if id in m then Share(m[id], Pending) else 0)
         == Held(m, Pending) + Share(t, Pending)
    ensures Held(m[id := t], Committed) + (if id in m then Share(m[id], Committed) else 0)
         == Held(m, Committed) + Share(t, Committed)
    ensures Held(m[id := t], Returned) + (if id in m then Share(m[id], Returned) else 0)
         == Held(m, Returned) + Share(t, Returned)
  {
    HeldWrite(m, id, t, Pending);
    HeldWrite(m, id, t, Committed);
    HeldWrite(m, id, t, Returned);
  }

  lemma FundsDeposit(s: State, step: Step)
    requires Inv(s) && Enabled(s, step) && step.Deposit?
    ensures Funds(After(s, step))
  {
    var id := GetTransferId(step.btcAddress, NextNonce(s, step.btcAddress));
    var t := After(s, step).transfers[id];
    assert t.Wei() == step.value;
    FundsWrite(s.transfers, id, t);
  }

  lemma CommitMoves(m: Transfers, ids: seq<TransferId>)
    requires NoDuplicates(ids)
    requires forall id :: id in ids ==> id in m && m[id].status == New
    ensures var n := SetStatus(m, ids, Sending);
      && Held(n, Pending) + WeiOf(m, ids) == Held(m, Pending)
      && Held(n, Committed) == Held(m, Committed) + WeiOf(m, ids)
      && Held(n, Returned) == Held(m, Returned)
  {
    HeldMove(m, ids, New, Sending, Pending);
    HeldMove(m, ids, New, Sending, Committed);
    HeldMove(m, ids, New, Sending, Returned);
  }

  /** The unchecked addition of markTransfersAsSending never wraps: what it adds is still in the balance. */
  lemma CommitFits(s: State, ids: seq<TransferId>)
    requires Funds(s) && NoDuplicates(ids) && AllHaveStatus(s, ids, New)
    ensures s.totalAdminWithdrawableRbtc + WeiOf(s.transfers, ids) <= s.balance < UINT256
  {
    CommitMoves(s.transfers, ids);
  }

  lemma FundsCommit(s: State, bitcoinTxHash: BtcHash, ids: seq<TransferId>)
    requires Funds(s) && NoDuplicates(ids) && AllHaveStatus(s, ids, New)
    ensures Funds(AfterCommit(s, bitcoinTxHash, ids))
  {
    CommitFits(s, ids);
    CommitMoves(s.transfers, ids);
    var t := AfterCommit(s, bitcoinTxHash, ids);
    assert t.transfers == SetStatus(s.transfers, ids, Sending);
  }

  lemma FundsMine(s: State, step: Step)
    requires Inv(s) && Enabled(s, step) && step.MineBatch?
    ensures Funds(After(s, step))
  {
    HeldMove(s.transfers, step.ids, Sending, Mined, Pending);
    HeldMove(s.transfers, step.ids, Sending, Mined, Committed);
    HeldMove(s.transfers, step.ids, Sending, Mined, Returned);
  }

  lemma FundsPayBack(s: State, t: State, id: TransferId, status: Status)
    requires Funds(s) && HasStatus(s, id, New) && InGroup(status, Returned)
    requires s.transfers[id].Wei() <= s.balance
    requires t.transfers == s.transfers[id := s.transfers[id].(status := status)]
    requires t.balance == s.balance - s.transfers[id].Wei() && t.history.returned == s.history.returned + s.transfers[id].Wei()
    requires t.totalAdminWithdrawableRbtc == s.totalAdminWithdrawableRbtc
    requires t.history.forced == s.history.forced && t.history.withdrawn == s.history.withdrawn
    ensures Funds(t)
  {
    FundsWrite(s.transfers, id, s.transfers[id].(status := status));
  }

  lemma FundsStep(s: State, step: Step)
    requires Inv(s) && Enabled(s, step)
    ensures Funds(After(s, step))
  {
    match step
    case Deposit(_, _, _, _) => FundsDeposit(s, step);
    case PayReclaim(_, id) => FundsPayBack(s, After(s, step), id, Reclaimed);
    case PayRefund(id) => FundsPayBack(s, After(s, step), id, Refunded);
    case CommitBatch(h, ids) => FundsCommit(s, h, ids);
    case MineBatch(_) => FundsMine(s, step);
    case _ =>
  }

  /** A transfer is promised to Bitcoin or paid back once, and stays that way; only New moves on freely. */
  predicate Allowed(before: Status, after: Status) {
    before == after || (before == New && OnChain(after)) || (before == Sending && after == Mined)
  }

  /** Old transfers keep everything but their status, and statuses move only forward. */
  ghost predicate Forward(m: Transfers, n: Transfers) {
    forall id :: id in m ==>
      id in n && n[id] == m[id].(status := n[id].status) && Allowed(m[id].status, n[id].status)
  }

  lemma PaidBackFrame(m: Transfers, id: TransferId, status: Status)
    requires id in m && m[id].status == New && InGroup(status, Returned)
    ensures var n := m[id := m[id].(status := status)];
      && n.Keys == m.Keys
      && Forward(m, n)
      && forall k :: k in m ==> (InGroup(n[k].status, Committed) <==> InGroup(m[k].status, Committed))
  {
  }

  lemma SetStatusFrame(m: Transfers, ids: seq<TransferId>, before: Status, after: Status)
    requires forall id :: id in ids ==> id in m && m[id].status == before
    requires Allowed(before, after)
    ensures SetStatus(m, ids, after).Keys == m.Keys
    ensures Forward(m, SetStatus(m, ids, after))
  {
  }

  /** Everything except deposits leaves the set of transfers alone and moves statuses forward. */
  lemma StepForward(s: State, step: Step)
    requires Enabled(s, step) && !step.Deposit?
    ensures After(s, step).transfers.Keys == s.transfers.Keys
    ensures Forward(s.transfers, After(s, step).transfers)
    ensures !step.CopyNonces? ==> After(s, step).nextNonces == s.nextNonces
  {
    match step
    case PayReclaim(_, id) => PaidBackFrame(s.transfers, id, Reclaimed);
    case PayRefund(id) => PaidBackFrame(s.transfers, id, Refunded);
    case CommitBatch(_, ids) => SetStatusFrame(s.transfers, ids, New, Sending);
    case MineBatch(ids) => SetStatusFrame(s.transfers, ids, Sending, Mined);
    case _ =>
  }

  lemma FreshDeposit(s: State, step: Step)
    requires Fresh(s) && Enabled(s, step) && step.Deposit?
    ensures Fresh(After(s, step))
  {
    var t := After(s, step);
    forall id | id in t.transfers
      ensures id == GetTransferId(t.transfers[id].btcAddress, t.transfers[id].nonce)
      ensures t.transfers[id].nonce < NextNonce(t, t.transfers[id].btcAddress) <= 255
    {
      if id in s.transfers {
        assert t.transfers[id] == s.transfers[id];
      }
    }
  }

  lemma FreshKept(s: State, t: State)
    requires Fresh(s) && t.config.WithinBounds()
    requires t.nextNonces == s.nextNonces && t.transfers.Keys == s.transfers.Keys && Forward(s.transfers, t.transfers)
    requires s.initialized ==> t.initialized
    ensures Fresh(t)
  {
    assert forall a :: NextNonce(t, a) == NextNonce(s, a);
  }

  lemma FreshStep(s: State, step: Step)
    requires Fresh(s) && Enabled(s, step)
    ensures Fresh(After(s, step))
  {
    if step.Deposit? {
      FreshDeposit(s, step);
    } else if !step.CopyNonces? {
      StepForward(s, step);
      FreshKept(s, After(s, step));
    }
  }

  /** "Transfer already exists" never fires, and the eight-bit nonce never overflows. */
  lemma FreshId(s: State, btcAddress: BtcAddress)
    requires Fresh(s) && NextNonce(s, btcAddress) <= MAXIMUM_VALID_NONCE
    ensures GetTransferId(btcAddress, NextNonce(s, btcAddress)) !in s.transfers
    ensures NextNonce(s, btcAddress) + 1 <= 255
  {
    var n := NextNonce(s, btcAddress);
    var id := GetTransferId(btcAddress, n);
    if id in s.transfers {
      var t := s.transfers[id];
      NoncesFit(n);
      NoncesFit(t.nonce);
      TransferIdInjective(btcAddress, n, t.btcAddress, t.nonce);
    }
  }

  lemma PartitionGrows(batches: seq<Batch>, committedIn: map<TransferId, nat>, batch: Batch, grown: map<TransferId, nat>)
    requires Partition(batches, committedIn) && NoDuplicates(batch.ids)
    requires forall id :: id in batch.ids ==> id !in committedIn
    requires forall id :: id in grown <==> id in committedIn || id in batch.ids
    requires forall id :: id in grown ==> grown[id] == if id in batch.ids then |batches| else committedIn[id]
    ensures Partition(batches + [batch], grown)
  {
  }

  lemma CommitmentsGrow(s: State, bitcoinTxHash: BtcHash, ids: seq<TransferId>)
    requires Commitments(s) && NoDuplicates(ids) && AllHaveStatus(s, ids, New)
    ensures Commitments(AfterCommit(s, bitcoinTxHash, ids))
  {
    var t := AfterCommit(s, bitcoinTxHash, ids);
    assert t.transfers == SetStatus(s.transfers, ids, Sending);
    PartitionGrows(s.history.batches, s.history.committedIn, Batch(bitcoinTxHash, ids), t.history.committedIn);
  }

  lemma CommitmentsKept(s: State, t: State)
    requires Commitments(s)
    requires t.history.batches == s.history.batches && t.history.committedIn == s.history.committedIn
    requires forall id :: id in s.transfers ==>
      id in t.transfers && (InGroup(s.transfers[id].status, Committed) <==> InGroup(t.transfers[id].status, Committed))
    requires forall id :: id in t.transfers && id !in s.transfers ==> !InGroup(t.transfers[id].status, Committed)
    ensures Commitments(t)
  {
  }

  lemma CommitmentsStay(s: State, step: Step)
    requires Commitments(s) && Enabled(s, step) && !step.CommitBatch?
    ensures Commitments(After(s, step))
  {
    if step.PayReclaim? {
      PaidBackFrame(s.transfers, step.id, Reclaimed);
    } else if step.PayRefund? {
      PaidBackFrame(s.transfers, step.id, Refunded);
    }
    CommitmentsKept(s, After(s, step));
  }

  lemma InvStep(s: State, step: Step)
    requires Inv(s) && Enabled(s, step)
    ensures Inv(After(s, step))
  {
    FundsStep(s, step);
    FreshStep(s, step);
    if step.CommitBatch? {
      CommitmentsGrow(s, step.bitcoinTxHash, step.ids);
    } else {
      CommitmentsStay(s, step);
    }
  }

  lemma {:induction false} InvLeads(s: State, steps: seq<Step>, t: State)
    requires Inv(s) && Leads(s, steps, t)
    ensures Inv(t)
    decreases |steps|
  {
    if |steps| != 0 {
      InvStep(s, steps[0]);
      InvLeads(After(s, steps[0]), steps[1..], t);
    }
  }

  /** Any call, with any callbacks at every payment, keeps the invariants. */
  lemma InvExec(s: State, call: Call)
    requires Inv(s) && Exec(s, call).Ok?
    ensures Inv(Exec(s, call).state)
  {
    var steps := ExecIsFlat(s, call);
    InvLeads(s, steps, Exec(s, call).state);
  }

  // ---- Reachable states ----

  /** The contract can be in this state, at rest or in the middle of any nesting of calls. */
  ghost predicate Reachable(s: State) {
    exists first: State, steps: seq<Step> :: IsInitial(first) && Leads(first, steps, s)
  }

  lemma InitialReachable(s: State)
    requires IsInitial(s)
    ensures Reachable(s)
  {
    assert Leads(s, [], s);
  }

  lemma ReachableLeads(s: State, steps: seq<Step>, t: State)
    requires Reachable(s) && Leads(s, steps, t)
    ensures Reachable(t)
  {
    var first: State, before: seq<Step> :| IsInitial(first) && Leads(first, before, s);
    LeadsConcat(first, before, s, steps, t);
  }

  lemma ReachableStep(s: State, step: Step)
    requires Reachable(s) && Enabled(s, step)
    ensures Reachable(After(s, step))
  {
    var steps := Single(s, step);
    ReachableLeads(s, steps, After(s, step));
  }

  lemma ReachableInv(s: State)
    requires Reachable(s)
    ensures Inv(s)
  {
    var first: State, before: seq<Step> :| IsInitial(first) && Leads(first, before, s);
    InitialInv(first);
    InvLeads(first, before, s);
  }

  // ---- What stays true forever ----

  /** `t` is reachable from `s`: nothing recorded is lost or rewritten. */
  ghost predicate Evolves(s: State, t: State) {
    && Forward(s.transfers, t.transfers)
    && s.log <= t.log
    && s.history.batches <= t.history.batches
    && forall id :: id in s.history.committedIn ==> id in t.history.committedIn && t.history.committedIn[id] == s.history.committedIn[id]
  }

  lemma EvolvesTransfer(s: State, t: State, id: TransferId)
    requires Evolves(s, t) && id in s.transfers
    ensures id in t.transfers && t.transfers[id] == s.transfers[id].(status := t.transfers[id].status)
    ensures Allowed(s.transfers[id].status, t.transfers[id].status)
  {
  }

  lemma EvolvesTrans(s: State, t: State, u: State)
    requires Evolves(s, t) && Evolves(t, u)
    ensures Evolves(s, u)
  {
  }

  lemma EvolvesDeposit(s: State, step: Step)
    requires Fresh(s) && Enabled(s, step) && step.Deposit?
    ensures Evolves(s, After(s, step))
  {
    FreshId(s, step.btcAddress);
  }

  lemma EvolvesCommit(s: State, bitcoinTxHash: BtcHash, ids: seq<TransferId>)
    requires Commitments(s) && AllHaveStatus(s, ids, New)
    ensures Evolves(s, AfterCommit(s, bitcoinTxHash, ids))
  {
    SetStatusFrame(s.transfers, ids, New, Sending);
    assert forall id :: id in ids ==> id !in s.history.committedIn;
  }

  lemma EvolvesStep(s: State, step: Step)
    requires Inv(s) && Enabled(s, step)
    ensures Evolves(s, After(s, step))
  {
    if step.Deposit? {
      EvolvesDeposit(s, step);
    } else if step.CommitBatch? {
      EvolvesCommit(s, step.bitcoinTxHash, step.ids);
    } else {
      StepForward(s, step);
    }
  }

  lemma {:induction false} EvolvesLeads(s: State, steps: seq<Step>, t: State)
    requires Inv(s) && Leads(s, steps, t)
    ensures Evolves(s, t)
    decreases |steps|
  {
    if |steps| != 0 {
      InvStep(s, steps[0]);
      EvolvesStep(s, steps[0]);
      EvolvesLeads(After(s, steps[0]), steps[1..], t);
      EvolvesTrans(s, After(s, steps[0]), t);
    }
  }

  /** Whatever a call and its callbacks do, a transfer promised to Bitcoin is never paid back, a
      transfer paid back is never promised, and commitments are not rewritten. */
  lemma EvolvesExec(s: State, call: Call)
    requires Inv(s) && Exec(s, call).Ok?
    ensures Evolves(s, Exec(s, call).state)
  {
    var steps := ExecIsFlat(s, call);
    EvolvesLeads(s, steps, Exec(s, call).state);
  }
}
