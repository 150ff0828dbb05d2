/** When the calls of the contract go through, in terms of who signed what and of what the log says; and who is
    behind every change of a status, at any depth of callbacks. */
module CallConditions {
  import opened Base
  import opened TransferIds
  import opened Bitcoin
  import opened AccessControl
  import opened BridgeState
  import opened BridgeCalls
  import opened BridgeInvariants
  import opened BridgeLog
  import opened BridgeContract

  // ---- Updates by the federators ----

  /** Every signature is one of this very message, by a federator, all of them different, and they are more than half of
      the federators. */
  predicate Approved(federators: set<Address>, message: UpdateMessage, signatures: Signatures) {
    && 2 * |signatures| > |federators|
    && (forall i :: 0 <= i < |signatures| ==>
          signatures[i].message == message && signatures[i].signer in federators && signatures[i].signer != ZERO_ADDRESS)
    && forall i, j :: 0 <= i < j < |signatures| ==> signatures[i].signer != signatures[j].signer
  }

  lemma ApprovedIsQuorum(federators: set<Address>, message: UpdateMessage, signatures: Signatures)
    ensures Approved(federators, message, signatures) <==> IsQuorum(federators, Recovered(message, signatures))
  {
    var signers := Recovered(message, signatures);
    if IsQuorum(federators, signers) {
      assert forall i :: 0 <= i < |signers| ==> signers[i] in signers;
    }
  }

  /** The message that the federators have to sign for a call. */
  function MessageOf(call: Call): (message: Option<UpdateMessage>) {
    match call
    case MarkTransfersAsSending(_, bitcoinTxHash, ids, _) => Some(BatchUpdateWithTxHash(Sending, bitcoinTxHash, ids))
    case MarkTransfersAsMined(_, ids, _) => Some(BatchUpdate(Mined, ids))
    case RefundTransfers(_, refunds, _) => Some(BatchUpdate(Refunded, RefundIds(refunds)))
    case _ => None
  }

  function SignaturesOf(call: Call): (signatures: Signatures) {
    match call
    case MarkTransfersAsSending(_, _, _, signatures) => signatures
    case MarkTransfersAsMined(_, _, signatures) => signatures
    case RefundTransfers(_, _, signatures) => signatures
    case _ => []
  }

  /** A federator sends it, the contract is open for it, and a majority has signed exactly this update. */
  predicate MayUpdate(s: State, sender: Address, message: UpdateMessage, signatures: Signatures) {
    sender in s.config.federators && !s.config.frozen && s.initialized && Approved(s.config.federators, message, signatures)
  }

  /** markTransfersAsSending succeeds exactly for an approved update of distinct waiting transfers. */
  lemma MarkSendingExactly(s: State, sender: Address, hash: BtcHash, ids: seq<TransferId>, signatures: Signatures)
    ensures Exec(s, MarkTransfersAsSending(sender, hash, ids, signatures)).Ok? <==>
      && MayUpdate(s, sender, BatchUpdateWithTxHash(Sending, hash, ids), signatures)
      && NoDuplicates(ids) && forall id :: id in ids ==> id in s.transfers && s.transfers[id].status == New
  {
    ApprovedIsQuorum(s.config.federators, BatchUpdateWithTxHash(Sending, hash, ids), signatures);
    hide IsQuorum, Approved, NoDuplicates, AfterCommit;
  }

  lemma MarkMinedExactly(s: State, sender: Address, ids: seq<TransferId>, signatures: Signatures)
    ensures Exec(s, MarkTransfersAsMined(sender, ids, signatures)).Ok? <==>
      && MayUpdate(s, sender, BatchUpdate(Mined, ids), signatures)
      && NoDuplicates(ids) && forall id :: id in ids ==> id in s.transfers && s.transfers[id].status == Sending
  {
    ApprovedIsQuorum(s.config.federators, BatchUpdate(Mined, ids), signatures);
    hide IsQuorum, Approved, NoDuplicates, MoveAll;
  }

  lemma RefundApproved(s: State, sender: Address, refunds: seq<Refund>, signatures: Signatures)
    ensures Exec(s, RefundTransfers(sender, refunds, signatures)).Ok? <==>
      MayUpdate(s, sender, BatchUpdate(Refunded, RefundIds(refunds)), signatures) && RefundAll(s, refunds).Ok?
  {
    ApprovedIsQuorum(s.config.federators, BatchUpdate(Refunded, RefundIds(refunds)), signatures);
    hide IsQuorum, Approved, RefundAll;
  }

  /** No update without the majority: more than half of the federators have signed exactly this update. */
  lemma UpdateNeedsMajority(s: State, call: Call) returns (signers: set<Address>)
    requires MessageOf(call).Some? && Exec(s, call).Ok?
    ensures signers <= s.config.federators && 2 * |signers| > |s.config.federators|
    ensures forall f :: f in signers ==> Signature(f, MessageOf(call).value) in SignaturesOf(call)
  {
    var message, signatures := MessageOf(call).value, SignaturesOf(call);
    assert Approved(s.config.federators, message, signatures) by {
      ApprovedIsQuorum(s.config.federators, message, signatures);
      hide IsQuorum, Approved, RefundAll, Enabled, After;
    }
    var list := seq(|signatures|, i requires 0 <= i < |signatures| => signatures[i].signer);
    DistinctCount(list);
    signers := Elements(list);
    forall f | f in signers ensures f in s.config.federators && Signature(f, message) in signatures {
      var i :| 0 <= i < |list| && list[i] == f;
      assert signatures[i] == Signature(f, message);
    }
  }

  /** Any two updates accepted under the same federators, of any kind and at any time, have a signer in common. */
  lemma UpdatesShareSigner(s: State, a: Call, t: State, b: Call) returns (f: Address)
    requires MessageOf(a).Some? && Exec(s, a).Ok? && MessageOf(b).Some? && Exec(t, b).Ok?
    requires s.config.federators == t.config.federators
    ensures f in s.config.federators
    ensures Signature(f, MessageOf(a).value) in SignaturesOf(a) && Signature(f, MessageOf(b).value) in SignaturesOf(b)
  {
    var x := UpdateNeedsMajority(s, a);
    var y := UpdateNeedsMajority(t, b);
    hide Exec;
    if x * y == {} {
      assert |x + y| == |x| + |y|;
      SubsetCardinality(x + y, s.config.federators);
      assert false;
    }
    f :| f in x * y;
  }

  // ---- Refunds ----

  /** Receivers that accept and do nothing else. */
  predicate Passive(refunds: seq<Refund>) {
    forall r :: r in refunds ==> r.onPayment == Callback([], true)
  }

  /** A refund that goes through has refunded each of its transfers once, whatever the receivers do in between; a transfer that
      was there before was waiting. */
  lemma {:induction false} RefundedOnce(s: State, refunds: seq<Refund>)
    requires Inv(s) && RefundAll(s, refunds).Ok?
    ensures var t, ids := RefundAll(s, refunds).state, RefundIds(refunds);
      && Evolves(s, t) && NoDuplicates(ids)
      && (forall id :: id in ids ==> HasStatus(t, id, Refunded))
      && (forall id :: id in ids && id in s.transfers ==> s.transfers[id].status == New)
    decreases |refunds|
  {
    hide Inv, Evolves;
    if |refunds| == 0 {
      EvolvesLeads(s, [], s);
    } else {
      var id, ids, rest := refunds[0].id, RefundIds(refunds), refunds[1..];
      assert ids == [id] + RefundIds(rest);
      var paid := After(s, PayRefund(id));
      var u := RunCalls(paid, refunds[0].onPayment.calls);
      InvStep(s, PayRefund(id));
      EvolvesStep(s, PayRefund(id));
      var steps := RunCallsIsFlat(paid, refunds[0].onPayment.calls);
      InvLeads(paid, steps, u);
      EvolvesLeads(paid, steps, u);
      EvolvesTransfer(paid, u, id);
      RefundedOnce(u, rest);
      hide RunCalls, Enabled, After;
      var t := RefundAll(u, rest).state;
      EvolvesTransfer(u, t, id);
      EvolvesTrans(s, paid, u);
      EvolvesTrans(s, u, t);
      forall k | k in ids && k in s.transfers ensures s.transfers[k].status == New {
        EvolvesTransfer(s, u, k);
      }
    }
  }

  /** To receivers that just accept, an approved refund goes through exactly if the transfers are distinct and waiting:
      there is always enough ether. */
  lemma RefundExactly(s: State, sender: Address, refunds: seq<Refund>, signatures: Signatures)
    requires Reachable(s) && Passive(refunds)
    ensures Exec(s, RefundTransfers(sender, refunds, signatures)).Ok? <==>
      && MayUpdate(s, sender, BatchUpdate(Refunded, RefundIds(refunds)), signatures)
      && NoDuplicates(RefundIds(refunds)) && forall id :: id in RefundIds(refunds) ==> HasStatus(s, id, New)
  {
    hide Reachable, Approved, NoDuplicates, RefundAll;
    RefundApproved(s, sender, refunds, signatures);
    if s.initialized {
      PassiveRefunds(s, refunds);
    }
  }

  lemma {:induction false} PassiveRefunds(s: State, refunds: seq<Refund>)
    requires Reachable(s) && s.initialized && Passive(refunds)
    ensures RefundAll(s, refunds).Ok? <==>
      NoDuplicates(RefundIds(refunds)) && forall id :: id in RefundIds(refunds) ==> HasStatus(s, id, New)
    decreases |refunds|
  {
    hide Reachable;
    if |refunds| > 0 {
      var id, rest := refunds[0].id, refunds[1..];
      assert refunds[0] in refunds && RefundIds(refunds) == [id] + RefundIds(rest);
      if HasStatus(s, id, New) {
        PendingCovered(s, id);
        ReachableStep(s, PayRefund(id));
        var t := After(s, PayRefund(id));
        assert RunCalls(t, []) == t;
        PassiveRefunds(t, rest);
        RefundsNext(s, t, id, RefundIds(rest));
      }
    }
  }

  lemma RefundsNext(s: State, t: State, id: TransferId, ids: seq<TransferId>)
    requires HasStatus(s, id, New) && t.transfers == s.transfers[id := s.transfers[id].(status := Refunded)]
    ensures NoDuplicates([id] + ids) && (forall k :: k in [id] + ids ==> HasStatus(s, k, New)) <==>
      NoDuplicates(ids) && forall k :: k in ids ==> HasStatus(t, k, New)
  {
    DistinctCons(id, ids);
    hide NoDuplicates;
    assert forall k :: k in [id] + ids <==> k == id || k in ids;
  }

  lemma DistinctCons(id: TransferId, ids: seq<TransferId>)
    ensures NoDuplicates([id] + ids) <==> NoDuplicates(ids) && id !in ids
  {
    var all := [id] + ids;
    assert all[0] == id;
    assert forall i :: 0 <= i < |ids| ==> all[i + 1] == ids[i];
    if NoDuplicates(all) {
      forall i, j | 0 <= i < j < |ids| ensures ids[i] != ids[j] {
        assert all[i + 1] != all[j + 1];
      }
    }
  }

  // ---- Deposits, reclaims and withdrawals ----

  /** The base fee and the proportional one, rounded down to whole satoshi. */
  predicate IsFee(config: Config, amount: nat, fee: nat) {
    && fee >= config.baseFeeSatoshi
    && DYNAMIC_FEE_DIVISOR * (fee - config.baseFeeSatoshi) <= amount * config.dynamicFee
    && amount * config.dynamicFee < DYNAMIC_FEE_DIVISOR * (fee - config.baseFeeSatoshi + 1)
  }

  lemma FeeExactly(config: Config, amount: nat, fee: nat)
    ensures IsFee(config, amount, fee) <==> fee == config.FeeSatoshi(amount)
  {
    var product := amount * config.dynamicFee;
    assert product == DYNAMIC_FEE_DIVISOR * (product / DYNAMIC_FEE_DIVISOR) + product % DYNAMIC_FEE_DIVISOR;
  }

  /** A deposit succeeds exactly under the configured conditions: that its identifier is free is not one of them.  The log
      then shows the amount without the fee, and the fee, and the transfer holds their sum. */
  lemma DepositExactly(s: State, btcAddress: BtcAddress, rskAddress: Address, value: nat, addressAccepted: bool, amount: nat, fee: nat)
    requires Reachable(s) && amount * SATOSHI_DIVISOR <= value < (amount + 1) * SATOSHI_DIVISOR && IsFee(s.config, amount, fee)
    ensures var r, nonce := Exec(s, TransferToBtc(btcAddress, rskAddress, value, addressAccepted)), NextNonce(s, btcAddress);
      var id := GetTransferId(btcAddress, nonce);
      && (r.Ok? <==>
            && !s.config.paused && s.initialized && addressAccepted && nonce <= 254
            && value == amount * SATOSHI_DIVISOR && s.config.minTransferSatoshi <= amount <= s.config.maxTransferSatoshi
            && fee <= amount && s.balance + value < UINT256)
      && (r.Ok? ==>
            && r.state.log == s.log + [LogEntry(s.clock, NewBitcoinTransfer(id, btcAddress, nonce, amount - fee, fee, rskAddress))]
            && id !in s.transfers && id in r.state.transfers
            && r.state.transfers == s.transfers[id := r.state.transfers[id]]
            && HasStatus(r.state, id, New) && r.state.transfers[id].totalAmountSatoshi == amount
            && r.state.balance == s.balance + value && NextNonce(r.state, btcAddress) == nonce + 1)
  {
    FeeExactly(s.config, amount, fee);
    assert value / SATOSHI_DIVISOR == amount;
    hide IsFee, Reachable;
    ReachableInv(s);
    if NextNonce(s, btcAddress) <= MAXIMUM_VALID_NONCE {
      FreshId(s, btcAddress);
    }
    hide Funds, Commitments;
  }

  /** A transfer can be reclaimed exactly by the one whom the log of the deposit names, once the waiting time since the
      block of the deposit is over (block numbers being stored in 32 bits), as long as it is waiting.  There is always
      enough ether. */
  lemma ReclaimExactly(s: State, sender: Address, id: TransferId, onPayment: Callback)
    requires Reachable(s)
    ensures Exec(s, ReclaimTransfer(sender, id, onPayment)).Ok? <==>
      && !s.reclaimEntered && !s.config.frozen && s.initialized && HasStatus(s, id, New) && onPayment.accepts
      && exists i :: 0 <= i < |s.log| && DepositBy(s.log[i], id, sender)
                     && s.clock.block >= s.log[i].at.block % UINT32 + s.config.requiredBlocksBeforeReclaim
  {
    ReachableAnnounced(s);
    hide Reachable, RunCalls, Move, PayBack;
    if HasStatus(s, id, New) {
      PendingCovered(s, id);
      var i :| 0 <= i < |s.log| && Announces(s.log[i], id, s.transfers[id]);
      assert DepositBy(s.log[i], id, s.transfers[id].rskAddress);
    }
  }

  predicate DepositBy(e: LogEntry, id: TransferId, owner: Address) {
    e.event.NewBitcoinTransfer? && e.event.id == id && e.event.rskAddress == owner
  }

  lemma WithdrawExactly(s: State, sender: Address, amount: nat, onPayment: Callback)
    requires Reachable(s)
    ensures Exec(s, WithdrawRbtc(sender, amount, onPayment)).Ok? <==>
      sender in s.config.admins && amount <= s.totalAdminWithdrawableRbtc && onPayment.accepts
  {
    WithdrawalCovered(s);
    hide Reachable, RunCalls;
  }

  /** Setting up is for admins, and over for good once one of them has marked the contract ready. */
  lemma SetupOnce(s: State, sender: Address, steps: seq<Step>, t: State, later: Address, oldNonces: seq<(BtcAddress, uint8)>)
    requires Exec(s, MarkReadyBy(sender)).Ok? && Leads(Exec(s, MarkReadyBy(sender)).state, steps, t)
    ensures sender in s.config.admins && !s.initialized
    ensures Exec(t, MarkReadyBy(later)).Reverted? && Exec(t, CopyNoncesFrom(later, oldNonces)).Reverted?
  {
    InitializedLeads(Exec(s, MarkReadyBy(sender)).state, steps, t);
  }

  /** The receiver of a payment really gets control: what it calls is executed on the state after the payment. */
  lemma ReceiverRuns(s: State, sender: Address, amount: nat, call: Call)
    requires Exec(s, WithdrawRbtc(sender, amount, Callback([], true))).Ok?
    ensures var paid := Exec(s, WithdrawRbtc(sender, amount, Callback([], true))).state;
      Exec(s, WithdrawRbtc(sender, amount, Callback([call], true)))
      == Ok(if Exec(paid, call).Ok? then Exec(paid, call).state else paid)
  {
    var paid := After(s, PayWithdrawal(amount));
    assert RunCalls(paid, []) == paid;
    var after := if Exec(paid, call).Ok? then Exec(paid, call).state else paid;
    assert [call][1..] == [] && RunCalls(after, []) == after;
    assert RunCalls(paid, [call]) == after;
  }

  // ---- Who is behind a change ----

  /** All calls made in the course of a call, itself included. */
  function Inside(call: Call): (calls: set<Call>)
    decreases call
  {
    {call} + match call
      case ReclaimTransfer(_, _, onPayment) => InsideAll(onPayment.calls)
      case RefundTransfers(_, refunds, _) => InsideRefunds(refunds)
      case WithdrawRbtc(_, _, onPayment) => InsideAll(onPayment.calls)
      case _ => {}
  }

  function InsideAll(calls: seq<Call>): (r: set<Call>)
    decreases calls
  {
    if |calls| == 0 then {} else Inside(calls[0]) + InsideAll(calls[1..])
  }

  function InsideRefunds(refunds: seq<Refund>): (r: set<Call>)
    decreases refunds
  {
    if |refunds| == 0 then {}
    else
      match refunds[0]
      case Refund(id, onPayment) =>
        assert refunds decreases to refunds[0];
        InsideAll(onPayment.calls) + InsideRefunds(refunds[1..])
  }

  /** The call may give the transfer this status: a deposit, a reclaim, or an update of it that a majority of the federators
      has signed. */
  predicate Authorises(c: Call, federators: set<Address>, id: TransferId, status: Status) {
    match c
    case TransferToBtc(btcAddress, _, _, _) => status == New
    case ReclaimTransfer(_, reclaimed, _) => status == Reclaimed && id == reclaimed
    case MarkTransfersAsSending(_, _, ids, _) =>
      status == Sending && id in ids && Approved(federators, MessageOf(c).value, SignaturesOf(c))
    case MarkTransfersAsMined(_, ids, _) =>
      status == Mined && id in ids && Approved(federators, MessageOf(c).value, SignaturesOf(c))
    case RefundTransfers(_, refunds, _) =>
      status == Refunded && id in RefundIds(refunds) && Approved(federators, MessageOf(c).value, SignaturesOf(c))
    case _ => false
  }

  /** Every status in `t` that was not there in `s` was authorised by one of the calls. */
  ghost predicate Justified(s: State, t: State, calls: set<Call>, federators: set<Address>) {
    forall id, status :: HasStatus(t, id, status) && !HasStatus(s, id, status) ==>
      exists c :: c in calls && Authorises(c, federators, id, status)
  }

  /** The federators stay the same. */
  predicate KeepsFederators(calls: set<Call>, federators: set<Address>) {
    forall c :: c in calls && c.ChangeConfig? ==> c.newConfig.federators == federators
  }

  lemma JustifiedTrans(s: State, t: State, u: State, a: set<Call>, b: set<Call>, calls: set<Call>, federators: set<Address>)
    requires Justified(s, t, a, federators) && Justified(t, u, b, federators) && a + b <= calls
    ensures Justified(s, u, calls, federators)
  {
    hide Authorises, HasStatus;
    forall id, status | HasStatus(u, id, status) && !HasStatus(s, id, status)
      ensures exists c :: c in calls && Authorises(c, federators, id, status)
    {
      if HasStatus(t, id, status) {
        var c :| c in a && Authorises(c, federators, id, status);
      } else {
        var c :| c in b && Authorises(c, federators, id, status);
      }
    }
  }

  /** One transfer changes its status, for a reason that is among the calls. */
  lemma JustifiedChange(s: State, t: State, c: Call, id: TransferId, status: Status, calls: set<Call>, federators: set<Address>)
    requires c in calls && Authorises(c, federators, id, status)
    requires id in t.transfers && t.transfers[id].status == status && t.transfers == s.transfers[id := t.transfers[id]]
    ensures Justified(s, t, calls, federators)
  {
    hide Authorises;
  }

  /** No change without authorisation: after a call with any callbacks, to any depth, every status that is new was given
      by a deposit, by a reclaim, or by an update that a majority of the federators has signed, made in the course of it. */
  lemma {:induction false} EveryChangeAuthorised(s: State, call: Call, federators: set<Address>)
    requires Exec(s, call).Ok? && s.config.federators == federators && KeepsFederators(Inside(call), federators)
    ensures Exec(s, call).state.config.federators == federators
    ensures Justified(s, Exec(s, call).state, Inside(call), federators)
    decreases call
  {
    var t := Exec(s, call).state;
    hide Approved, Justified, Move, MoveAll, PayBack, Authorises;
    match call {
      case TransferToBtc(_, _, _, _) => DepositJustified(s, call, federators);
      case ReclaimTransfer(sender, id, onPayment) =>
        var paid := After(s, PayReclaim(sender, id));
        ReclaimJustified(s, call, federators);
        CallsAuthorised(paid, onPayment.calls, federators);
        JustifiedTrans(s, paid, RunCalls(paid, onPayment.calls), {call}, InsideAll(onPayment.calls), Inside(call), federators);
        SameStatuses(s, RunCalls(paid, onPayment.calls), t, Inside(call), federators);
      case MarkTransfersAsSending(_, _, _, _) => UpdateJustified(s, call, federators);
      case MarkTransfersAsMined(_, _, _) => UpdateJustified(s, call, federators);
      case RefundTransfers(_, refunds, _) =>
        RefundsJustify(s, call, federators);
        RefundsAuthorised(s, refunds, call, federators);
      case WithdrawRbtc(_, amount, onPayment) =>
        var paid := After(s, PayWithdrawal(amount));
        CallsAuthorised(paid, onPayment.calls, federators);
        SameStatuses(s, s, paid, {}, federators);
        JustifiedTrans(s, paid, t, {}, InsideAll(onPayment.calls), Inside(call), federators);
      case CopyNoncesFrom(_, _) => SameStatuses(s, s, t, Inside(call), federators);
      case MarkReadyBy(_) => SameStatuses(s, s, t, Inside(call), federators);
      case ChangeConfig(_) => SameStatuses(s, s, t, Inside(call), federators);
      case SelfDestructInto(_) => SameStatuses(s, s, t, Inside(call), federators);
      case EmitElsewhere(_) => SameStatuses(s, s, t, Inside(call), federators);
    }
  }

  lemma SameStatuses(s: State, t: State, u: State, calls: set<Call>, federators: set<Address>)
    requires (s == t || Justified(s, t, calls, federators)) && u.transfers == t.transfers
    ensures Justified(s, u, calls, federators)
  {
    hide Authorises;
  }

  lemma DepositJustified(s: State, call: Call, federators: set<Address>)
    requires call.TransferToBtc? && Exec(s, call).Ok?
    ensures Justified(s, Exec(s, call).state, Inside(call), federators)
    ensures Exec(s, call).state.config == s.config
  {
    JustifiedChange(s, Exec(s, call).state, call, GetTransferId(call.btcAddress, NextNonce(s, call.btcAddress)), New, Inside(call), federators);
  }

  lemma ReclaimJustified(s: State, call: Call, federators: set<Address>)
    requires call.ReclaimTransfer? && Enabled(s, PayReclaim(call.sender, call.id))
    ensures var paid := After(s, PayReclaim(call.sender, call.id));
      Justified(s, paid, {call}, federators) && paid.config == s.config
  {
    JustifiedChange(s, After(s, PayReclaim(call.sender, call.id)), call, call.id, Reclaimed, {call}, federators);
  }

  lemma UpdateJustified(s: State, call: Call, federators: set<Address>)
    requires (call.MarkTransfersAsSending? || call.MarkTransfersAsMined?) && Exec(s, call).Ok? && s.config.federators == federators
    ensures Justified(s, Exec(s, call).state, Inside(call), federators)
    ensures Exec(s, call).state.config == s.config
  {
    ApprovedIsQuorum(federators, MessageOf(call).value, SignaturesOf(call));
    hide Approved, IsQuorum, Justified;
    assert Inside(call) == {call};
    ListJustified(s, Exec(s, call).state, call, call.ids, if call.MarkTransfersAsMined? then Mined else Sending, federators);
  }

  lemma RefundsJustify(s: State, call: Call, federators: set<Address>)
    requires call.RefundTransfers? && Exec(s, call).Ok? && s.config.federators == federators
    ensures forall r :: r in call.refunds ==> Authorises(call, federators, r.id, Refunded)
  {
    ApprovedIsQuorum(federators, MessageOf(call).value, SignaturesOf(call));
    hide Approved, IsQuorum, RefundAll;
    forall r | r in call.refunds ensures Authorises(call, federators, r.id, Refunded) {
      var i :| 0 <= i < |call.refunds| && call.refunds[i] == r;
      assert RefundIds(call.refunds)[i] == r.id;
    }
  }

  lemma ListJustified(s: State, t: State, c: Call, ids: seq<TransferId>, status: Status, federators: set<Address>)
    requires t.transfers == SetStatus(s.transfers, ids, status)
    requires forall id :: id in ids ==> Authorises(c, federators, id, status)
    ensures Justified(s, t, {c}, federators)
  {
    hide Authorises;
    assert c in {c};
  }

  lemma {:induction false} CallsAuthorised(s: State, calls: seq<Call>, federators: set<Address>)
    requires s.config.federators == federators && KeepsFederators(InsideAll(calls), federators)
    ensures RunCalls(s, calls).config.federators == federators
    ensures Justified(s, RunCalls(s, calls), InsideAll(calls), federators)
    decreases calls
  {
    if |calls| > 0 {
      var r := Exec(s, calls[0]);
      var t := if r.Ok? then r.state else s;
      if r.Ok? {
        EveryChangeAuthorised(s, calls[0], federators);
      }
      CallsAuthorised(t, calls[1..], federators);
      JustifiedTrans(s, t, RunCalls(s, calls), Inside(calls[0]), InsideAll(calls[1..]), InsideAll(calls), federators);
    }
  }

  lemma {:induction false} RefundsAuthorised(s: State, refunds: seq<Refund>, c: Call, federators: set<Address>)
    requires RefundAll(s, refunds).Ok? && s.config.federators == federators && KeepsFederators(InsideRefunds(refunds), federators)
    requires forall r :: r in refunds ==> Authorises(c, federators, r.id, Refunded)
    ensures RefundAll(s, refunds).state.config.federators == federators
    ensures Justified(s, RefundAll(s, refunds).state, {c} + InsideRefunds(refunds), federators)
    decreases refunds
  {
    hide Authorises;
    if |refunds| > 0 {
      match refunds[0]
      case Refund(id, onPayment) =>
        assert refunds decreases to refunds[0];
        assert refunds[0] in refunds;
        var paid := After(s, PayRefund(id));
        var u := RunCalls(paid, onPayment.calls);
        var t := RefundAll(u, refunds[1..]).state;
        var inner, rest := InsideAll(onPayment.calls), {c} + InsideRefunds(refunds[1..]);
        var all := {c} + InsideRefunds(refunds);
        JustifiedChange(s, paid, c, id, Refunded, {c}, federators);
        CallsAuthorised(paid, onPayment.calls, federators);
        RefundsAuthorised(u, refunds[1..], c, federators);
        JustifiedTrans(s, paid, u, {c}, inner, {c} + inner, federators);
        JustifiedTrans(s, u, t, {c} + inner, rest, all, federators);
    }
  }
}
