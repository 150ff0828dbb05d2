/** The contract itself: storage updated in place, loops, and payments that run foreign code.
    Each public method is proved against `Exec`, and every call into foreign code is made with the
    invariants in force (they are part of the precondition of `Receive`). */
module BridgeContract {
  import opened Base
  import opened TransferIds
  import opened Bitcoin
  import opened AccessControl
  import opened BridgeState
  import opened BridgeCalls
  import opened BridgeInvariants

  /** `ok` tells whether the call returned; a call that reverts leaves no trace. */
  ghost predicate Performs(before: State, call: Call, ok: bool, after: State) {
    && Exec(before, call) == (if ok then Ok(after) else Reverted)
    && (!ok ==> after == before)
  }

  lemma DistinctNext(ids: seq<TransferId>, k: nat)
    requires k < |ids| && NoDuplicates(ids[..k]) && ids[k] !in ids[..k]
    ensures NoDuplicates(ids[..k + 1])
  {
    assert ids[..k + 1] == ids[..k] + [ids[k]];
  }

  /** A batch stops at its first transfer that is missing, in the wrong status, or repeated. */
  lemma StuckBatch(s: State, ids: seq<TransferId>, k: nat, before: Status, after: Status)
    requires k < |ids| && before != after
    requires var m := SetStatus(s.transfers, ids[..k], after); ids[k] !in m || m[ids[k]].status != before
    ensures !(NoDuplicates(ids) && AllHaveStatus(s, ids, before))
  {
    assert ids[k] in ids;
    if ids[k] in ids[..k] {
      var j :| 0 <= j < k && ids[..k][j] == ids[k];
      assert ids[j] == ids[k];
    } else {
      assert !HasStatus(s, ids[k], before);
    }
  }

  lemma CommitCovered(s: State, ids: seq<TransferId>)
    requires Reachable(s) && NoDuplicates(ids) && AllHaveStatus(s, ids, New)
    ensures s.totalAdminWithdrawableRbtc + WeiOf(s.transfers, ids) < UINT256
  {
    ReachableInv(s);
    CommitFits(s, ids);
  }

  /** Adding one more waiting transfer to the withdrawable total does not wrap. */
  lemma AddFits(s: State, ids: seq<TransferId>, k: nat)
    requires Reachable(s) && k < |ids|
    requires NoDuplicates(ids[..k]) && AllHaveStatus(s, ids[..k], New)
    requires ids[k] !in ids[..k] && HasStatus(s, ids[k], New)
    ensures NoDuplicates(ids[..k + 1]) && AllHaveStatus(s, ids[..k + 1], New)
    ensures WeiOf(s.transfers, ids[..k + 1]) == WeiOf(s.transfers, ids[..k]) + s.transfers[ids[k]].Wei()
    ensures s.totalAdminWithdrawableRbtc + WeiOf(s.transfers, ids[..k + 1]) < UINT256
  {
    DistinctNext(ids, k);
    assert ids[..k + 1] == ids[..k] + [ids[k]];
    CommitCovered(s, ids[..k + 1]);
  }

  /** Storage after `k` of the transfers of a batch have been marked. */
  function Marking(s: State, bitcoinTxHash: BtcHash, ids: seq<TransferId>, k: nat): (r: State)
    requires k <= |ids| && AllHaveStatus(s, ids[..k], New)
  {
    MoveAll(Emit(s, BatchSending(bitcoinTxHash, |ids| % 256)), ids[..k], Sending).(
      totalAdminWithdrawableRbtc := s.totalAdminWithdrawableRbtc + WeiOf(s.transfers, ids[..k]))
  }

  lemma MarkingStarts(s: State, bitcoinTxHash: BtcHash, ids: seq<TransferId>)
    ensures Marking(s, bitcoinTxHash, ids, 0) == Emit(s, BatchSending(bitcoinTxHash, |ids| % 256))
  {
    assert ids[..0] == [];
    assert SetStatus(s.transfers, [], Sending) == s.transfers;
  }

  lemma MarkingNext(s: State, bitcoinTxHash: BtcHash, ids: seq<TransferId>, k: nat)
    requires Reachable(s) && k < |ids|
    requires NoDuplicates(ids[..k]) && AllHaveStatus(s, ids[..k], New)
    requires HasStatus(Marking(s, bitcoinTxHash, ids, k), ids[k], New)
    ensures NoDuplicates(ids[..k + 1]) && AllHaveStatus(s, ids[..k + 1], New)
    ensures var m := Marking(s, bitcoinTxHash, ids, k);
      Move(m.(totalAdminWithdrawableRbtc := (m.totalAdminWithdrawableRbtc + m.transfers[ids[k]].Wei()) % UINT256), ids[k], Sending)
      == Marking(s, bitcoinTxHash, ids, k + 1)
  {
    AddFits(s, ids, k);
    MoveNext(Emit(s, BatchSending(bitcoinTxHash, |ids| % 256)), ids, k, Sending);
  }

  lemma MarkingEnds(s: State, bitcoinTxHash: BtcHash, ids: seq<TransferId>)
    requires Reachable(s) && Enabled(s, CommitBatch(bitcoinTxHash, ids))
    ensures AllHaveStatus(s, ids[..|ids|], New)
    ensures var m := Marking(s, bitcoinTxHash, ids, |ids|);
      AfterCommit(s, bitcoinTxHash, ids) == m.(
        history := WithBatch(s.history, Batch(bitcoinTxHash, ids)))
    ensures Reachable(AfterCommit(s, bitcoinTxHash, ids))
  {
    hide Reachable, WithBatch;
    assert ids[..|ids|] == ids;
    CommitCovered(s, ids);
    ReachableStep(s, CommitBatch(bitcoinTxHash, ids));
  }

  /** The contract before and after an accepted deposit. */
  lemma DepositFresh(s: State, btcAddress: BtcAddress)
    requires Reachable(s) && NextNonce(s, btcAddress) <= MAXIMUM_VALID_NONCE
    ensures GetTransferId(btcAddress, NextNonce(s, btcAddress)) !in s.transfers
  {
    ReachableInv(s);
    FreshId(s, btcAddress);
  }

  class FastBTCBridge {
    var config: Config
    var clock: Clock
    var transfers: map<TransferId, BitcoinTransfer>
    var nextNonces: map<BtcAddress, uint8>
    var totalAdminWithdrawableRbtc: nat
    var initialized: bool
    var reclaimEntered: bool
    var balance: nat
    var log: seq<LogEntry>
    var history: History

    function Contents(): (s: State)
      reads this
    {
      State(config, clock, transfers, nextNonces, totalAdminWithdrawableRbtc, initialized, reclaimEntered,
            balance, log, history)
    }

    constructor (config: Config, at: Clock, prefunded: nat)
      requires config.WithinBounds() && at.logIndex == 0 && prefunded < UINT256
      ensures IsInitial(Contents()) && Reachable(Contents())
      ensures this.config == config && clock == at && balance == prefunded
    {
      this.config, clock := config, at;
      transfers, nextNonces, totalAdminWithdrawableRbtc := map[], map[], 0;
      initialized, reclaimEntered := false, false;
      balance, log := prefunded, [];
      history := History(prefunded, 0, 0, [], map[]);
      new;
      InitialReachable(Contents());
    }

    /** What the virtual machine does on a revert. */
    method Restore(s: State)
      modifies this
      ensures Contents() == s
    {
      config, clock, transfers, nextNonces := s.config, s.clock, s.transfers, s.nextNonces;
      totalAdminWithdrawableRbtc, initialized, reclaimEntered := s.totalAdminWithdrawableRbtc, s.initialized, s.reclaimEntered;
      balance, log, history := s.balance, s.log, s.history;
    }

    method EmitEvent(event: Event)
      modifies this`log, this`clock
      ensures Contents() == Emit(old(Contents()), event)
    {
      log := log + [LogEntry(clock, event)];
      clock := clock.(logIndex := clock.logIndex + 1);
    }

    method UpdateTransferStatus(id: TransferId, status: Status)
      requires id in transfers
      modifies this`transfers, this`log, this`clock
      ensures Contents() == Move(old(Contents()), id, status)
    {
      transfers := transfers[id := transfers[id].(status := status)];
      EmitEvent(StatusUpdated(id, status));
    }

    method TransferToBtc(btcAddress: BtcAddress, rskAddress: Address, value: nat, addressAccepted: bool) returns (ok: bool)
      requires Reachable(Contents())
      modifies this
      ensures Reachable(Contents())
      ensures Performs(old(Contents()), Call.TransferToBtc(btcAddress, rskAddress, value, addressAccepted), ok, Contents())
    {
      hide Reachable;
      ghost var before := Contents();
      if config.paused || !initialized { return false; }
      if balance + value >= UINT256 { return false; }  // there is not that much ether
      if !addressAccepted { return false; }  // "Invalid BTC address"
      var nonce := if btcAddress in nextNonces then nextNonces[btcAddress] else 0;
      if nonce > MAXIMUM_VALID_NONCE { return false; }
      if value % SATOSHI_DIVISOR != 0 { return false; }
      var amountSatoshi := value / SATOSHI_DIVISOR;
      if amountSatoshi < config.minTransferSatoshi { return false; }
      if amountSatoshi > config.maxTransferSatoshi { return false; }
      var feeSatoshi := config.FeeSatoshi(amountSatoshi);
      var id := GetTransferId(btcAddress, nonce);
      DepositFresh(before, btcAddress);
      assert id !in transfers;  // "Transfer already exists" is dead code
      if feeSatoshi > amountSatoshi { return false; }
      balance := balance + value;
      transfers := transfers[id := BitcoinTransfer(rskAddress, New, nonce, config.currentFeeStructureIndex,
                                                   clock.block % UINT32, amountSatoshi % UINT40, btcAddress)];
      nextNonces := nextNonces[btcAddress := nonce + 1];
      EmitEvent(NewBitcoinTransfer(id, btcAddress, nonce, amountSatoshi - feeSatoshi, feeSatoshi, rskAddress));
      ReachableStep(before, Deposit(btcAddress, rskAddress, value, addressAccepted));
      return true;
    }

    method MarkTransfersAsSending(sender: Address, bitcoinTxHash: BtcHash, ids: seq<TransferId>, signatures: Signatures)
      returns (ok: bool)
      requires Reachable(Contents())
      modifies this
      ensures Reachable(Contents())
      ensures Performs(old(Contents()), Call.MarkTransfersAsSending(sender, bitcoinTxHash, ids, signatures), ok, Contents())
    {
      var before := Contents();
      if sender !in config.federators || config.frozen || !initialized { return false; }
      EmitEvent(BatchSending(bitcoinTxHash, |ids| % 256));
      MarkingStarts(before, bitcoinTxHash, ids);
      var accepted := CheckFederatorSignatures(config.federators, BatchUpdateWithTxHash(Sending, bitcoinTxHash, ids), signatures);
      if !accepted { Restore(before); return false; }
      ok := MarkEach(bitcoinTxHash, ids, before);
      if !ok { Restore(before); return; }
      MarkingEnds(before, bitcoinTxHash, ids);
      history := WithBatch(history, Batch(bitcoinTxHash, ids));
    }

    /** The body of the unchecked loop of markTransfersAsSending. */
    method MarkOne(ghost bitcoinTxHash: BtcHash, ids: seq<TransferId>, i: nat, ghost before: State) returns (ok: bool)
      requires Reachable(before) && i < |ids|
      requires NoDuplicates(ids[..i]) && AllHaveStatus(before, ids[..i], New)
      requires Contents() == Marking(before, bitcoinTxHash, ids, i)
      modifies this`totalAdminWithdrawableRbtc, this`transfers, this`log, this`clock
      ensures !ok ==> !(NoDuplicates(ids) && AllHaveStatus(before, ids, New))
      ensures ok ==> NoDuplicates(ids[..i + 1]) && AllHaveStatus(before, ids[..i + 1], New)
      ensures ok ==> Contents() == Marking(before, bitcoinTxHash, ids, i + 1)
    {
      if ids[i] !in transfers || transfers[ids[i]].status != New {
        StuckBatch(before, ids, i, New, Sending);
        return false;
      }
      MarkingNext(before, bitcoinTxHash, ids, i);
      totalAdminWithdrawableRbtc := (totalAdminWithdrawableRbtc + transfers[ids[i]].totalAmountSatoshi * SATOSHI_DIVISOR) % UINT256;
      UpdateTransferStatus(ids[i], Sending);
      return true;
    }

    /** The unchecked loop of markTransfersAsSending. */
    method MarkEach(ghost bitcoinTxHash: BtcHash, ids: seq<TransferId>, ghost before: State) returns (ok: bool)
      requires Reachable(before) && Contents() == Marking(before, bitcoinTxHash, ids, 0)
      modifies this
      ensures ok <==> NoDuplicates(ids) && AllHaveStatus(before, ids, New)
      ensures ok ==> ids[..|ids|] == ids && Contents() == Marking(before, bitcoinTxHash, ids, |ids|)
    {
      var i := 0;
      while i < |ids|
        invariant 0 <= i <= |ids|
        invariant NoDuplicates(ids[..i]) && AllHaveStatus(before, ids[..i], New)
        invariant Contents() == Marking(before, bitcoinTxHash, ids, i)
      {
        ok := MarkOne(bitcoinTxHash, ids, i, before);
        if !ok { return; }
        i := i + 1;
      }
      assert ids[..i] == ids;
      return true;
    }

    method MarkTransfersAsMined(sender: Address, ids: seq<TransferId>, signatures: Signatures) returns (ok: bool)
      requires Reachable(Contents())
      modifies this
      ensures Reachable(Contents())
      ensures Performs(old(Contents()), Call.MarkTransfersAsMined(sender, ids, signatures), ok, Contents())
    {
      var before := Contents();
      hide Reachable;
      if sender !in config.federators || config.frozen || !initialized { return false; }
      var accepted := CheckFederatorSignatures(config.federators, BatchUpdate(Mined, ids), signatures);
      if !accepted { return false; }
      var i := 0;
      assert MoveAll(before, ids[..0], Mined) == before by {
        assert SetStatus(before.transfers, ids[..0], Mined) == before.transfers;
      }
      while i < |ids|
        invariant 0 <= i <= |ids|
        invariant NoDuplicates(ids[..i]) && AllHaveStatus(before, ids[..i], Sending)
        invariant Contents() == MoveAll(before, ids[..i], Mined)
      {
        if ids[i] !in transfers || transfers[ids[i]].status != Sending {
          StuckBatch(before, ids, i, Sending, Mined);
          Restore(before);
          return false;
        }
        assert ids[..i + 1] == ids[..i] + [ids[i]];
        DistinctNext(ids, i);
        UpdateTransferStatus(ids[i], Mined);
        MoveNext(before, ids, i, Mined);
        i := i + 1;
      }
      assert ids[..i] == ids;
      ReachableStep(before, MineBatch(ids));
      return true;
    }

    method ReclaimTransfer(sender: Address, id: TransferId, onPayment: Callback) returns (ok: bool)
      requires Reachable(Contents())
      modifies this
      ensures Reachable(Contents())
      ensures Performs(old(Contents()), Call.ReclaimTransfer(sender, id, onPayment), ok, Contents())
      decreases onPayment, 3
    {
      var before := Contents();
      if reclaimEntered || config.frozen || !initialized { return false; }
      if id !in transfers || transfers[id].status != New { return false; }
      if transfers[id].rskAddress != sender { return false; }
      if clock.block < transfers[id].blockNumber { return false; }  // checked subtraction
      if clock.block - transfers[id].blockNumber < config.requiredBlocksBeforeReclaim { return false; }
      reclaimEntered := true;
      PendingCovered(before, id);
      UpdateTransferStatus(id, Reclaimed);
      ReachableStep(before, PayReclaim(sender, id));
      ok := RefundTransferRbtc(id, onPayment);
      if !ok { Restore(before); return; }
      if reclaimEntered { ReachableStep(Contents(), EndReclaim); }
      reclaimEntered := false;
    }

    method RefundTransfers(sender: Address, refunds: seq<Refund>, signatures: Signatures) returns (ok: bool)
      requires Reachable(Contents())
      modifies this
      ensures Reachable(Contents())
      ensures Performs(old(Contents()), Call.RefundTransfers(sender, refunds, signatures), ok, Contents())
      decreases refunds, 3
    {
      hide Reachable, RunCalls;
      var before := Contents();
      if sender !in config.federators || config.frozen || !initialized { return false; }
      var accepted := CheckFederatorSignatures(config.federators, BatchUpdate(Refunded, RefundIds(refunds)), signatures);
      if !accepted { return false; }
      var i := 0;
      while i < |refunds|
        invariant 0 <= i <= |refunds|
        invariant Reachable(Contents()) && initialized
        invariant RefundAll(Contents(), refunds[i..]) == RefundAll(before, refunds)
      {
        ghost var now := Contents();
        var id := refunds[i].id;
        assert refunds[i..][0] == refunds[i] && refunds[i..][1..] == refunds[i + 1..];
        if id !in transfers || transfers[id].status != New { Restore(before); return false; }
        PendingCovered(now, id);
        UpdateTransferStatus(id, Refunded);
        ReachableStep(now, PayRefund(id));
        assert refunds decreases to refunds[i];
        ok := RefundTransferRbtc(id, refunds[i].onPayment);
        if !ok { Restore(before); return; }
        i := i + 1;
      }
      return true;
    }

    /** _refundTransferRbtc: the status is already final when the ether leaves. */
    method RefundTransferRbtc(id: TransferId, onPayment: Callback) returns (ok: bool)
      requires id in transfers && transfers[id].Wei() <= balance
      requires Reachable(PayBack(Contents(), transfers[id].Wei()))
      modifies this
      ensures ok ==> Reachable(Contents()) && (old(initialized) ==> initialized)
      ensures AfterPayment(PayBack(old(Contents()), old(transfers[id].Wei())), onPayment)
           == if ok then Ok(Contents()) else Reverted
      decreases onPayment, 2
    {
      var refundWei := transfers[id].totalAmountSatoshi * SATOSHI_DIVISOR;
      history := history.(returned := history.returned + refundWei);
      ok := SendValue(refundWei, onPayment);
    }

    method WithdrawRbtc(sender: Address, amount: nat, onPayment: Callback) returns (ok: bool)
      requires Reachable(Contents())
      modifies this
      ensures Reachable(Contents())
      ensures Performs(old(Contents()), Call.WithdrawRbtc(sender, amount, onPayment), ok, Contents())
      decreases onPayment, 3
    {
      hide Reachable, RunCalls;
      var before := Contents();
      if sender !in config.admins { return false; }
      if amount > totalAdminWithdrawableRbtc { return false; }  // "Can only withdraw unsent transfers"
      WithdrawalCovered(before);
      ReachableStep(before, PayWithdrawal(amount));
      totalAdminWithdrawableRbtc := totalAdminWithdrawableRbtc - amount;
      history := history.(withdrawn := history.withdrawn + amount);
      ok := SendValue(amount, onPayment);
      if !ok { Restore(before); }
    }

    /** Address.sendValue: "insufficient balance" is ruled out by the precondition. */
    method SendValue(amount: nat, onPayment: Callback) returns (ok: bool)
      requires amount <= balance && Reachable(Contents().(balance := balance - amount))
      modifies this
      ensures ok ==> Reachable(Contents()) && (old(initialized) ==> initialized)
      ensures AfterPayment(old(Contents().(balance := balance - amount)), onPayment)
           == if ok then Ok(Contents()) else Reverted
      decreases onPayment, 1
    {
      balance := balance - amount;
      ReachableInv(Contents());
      ok := Receive(onPayment);
    }

    /** Foreign code has control: every such moment meets the precondition, so the contract is
        solvent here, and again when it gets control back. */
    method Receive(onPayment: Callback) returns (accepted: bool)
      requires Reachable(Contents()) && Inv(Contents())
      modifies this
      ensures Reachable(Contents()) && (old(initialized) ==> initialized)
      ensures Contents() == RunCalls(old(Contents()), onPayment.calls) && accepted == onPayment.accepts
      decreases onPayment, 0
    {
      var calls := onPayment.calls;
      ghost var before := Contents();
      var i := 0;
      while i < |calls|
        invariant 0 <= i <= |calls|
        invariant Reachable(Contents()) && (before.initialized ==> initialized)
        invariant RunCalls(Contents(), calls[i..]) == RunCalls(before, calls)
      {
        assert calls[i..][0] == calls[i] && calls[i..][1..] == calls[i + 1..];
        var ok := Dispatch(calls[i]);
        i := i + 1;
      }
      return onPayment.accepts;
    }

    method Dispatch(call: Call) returns (ok: bool)
      requires Reachable(Contents())
      modifies this
      ensures Reachable(Contents()) && (old(initialized) ==> initialized)
      ensures Performs(old(Contents()), call, ok, Contents())
      decreases call, 4
    {
      ghost var before := Contents();
      match call {
        case TransferToBtc(btcAddress, rskAddress, value, addressAccepted) =>
          ok := TransferToBtc(btcAddress, rskAddress, value, addressAccepted);
        case ReclaimTransfer(sender, id, onPayment) => ok := ReclaimTransfer(sender, id, onPayment);
        case MarkTransfersAsSending(sender, bitcoinTxHash, ids, signatures) =>
          ok := MarkTransfersAsSending(sender, bitcoinTxHash, ids, signatures);
        case MarkTransfersAsMined(sender, ids, signatures) => ok := MarkTransfersAsMined(sender, ids, signatures);
        case RefundTransfers(sender, refunds, signatures) => ok := RefundTransfers(sender, refunds, signatures);
        case WithdrawRbtc(sender, amount, onPayment) => ok := WithdrawRbtc(sender, amount, onPayment);
        case CopyNoncesFrom(sender, oldNonces) => ok := CopyNonces(sender, oldNonces);
        case MarkReadyBy(sender) => ok := MarkReady(sender);
        case ChangeConfig(newConfig) => ok := SetConfig(newConfig);
        case SelfDestructInto(wei) => ok := AcceptForcedEther(wei);
        case EmitElsewhere(count) => ok := SkipLogs(count);
      }
      if ok { InitializedStays(before, call); }
    }

    method CopyNonces(sender: Address, oldNonces: seq<(BtcAddress, uint8)>) returns (ok: bool)
      requires Reachable(Contents())
      modifies this
      ensures Reachable(Contents())
      ensures Performs(old(Contents()), Call.CopyNoncesFrom(sender, oldNonces), ok, Contents())
    {
      ghost var before := Contents();
      if sender !in config.admins || initialized { return false; }
      var i := 0;
      while i < |oldNonces|
        invariant 0 <= i <= |oldNonces|
        invariant Contents() == before.(nextNonces := WriteNonces(before.nextNonces, oldNonces[..i]))
      {
        assert oldNonces[..i + 1][..i] == oldNonces[..i];
        nextNonces := nextNonces[oldNonces[i].0 := oldNonces[i].1];
        i := i + 1;
      }
      assert oldNonces[..i] == oldNonces;
      ReachableStep(before, Step.CopyNonces(oldNonces));
      return true;
    }

    method MarkReady(sender: Address) returns (ok: bool)
      requires Reachable(Contents())
      modifies this
      ensures Reachable(Contents()) && Performs(old(Contents()), Call.MarkReadyBy(sender), ok, Contents())
    {
      if sender !in config.admins || initialized { return false; }
      ReachableStep(Contents(), Step.MarkReady);
      initialized := true;
      return true;
    }

    /** Any of the admin, pauser and guard setters. */
    method SetConfig(newConfig: Config) returns (ok: bool)
      requires Reachable(Contents())
      modifies this
      ensures Reachable(Contents()) && Performs(old(Contents()), Call.ChangeConfig(newConfig), ok, Contents())
    {
      if !newConfig.WithinBounds() { return false; }
      ReachableStep(Contents(), Configure(newConfig));
      config := newConfig;
      return true;
    }

    /** Ether that arrives without a call. */
    method AcceptForcedEther(wei: nat) returns (ok: bool)
      requires Reachable(Contents())
      modifies this
      ensures Reachable(Contents()) && Performs(old(Contents()), Call.SelfDestructInto(wei), ok, Contents())
    {
      hide Reachable;
      if balance + wei >= UINT256 { return false; }
      ReachableStep(Contents(), ForceEther(wei));
      balance, history := balance + wei, history.(forced := history.forced + wei);
      return true;
    }

    /** Events of other contracts take log indices too. */
    method SkipLogs(count: nat) returns (ok: bool)
      requires Reachable(Contents())
      modifies this
      ensures Reachable(Contents()) && Performs(old(Contents()), Call.EmitElsewhere(count), ok, Contents())
    {
      ReachableStep(Contents(), OtherLogs(count));
      clock := clock.(logIndex := clock.logIndex + count);
      return true;
    }
  }

  /** A waiting transfer can always be paid back: the balance covers it. */
  lemma PendingCovered(s: State, id: TransferId)
    requires Reachable(s) && HasStatus(s, id, New)
    ensures s.transfers[id].Wei() <= s.balance
  {
    ReachableInv(s);
    HeldPick(s.transfers, s.transfers.Keys, Pending, id);
  }

  /** What admins may withdraw is always there. */
  lemma WithdrawalCovered(s: State)
    requires Reachable(s)
    ensures s.totalAdminWithdrawableRbtc <= s.balance
  {
    ReachableInv(s);
  }

  lemma {:induction false} InitializedLeads(s: State, steps: seq<Step>, t: State)
    requires Leads(s, steps, t)
    ensures s.initialized ==> t.initialized
    decreases |steps|
  {
    if |steps| != 0 {
      InitializedLeads(After(s, steps[0]), steps[1..], t);
    }
  }

  lemma InitializedStays(s: State, call: Call)
    requires Exec(s, call).Ok?
    ensures s.initialized ==> Exec(s, call).state.initialized
  {
    var steps := ExecIsFlat(s, call);
    InitializedLeads(s, steps, Exec(s, call).state);
  }
}
