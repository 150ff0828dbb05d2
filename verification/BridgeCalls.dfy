/** The public functions of the contract as transactions see them: with access checks, reverts,
    and payments that hand control to arbitrary code, which may call the contract again. */
module BridgeCalls {
  import opened TransferIds
  import opened Bitcoin
  import opened AccessControl
  import opened BridgeState

  type Signatures = seq<Signature<UpdateMessage>>

  datatype Call =
    | TransferToBtc(btcAddress: BtcAddress, rskAddress: Address, value: nat, addressAccepted: bool)
    | ReclaimTransfer(sender: Address, id: TransferId, onPayment: Callback)
    | MarkTransfersAsSending(sender: Address, bitcoinTxHash: BtcHash, ids: seq<TransferId>, signatures: Signatures)
    | MarkTransfersAsMined(sender: Address, ids: seq<TransferId>, signatures: Signatures)
    | RefundTransfers(sender: Address, refunds: seq<Refund>, signatures: Signatures)
    | WithdrawRbtc(sender: Address, amount: nat, onPayment: Callback)
    | CopyNoncesFrom(sender: Address, oldNonces: seq<(BtcAddress, uint8)>)
    | MarkReadyBy(sender: Address)
    | ChangeConfig(newConfig: Config)
    | SelfDestructInto(wei: nat)
    | EmitElsewhere(count: nat)

  /** What the receiver of a payment does: it runs any calls, each of which may revert on its own,
      and then accepts the payment or reverts. */
  datatype Callback = Callback(calls: seq<Call>, accepts: bool)

  datatype Refund = Refund(id: TransferId, onPayment: Callback)

  datatype Outcome = Ok(state: State) | Reverted

  function RefundIds(refunds: seq<Refund>): (ids: seq<TransferId>)
    ensures |ids| == |refunds|
  {
    seq(|refunds|, i requires 0 <= i < |refunds| => refunds[i].id)
  }

  predicate FederatorCall(s: State, sender: Address, message: UpdateMessage, signatures: Signatures) {
    && sender in s.config.federators && !s.config.frozen && s.initialized
    && IsQuorum(s.config.federators, Recovered(message, signatures))
  }

  function Perform(s: State, allowed: bool, step: Step): (r: Outcome) {
    if allowed && Enabled(s, step) then Ok(After(s, step)) else Reverted
  }

  function Exec(s: State, call: Call): (r: Outcome)
    decreases call
  {
    match call
    case TransferToBtc(btcAddress, rskAddress, value, addressAccepted) =>
      Perform(s, true, Deposit(btcAddress, rskAddress, value, addressAccepted))
    case ReclaimTransfer(sender, id, onPayment) =>
      if !Enabled(s, PayReclaim(sender, id)) then Reverted
      else
        var r := AfterPayment(After(s, PayReclaim(sender, id)), onPayment);
        if r.Ok? then Ok(r.state.(reclaimEntered := false)) else Reverted
    case MarkTransfersAsSending(sender, bitcoinTxHash, ids, signatures) =>
      Perform(s, FederatorCall(s, sender, BatchUpdateWithTxHash(Sending, bitcoinTxHash, ids), signatures),
              CommitBatch(bitcoinTxHash, ids))
    case MarkTransfersAsMined(sender, ids, signatures) =>
      Perform(s, FederatorCall(s, sender, BatchUpdate(Mined, ids), signatures), MineBatch(ids))
    case RefundTransfers(sender, refunds, signatures) =>
      if FederatorCall(s, sender, BatchUpdate(Refunded, RefundIds(refunds)), signatures)
      then RefundAll(s, refunds) else Reverted
    case WithdrawRbtc(sender, amount, onPayment) =>
      if sender in s.config.admins && Enabled(s, PayWithdrawal(amount))
      then AfterPayment(After(s, PayWithdrawal(amount)), onPayment) else Reverted
    case CopyNoncesFrom(sender, oldNonces) =>
      Perform(s, sender in s.config.admins, CopyNonces(oldNonces))
    case MarkReadyBy(sender) => Perform(s, sender in s.config.admins, MarkReady)
    case ChangeConfig(newConfig) => Perform(s, true, Configure(newConfig))
    case SelfDestructInto(wei) => Perform(s, true, ForceEther(wei))
    case EmitElsewhere(count) => Perform(s, true, OtherLogs(count))
  }

  /** The rest of sendValue once the ether has moved: the receiver runs, and a refusal reverts. */
  function AfterPayment(s: State, onPayment: Callback): (r: Outcome)
    decreases onPayment
  {
    var after := RunCalls(s, onPayment.calls);
    if onPayment.accepts then Ok(after) else Reverted
  }

  function RunCalls(s: State, calls: seq<Call>): (r: State)
    decreases calls
  {
    if |calls| == 0 then s
    else
      var r := Exec(s, calls[0]);
      RunCalls(if r.Ok? then r.state else s, calls[1..])
  }

  function RefundAll(s: State, refunds: seq<Refund>): (r: Outcome)
    decreases refunds
  {
    if |refunds| == 0 then Ok(s)
    else
      match refunds[0]
      case Refund(id, onPayment) =>
        if !Enabled(s, PayRefund(id)) then Reverted
        else
          assert refunds decreases to refunds[0];
          var r := AfterPayment(After(s, PayRefund(id)), onPayment);
          if r.Ok? then RefundAll(r.state, refunds[1..]) else Reverted
  }

  // ---- Re-entrancy adds nothing: nested execution is a flat sequence of atomic steps ----

  /** None of the steps starts a new transaction or block. */
  predicate WithinTransaction(steps: seq<Step>) {
    forall i :: 0 <= i < |steps| ==> !steps[i].NextTransaction? && !steps[i].NextBlock?
  }

  lemma {:induction false} ExecIsFlat(s: State, call: Call) returns (steps: seq<Step>)
    requires Exec(s, call).Ok?
    ensures Leads(s, steps, Exec(s, call).state) && WithinTransaction(steps)
    decreases call
  {
    hide FederatorCall, AfterDeposit, AfterCommit, MoveAll;
    match call {
      case TransferToBtc(a, r, v, ok) => steps := Single(s, Deposit(a, r, v, ok));
      case ReclaimTransfer(sender, id, onPayment) =>
        var first := PaymentIsFlat(s, PayReclaim(sender, id), onPayment.calls);
        var after := RunCalls(After(s, PayReclaim(sender, id)), onPayment.calls);
        if after.reclaimEntered {
          var last := Single(after, EndReclaim);
          LeadsConcat(s, first, after, last, After(after, EndReclaim));
          steps := first + last;
        } else {
          assert after.(reclaimEntered := false) == after;
          steps := first;
        }
      case MarkTransfersAsSending(_, bitcoinTxHash, ids, _) => steps := Single(s, CommitBatch(bitcoinTxHash, ids));
      case MarkTransfersAsMined(_, ids, _) => steps := Single(s, MineBatch(ids));
      case RefundTransfers(_, refunds, _) => steps := RefundAllIsFlat(s, refunds);
      case WithdrawRbtc(_, amount, onPayment) =>
        steps := PaymentIsFlat(s, PayWithdrawal(amount), onPayment.calls);
      case CopyNoncesFrom(_, oldNonces) => steps := Single(s, CopyNonces(oldNonces));
      case MarkReadyBy(_) => steps := Single(s, MarkReady);
      case ChangeConfig(newConfig) => steps := Single(s, Configure(newConfig));
      case SelfDestructInto(wei) => steps := Single(s, ForceEther(wei));
      case EmitElsewhere(count) => steps := Single(s, OtherLogs(count));
    }
  }

  lemma Single(s: State, step: Step) returns (steps: seq<Step>)
    requires Enabled(s, step)
    ensures steps == [step] && Leads(s, steps, After(s, step))
  {
    steps := [step];
    assert Leads(After(s, step), steps[1..], After(s, step));
  }

  /** A step that pays, followed by whatever the receiver does. */
  lemma {:induction false} PaymentIsFlat(s: State, step: Step, calls: seq<Call>) returns (steps: seq<Step>)
    requires Enabled(s, step) && WithinTransaction([step])
    ensures Leads(s, steps, RunCalls(After(s, step), calls)) && WithinTransaction(steps)
    decreases calls, 1
  {
    var first := Single(s, step);
    var inner := RunCallsIsFlat(After(s, step), calls);
    LeadsConcat(s, first, After(s, step), inner, RunCalls(After(s, step), calls));
    steps := first + inner;
  }

  lemma {:induction false} RunCallsIsFlat(s: State, calls: seq<Call>) returns (steps: seq<Step>)
    ensures Leads(s, steps, RunCalls(s, calls)) && WithinTransaction(steps)
    decreases calls, 0
  {
    if |calls| == 0 {
      steps := [];
    } else {
      var r := Exec(s, calls[0]);
      if r.Ok? {
        var first := ExecIsFlat(s, calls[0]);
        var rest := RunCallsIsFlat(r.state, calls[1..]);
        LeadsConcat(s, first, r.state, rest, RunCalls(s, calls));
        steps := first + rest;
      } else {
        steps := RunCallsIsFlat(s, calls[1..]);
      }
    }
  }

  lemma {:induction false} RefundAllIsFlat(s: State, refunds: seq<Refund>) returns (steps: seq<Step>)
    requires RefundAll(s, refunds).Ok?
    ensures Leads(s, steps, RefundAll(s, refunds).state) && WithinTransaction(steps)
    decreases refunds
  {
    if |refunds| == 0 {
      steps := [];
    } else {
      match refunds[0]
      case Refund(id, onPayment) =>
        assert refunds decreases to refunds[0];
        var first := PaymentIsFlat(s, PayRefund(id), onPayment.calls);
        var after := RunCalls(After(s, PayRefund(id)), onPayment.calls);
        var rest := RefundAllIsFlat(after, refunds[1..]);
        LeadsConcat(s, first, after, rest, RefundAll(s, refunds).state);
        steps := first + rest;
    }
  }
}
