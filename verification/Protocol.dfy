/** Whole runs of the system: no deposit is paid twice. */
module Protocol {
  import opened Base
  import opened TransferIds
  import opened Bitcoin
  import opened BridgeState
  import opened BridgeInvariants
  import opened BridgeTimeline
  import opened Payout
  import opened TransferBatches
  import opened BatchService
  import opened BitcoinSignatures
  import opened NodeIteration
  import opened SignedPayouts
  import opened ProtocolSystem

  ghost predicate IsRun(run: seq<System>, actions: seq<Action>, p: Params, valid: BtcAddress -> bool) {
    && |run| == |actions| + 1
    && Init(run[0], p)
    && forall i :: 0 <= i < |actions| ==>
         CanHappen(run[i], actions[i], p) && run[i + 1] == Next(run[i], actions[i], p, valid)
  }

  lemma {:induction false} RunInv(run: seq<System>, actions: seq<Action>, p: Params, valid: BtcAddress -> bool, i: nat)
    requires IsRun(run, actions, p, valid) && i < |run|
    ensures SystemInv(run[i], p, valid)
  {
    if i == 0 {
      InitInv(run[0], p, valid);
    } else {
      RunInv(run, actions, p, valid, i - 1);
      StepInv(run[i - 1], actions[i - 1], p, valid);
    }
  }

  lemma {:induction false} CheckedRemain(run: seq<System>, actions: seq<Action>, p: Params, valid: BtcAddress -> bool, i: nat, j: nat)
    requires IsRun(run, actions, p, valid) && i <= j < |run|
    ensures run[i].checked <= run[j].checked
  {
    if i < j {
      CheckedRemain(run, actions, p, valid, i, j - 1);
      assert CanHappen(run[j - 1], actions[j - 1], p);
    }
  }

  function Now(sys: System): State
    requires |sys.states| > 0
  {
    sys.states[|sys.states| - 1]
  }

  // ---- Transactions that an initiator signed alone ----

  /** The transactions in `alone` are exactly those of earlier updates in which an initiator got responses, but none with
      a signature, while its batch had none either. */
  lemma {:induction false} AloneExactly(run: seq<System>, actions: seq<Action>, p: Params, valid: BtcAddress -> bool, i: nat, tx: UnsignedTx)
    requires IsRun(run, actions, p, valid) && i < |run|
    ensures tx in run[i].alone <==>
      exists j :: 0 <= j < i && IsLone(actions[j]) && actions[j].batch.initialBtcTransaction.tx == tx
  {
    hide IsLone, Next, CanHappen, Init;
    if i == 0 {
      NobodyYet(run[0], p);
    } else {
      AloneExactly(run, actions, p, valid, i - 1, tx);
      var a := actions[i - 1];
      assert CanHappen(run[i - 1], a, p) && run[i] == Next(run[i - 1], a, p, valid);
      LoneStep(run[i - 1], a, p, valid);
    }
  }

  lemma NobodyYet(sys: System, p: Params)
    requires Init(sys, p)
    ensures sys.alone == {}
  {
  }

  lemma LoneStep(sys: System, a: Action, p: Params, valid: BtcAddress -> bool)
    requires CanHappen(sys, a, p)
    ensures Next(sys, a, p, valid).alone == if IsLone(a) then sys.alone + {a.batch.initialBtcTransaction.tx} else sys.alone
  {
    hide SignsAlone, Updated, LoadFromDto;
  }

  /** A response by a node that runs this code carries its signature, so one such response rules that case out. */
  lemma HonestNotLone(a: Action, dto: BatchDto, response: Psbt)
    requires a.Update? && response in a.responses.bitcoin && HonestResponse(dto, response)
    ensures !IsLone(a)
  {
    var k :| SignWith(dto.initialBtcTransaction, k) == Some(response);
    assert k in response.signedPublicKeys;
  }

  /** The update of an initiator that has just built a payout for its transfers and gets one empty response. */
  function LoneUpdate(me: Settings, transfers: seq<LoadedTransfer>, pays: seq<BtcTransfer>, inputs: seq<OutPoint>, change: int,
                      required: nat, outside: Outside): (a: Action)
  {
    var payment := Payment(inputs, pays, me.changeAddress, change, required);
    Update(me, FreshBatch(transfers, payment), Responses([], [payment], []), outside)
  }

  /** It is not ruled out by the initiator itself: with whatever transfers and payout it has built, committed or not, one
      empty response makes it sign, and the signature is then the only one. */
  lemma LoneSignature(sys: System, me: Settings, transfers: seq<LoadedTransfer>, pays: seq<BtcTransfer>, inputs: seq<OutPoint>,
                      change: int, required: nat, outside: Outside, p: Params, valid: BtcAddress -> bool)
    requires me.publicKey in sys.nodes && required >= 1
    ensures var a := LoneUpdate(me, transfers, pays, inputs, change, required, outside);
      var tx := Payment(inputs, pays, me.changeAddress, change, required).tx;
      && CanHappen(sys, a, p) && IsLone(a)
      && Next(sys, a, p, valid).signatures == sys.signatures + {(me.publicKey, tx)}
      && Next(sys, a, p, valid).alone == sys.alone + {tx}
      && Next(sys, a, p, valid).nodes.Keys == sys.nodes.Keys
  {
    var a := LoneUpdate(me, transfers, pays, inputs, change, required, outside);
    var payment := a.batch.initialBtcTransaction;
    EmptyResponseSignsAlone(payment, me.publicKey);
    assert payment.signedPublicKeys == [] && AllEmpty([payment]);
    assert IsLone(a);
    LoneUpdated(a.batch, payment, me, outside);
    var c := Updated(a.batch, a.responses, me, outside).value;
    hide Updated, Gathered, Saved;
    assert SignaturesOn(c) == {(me.publicKey, payment.tx)};
  }

  lemma LoneUpdated(b: TransferBatch, payment: Psbt, me: Settings, outside: Outside)
    requires b.initialBtcTransaction == payment && b.signedBtcTransaction.None? && payment.signedPublicKeys == []
    requires payment.requiredSignatures >= 1
    ensures var r := Updated(b, Responses([], [payment], []), me, outside);
      r.Some? && r.value.initialBtcTransaction == payment
      && r.value.signedBtcTransaction == Some(payment.(signedPublicKeys := [me.publicKey]))
  {
    EmptyResponseSignsAlone(payment, me.publicKey);
    hide Gathered;
  }

  /** One more action. */
  lemma RunExtends(run: seq<System>, actions: seq<Action>, a: Action, p: Params, valid: BtcAddress -> bool)
    requires IsRun(run, actions, p, valid) && CanHappen(run[|actions|], a, p)
    ensures IsRun(run + [Next(run[|actions|], a, p, valid)], actions + [a], p, valid)
  {
    hide CanHappen, Next, Init;
    var longer, more := run + [Next(run[|actions|], a, p, valid)], actions + [a];
    forall i | 0 <= i < |more| ensures CanHappen(longer[i], more[i], p) && longer[i + 1] == Next(longer[i], more[i], p, valid) {
      if i < |actions| {
        assert CanHappen(run[i], actions[i], p);
      }
    }
  }

  /** Two payouts with the same payments and different inputs: different transactions for the same deposits. */
  lemma SamePays(pays: seq<BtcTransfer>, changeAddress: BtcAddress, change: int, required: nat, x: OutPoint, y: OutPoint)
    requires |pays| > 0 && x != y
    ensures var one, two := Payment([x], pays, changeAddress, change, required).tx, Payment([y], pays, changeAddress, change, required).tx;
      && one != two && |Payload(one)| > 0 && |Payload(two)| > 0
      && OutputKey(one, 0).Some? && OutputKey(one, 0) == OutputKey(two, 0)
  {
    PaymentKeys([x], pays, changeAddress, change, required);
    PaymentKeys([y], pays, changeAddress, change, required);
    assert Payment([x], pays, changeAddress, change, required).tx.inputs[0] == x;
    assert Payment([y], pays, changeAddress, change, required).tx.inputs[0] == y;
  }

  /** Every run can be continued to a double payout by two updates with empty responses only: whatever transfers the
      initiator has, and whatever payments it builds for them, once from output `x` and once from output `y`, it
      signs two transactions that pay the same deposit. */
  lemma DoublePayoutContinues(run: seq<System>, actions: seq<Action>, p: Params, valid: BtcAddress -> bool, me: Settings,
                              transfers: seq<LoadedTransfer>, pays: seq<BtcTransfer>, x: OutPoint, y: OutPoint,
                              change: int, required: nat, outside: Outside)
    returns (longer: seq<System>, more: seq<Action>)
    requires IsRun(run, actions, p, valid) && me.publicKey in run[|actions|].nodes
    requires |pays| > 0 && x != y && required >= 1
    ensures IsRun(longer, more, p, valid) && run <= longer
    ensures more == actions + [LoneUpdate(me, transfers, pays, [x], change, required, outside),
                               LoneUpdate(me, transfers, pays, [y], change, required, outside)]
    ensures var end := longer[|more|];
      var one, two := Payment([x], pays, me.changeAddress, change, required).tx, Payment([y], pays, me.changeAddress, change, required).tx;
      && (me.publicKey, one) in end.signatures && (me.publicKey, two) in end.signatures && one != two
      && |Payload(one)| > 0 && |Payload(two)| > 0 && OutputKey(one, 0).Some? && OutputKey(one, 0) == OutputKey(two, 0)
  {
    hide IsRun, CanHappen, Next, Payment, LoneUpdate, IsLone;
    var a, b := LoneUpdate(me, transfers, pays, [x], change, required, outside), LoneUpdate(me, transfers, pays, [y], change, required, outside);
    SamePays(pays, me.changeAddress, change, required, x, y);
    RunLength(run, actions, p, valid);
    var sys := run[|actions|];
    LoneSignature(sys, me, transfers, pays, [x], change, required, outside, p, valid);
    RunExtends(run, actions, a, p, valid);
    var next := Next(sys, a, p, valid);
    longer, more := run + [next], actions + [a];
    assert longer[|more|] == next;
    LoneSignature(next, me, transfers, pays, [y], change, required, outside, p, valid);
    RunExtends(longer, more, b, p, valid);
    longer, more := longer + [Next(next, b, p, valid)], more + [b];
    assert more == actions + [a, b];
    assert longer[|more|] == Next(next, b, p, valid);
  }

  lemma RunLength(run: seq<System>, actions: seq<Action>, p: Params, valid: BtcAddress -> bool)
    requires IsRun(run, actions, p, valid)
    ensures |run| == |actions| + 1
  {
  }

  /** In particular a double payout is reachable from every initial system with a node. */
  lemma DoublePayoutReachable(sys: System, p: Params, valid: BtcAddress -> bool, me: Settings, transfers: seq<LoadedTransfer>,
                              pays: seq<BtcTransfer>, x: OutPoint, y: OutPoint, change: int, required: nat, outside: Outside)
    returns (run: seq<System>, actions: seq<Action>, one: UnsignedTx, two: UnsignedTx)
    requires Init(sys, p) && me.publicKey in sys.nodes && |pays| > 0 && x != y && required >= 1
    ensures IsRun(run, actions, p, valid) && run[0] == sys && |actions| == 2
    ensures (me.publicKey, one) in run[2].signatures && (me.publicKey, two) in run[2].signatures && one != two
    ensures |Payload(one)| > 0 && |Payload(two)| > 0 && OutputKey(one, 0).Some? && OutputKey(one, 0) == OutputKey(two, 0)
  {
    assert IsRun([sys], [], p, valid);
    hide IsRun, Init, Payment, LoneUpdate;
    run, actions := DoublePayoutContinues([sys], [], p, valid, me, transfers, pays, x, y, change, required, outside);
    one, two := Payment([x], pays, me.changeAddress, change, required).tx, Payment([y], pays, me.changeAddress, change, required).tx;
    assert run[0] == [sys][0];
  }

  // ---- Signed transactions ----

  /** Not signed alone, or signed after validation by some responder as well. */
  ghost predicate Vouched(sys: System, tx: UnsignedTx) {
    tx !in sys.alone || exists n :: (n, tx) in sys.checked
  }

  lemma SignedIsChecked(sys: System, p: Params, valid: BtcAddress -> bool, k: PublicKey, tx: UnsignedTx) returns (n: PublicKey)
    requires SystemInv(sys, p, valid) && (k, tx) in sys.signatures && Vouched(sys, tx)
    ensures (n, tx) in sys.checked
  {
    n :| (n, tx) in sys.checked;
  }

  lemma CheckedPays(sys: System, p: Params, valid: BtcAddress -> bool, n: PublicKey, tx: UnsignedTx) returns (b: nat)
    requires SystemInv(sys, p, valid) && (n, tx) in sys.checked
    ensures |sys.states| > 0 && Reachable(Now(sys)) && PaysBatch(Now(sys), b, tx)
  {
    LastIsReachable(sys.states);
    b :| PaysBatch(Now(sys), b, tx);
  }

  /** A deposit belongs to one batch only. */
  lemma BatchOfKeyUnique(s: State, a: nat, b: nat, key: Key)
    requires Reachable(s) && a < |s.history.batches| && b < |s.history.batches|
    requires InBatch(s, a, key) && InBatch(s, b, key)
    ensures a == b
  {
    ReachableInv(s);
  }

  /** A transaction has one batch at most. */
  lemma BatchOfTxUnique(s: State, a: nat, b: nat, tx: UnsignedTx)
    requires Reachable(s) && PaysBatch(s, a, tx) && PaysBatch(s, b, tx) && exists key :: Pays(tx, key)
    ensures a == b
  {
    hide Reachable;
    var key :| Pays(tx, key);
    BatchOfKeyUnique(s, a, b, key);
  }

  /** In every run, a transaction with any signature at all, the initiator's own included, is the one that was committed for
      some batch, and pays that batch: every deposit of it once and nothing else; unless it was signed alone
      and by no responder. */
  lemma SignedPaysBatch(run: seq<System>, actions: seq<Action>, p: Params, valid: BtcAddress -> bool, i: nat,
                        k: PublicKey, tx: UnsignedTx) returns (b: nat)
    requires IsRun(run, actions, p, valid) && i < |run| && (k, tx) in run[i].signatures && Vouched(run[i], tx)
    ensures |run[i].states| > 0 && PaysBatch(Now(run[i]), b, tx)
    ensures (exists key :: Pays(tx, key)) ==>
      forall c: nat :: PaysBatch(Now(run[i]), c, tx) ==> c == b
  {
    RunInv(run, actions, p, valid, i);
    hide IsRun, PaysBatch, Reachable, SystemInv;
    var n := SignedIsChecked(run[i], p, valid, k, tx);
    b := CheckedPays(run[i], p, valid, n, tx);
    if exists key :: Pays(tx, key) {
      forall c: nat | PaysBatch(Now(run[i]), c, tx) ensures c == b {
        BatchOfTxUnique(Now(run[i]), b, c, tx);
      }
    }
  }

  /** No double payout: in every run, no two outputs of transactions that carry any signature of any node are for the same
      deposit, neither in two transactions nor in one, whatever prefixes of the log the signers had scanned;
      unless one of the transactions was signed alone and by no responder. */
  lemma NoDoublePayout(run: seq<System>, actions: seq<Action>, p: Params, valid: BtcAddress -> bool, i: nat,
                       k: PublicKey, tx: UnsignedTx, m: nat, l: PublicKey, other: UnsignedTx, n: nat)
    requires IsRun(run, actions, p, valid) && i < |run|
    requires (k, tx) in run[i].signatures && (l, other) in run[i].signatures
    requires Vouched(run[i], tx) && Vouched(run[i], other)
    requires m < |Payload(tx)| && n < |Payload(other)|
    requires OutputKey(tx, m).Some? && OutputKey(tx, m) == OutputKey(other, n)
    ensures tx == other && m == n
  {
    RunInv(run, actions, p, valid, i);
    hide IsRun, SystemInv;
    var x := SignedIsChecked(run[i], p, valid, k, tx);
    var y := SignedIsChecked(run[i], p, valid, l, other);
    CheckedPaidOnce(run[i], p, valid, x, tx, m, y, other, n);
  }

  /** Two validated signatures, on whatever else: the transactions share no deposit. */
  lemma CheckedPaidOnce(sys: System, p: Params, valid: BtcAddress -> bool,
                        x: PublicKey, tx: UnsignedTx, m: nat, y: PublicKey, other: UnsignedTx, n: nat)
    requires SystemInv(sys, p, valid) && (x, tx) in sys.checked && (y, other) in sys.checked
    requires m < |Payload(tx)| && n < |Payload(other)|
    requires OutputKey(tx, m).Some? && OutputKey(tx, m) == OutputKey(other, n)
    ensures tx == other && m == n
  {
    hide SystemInv;
    var a := CheckedPays(sys, p, valid, x, tx);
    var b := CheckedPays(sys, p, valid, y, other);
    BatchOfPaidUnique(Now(sys), a, tx, b, other, OutputKey(tx, m).value);
  }

  lemma BatchOfPaidUnique(s: State, a: nat, tx: UnsignedTx, b: nat, other: UnsignedTx, key: Key)
    requires Reachable(s) && PaysBatch(s, a, tx) && PaysBatch(s, b, other) && Pays(tx, key) && Pays(other, key)
    ensures tx == other && PaysOnce(tx)
  {
    hide Reachable;
    BatchOfKeyUnique(s, a, b, key);
  }

  /** A deposit paid by a committed transaction is SENDING or MINED. */
  lemma PaidIsCommitted(s: State, b: nat, tx: UnsignedTx, key: Key)
    requires Inv(s) && PaysBatch(s, b, tx) && Pays(tx, key)
    ensures var id := GetTransferId(key.0, key.1); HasStatus(s, id, Sending) || HasStatus(s, id, Mined)
  {
    assert InBatch(s, b, key);
    var id :| id in s.history.batches[b].ids && id in s.transfers && KeyOfTransfer(s.transfers[id]) == key;
    assert id in s.history.committedIn;
  }

  /** Once a node has given a validated signature on a transaction, every deposit it pays is SENDING or MINED in every later
      state of the contract, inside calls too: it is never refunded or reclaimed. */
  lemma CheckedStaysCommitted(run: seq<System>, actions: seq<Action>, p: Params, valid: BtcAddress -> bool,
                              i: nat, j: nat, steps: seq<Step>, t: State, n: PublicKey, tx: UnsignedTx, key: Key)
    requires IsRun(run, actions, p, valid) && i <= j < |run|
    requires (n, tx) in run[i].checked && Pays(tx, key)
    requires |run[j].states| > 0 && Leads(Now(run[j]), steps, t)
    ensures var id := GetTransferId(key.0, key.1); HasStatus(t, id, Sending) || HasStatus(t, id, Mined)
  {
    hide Inv, Evolves, PaysBatch, SystemInv;
    RunInv(run, actions, p, valid, j);
    CheckedRemain(run, actions, p, valid, i, j);
    var s := Now(run[j]);
    var b := CheckedPays(run[j], p, valid, n, tx);
    ReachableInv(s);
    PaidIsCommitted(s, b, tx, key);
    EvolvesLeads(s, steps, t);
    EvolvesTransfer(s, t, GetTransferId(key.0, key.1));
  }

  /** The same once any signature exists on it, unless it was signed alone and by no responder. */
  lemma SignedStaysCommitted(run: seq<System>, actions: seq<Action>, p: Params, valid: BtcAddress -> bool,
                             i: nat, j: nat, steps: seq<Step>, t: State, k: PublicKey, tx: UnsignedTx, key: Key)
    requires IsRun(run, actions, p, valid) && i <= j < |run|
    requires (k, tx) in run[i].signatures && Vouched(run[i], tx) && Pays(tx, key)
    requires |run[j].states| > 0 && Leads(Now(run[j]), steps, t)
    ensures var id := GetTransferId(key.0, key.1); HasStatus(t, id, Sending) || HasStatus(t, id, Mined)
  {
    hide SystemInv;
    RunInv(run, actions, p, valid, i);
    var n := SignedIsChecked(run[i], p, valid, k, tx);
    CheckedStaysCommitted(run, actions, p, valid, i, j, steps, t, n, tx, key);
  }
}
