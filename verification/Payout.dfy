/** btc/multisig.ts: coin selection, the outputs of a payout transaction, and reading them back. */
module Payout {
  import opened Base
  import opened TransferIds
  import opened Bitcoin

  type PublicKey = nat

  datatype Psbt = Psbt(
    tx: UnsignedTx,
    signedPublicKeys: seq<PublicKey>,
    requiredSignatures: nat,
    noChange: bool)

  datatype BtcTransfer = BtcTransfer(btcAddress: BtcAddress, amountSatoshi: int, nonce: nat)

  type Key = (BtcAddress, nat)

  function KeyOf(t: BtcTransfer): Key { (t.btcAddress, t.nonce) }

  function Keys(transfers: seq<BtcTransfer>): (keys: seq<Key>)
    ensures |keys| == |transfers|
    ensures forall i :: 0 <= i < |keys| ==> keys[i] == KeyOf(transfers[i])
  {
    seq(|transfers|, i requires 0 <= i < |transfers| => KeyOf(transfers[i]))
  }

  // ---- Reading the payouts of a transaction ----

  /** The nonces in the OP_RETURN output, if the first output is one with a single push. */
  function Payload(tx: UnsignedTx): (data: seq<byte>) {
    if |tx.outputs| > 0 && tx.outputs[0].script.Data? && |tx.outputs[0].script.pushes| == 1
    then tx.outputs[0].script.pushes[0] else []
  }

  function OutputKey(tx: UnsignedTx, i: nat): (key: Option<Key>)
    requires i < |Payload(tx)|
  {
    if i + 1 < |tx.outputs| && tx.outputs[i + 1].script.PayTo?
    then Some((tx.outputs[i + 1].script.address, Payload(tx)[i] as nat)) else None
  }

  /** The deposits that a transaction pays, by address and nonce: a property of the transaction alone. */
  ghost predicate Pays(tx: UnsignedTx, key: Key) {
    exists i :: 0 <= i < |Payload(tx)| && OutputKey(tx, i) == Some(key)
  }

  /** No two outputs are for the same deposit. */
  predicate PaysOnce(tx: UnsignedTx) {
    forall i, j :: 0 <= i < j < |Payload(tx)| && OutputKey(tx, i).Some? ==> OutputKey(tx, i) != OutputKey(tx, j)
  }

  function TransferLength(psbt: Psbt): int {
    |psbt.tx.outputs| - (if psbt.noChange then 1 else 2)
  }

  /** The transfer that output `i + 1` and byte `i` of the payload describe. */
  function TransferAt(tx: UnsignedTx, i: nat): (t: BtcTransfer)
    requires i < |Payload(tx)| && OutputKey(tx, i).Some?
  {
    BtcTransfer(tx.outputs[i + 1].script.address, tx.outputs[i + 1].value, Payload(tx)[i] as nat)
  }

  /** The shape getTransactionTransfers insists on. */
  predicate WellFormed(psbt: Psbt, changeAddress: BtcAddress) {
    var outputs, n := psbt.tx.outputs, TransferLength(psbt);
    && n >= 1
    && outputs[0].value == 0
    && outputs[0].script.Data? && outputs[0].script.startsWithOpReturn && |outputs[0].script.pushes| == 1
    && |Payload(psbt.tx)| == n
    && (!psbt.noChange ==> outputs[|outputs| - 1].script == PayTo(changeAddress))
    && (forall i :: 0 <= i < n ==> OutputKey(psbt.tx, i).Some? && OutputKey(psbt.tx, i).value.1 < 255)
    && (forall i, j :: 0 <= i < j < n ==> OutputKey(psbt.tx, i) != OutputKey(psbt.tx, j))
  }

  function ReadTransfers(psbt: Psbt, changeAddress: BtcAddress): (r: Option<seq<BtcTransfer>>) {
    if !WellFormed(psbt, changeAddress) then None
    else Some(seq(TransferLength(psbt), i requires 0 <= i < TransferLength(psbt) && WellFormed(psbt, changeAddress) =>
      TransferAt(psbt.tx, i)))
  }

  /** None stands for any of the thrown errors. */
  method GetTransactionTransfers(psbt: Psbt, changeAddress: BtcAddress) returns (r: Option<seq<BtcTransfer>>)
    ensures r == ReadTransfers(psbt, changeAddress)
  {
    var outputs := psbt.tx.outputs;
    var transferLength := TransferLength(psbt);
    if transferLength < 1 { return None; }
    var dataOutput := outputs[0];
    if dataOutput.value != 0 { return None; }
    if !dataOutput.script.Data? || !dataOutput.script.startsWithOpReturn { return None; }
    if |dataOutput.script.pushes| != 1 { return None; }
    var dataPayment := dataOutput.script.pushes[0];
    if |dataPayment| != transferLength { return None; }
    if !psbt.noChange && outputs[|outputs| - 1].script != PayTo(changeAddress) { return None; }
    var alreadyTransferred: set<Key> := {};
    var transfers: seq<BtcTransfer> := [];
    var i := 0;
    while i < transferLength
      invariant 0 <= i <= transferLength && |transfers| == i
      invariant forall k :: 0 <= k < i ==> OutputKey(psbt.tx, k).Some? && OutputKey(psbt.tx, k).value.1 < 255
      invariant forall k :: 0 <= k < i ==> transfers[k] == TransferAt(psbt.tx, k)
      invariant forall k :: 0 <= k < i ==> OutputKey(psbt.tx, k).value in alreadyTransferred
      invariant forall key :: key in alreadyTransferred ==> exists k :: 0 <= k < i && OutputKey(psbt.tx, k) == Some(key)
      invariant forall k, l :: 0 <= k < l < i ==> OutputKey(psbt.tx, k) != OutputKey(psbt.tx, l)
    {
      if !outputs[i + 1].script.PayTo? {
        assert OutputKey(psbt.tx, i).None?;
        return None;
      }
      var key := (outputs[i + 1].script.address, dataPayment[i] as nat);
      assert OutputKey(psbt.tx, i) == Some(key);
      if dataPayment[i] >= 255 { return None; }
      if key in alreadyTransferred { return None; }
      alreadyTransferred := alreadyTransferred + {key};
      transfers := transfers + [BtcTransfer(outputs[i + 1].script.address, outputs[i + 1].value, dataPayment[i] as nat)];
      i := i + 1;
    }
    assert WellFormed(psbt, changeAddress);
    assert transfers == ReadTransfers(psbt, changeAddress).value;
    return Some(transfers);
  }

  /** What is read is exactly what the transaction pays, each deposit once; the flag that says whether
      there is a change output does not matter. */
  lemma ReadIsPaid(psbt: Psbt, changeAddress: BtcAddress)
    requires ReadTransfers(psbt, changeAddress).Some?
    ensures var transfers := ReadTransfers(psbt, changeAddress).value;
      && NoDuplicates(Keys(transfers)) && PaysOnce(psbt.tx)
      && forall key :: key in Keys(transfers) <==> Pays(psbt.tx, key)
  {
    var keys := Keys(ReadTransfers(psbt, changeAddress).value);
    assert forall i :: 0 <= i < |keys| ==> OutputKey(psbt.tx, i) == Some(keys[i]);
    forall key ensures key in keys <==> Pays(psbt.tx, key) {
      if key in keys {
        var i :| 0 <= i < |keys| && keys[i] == key;
        assert OutputKey(psbt.tx, i) == Some(key);
      }
    }
  }

  // ---- Building the outputs ----

  /** Buffer.from cuts numbers to bytes. */
  function NonceBytes(transfers: seq<BtcTransfer>): (data: seq<byte>)
    ensures |data| == |transfers|
  {
    seq(|transfers|, i requires 0 <= i < |transfers| => (transfers[i].nonce % 256) as byte)
  }

  function PayoutOutputs(transfers: seq<BtcTransfer>): (outputs: seq<TxOutput>)
    ensures |outputs| == |transfers|
    ensures forall i :: 0 <= i < |outputs| ==>
      outputs[i] == TxOutput(PayTo(transfers[i].btcAddress), transfers[i].amountSatoshi)
  {
    seq(|transfers|, i requires 0 <= i < |transfers| =>
      TxOutput(PayTo(transfers[i].btcAddress), transfers[i].amountSatoshi))
  }

  function Outputs(transfers: seq<BtcTransfer>, changeAddress: BtcAddress, change: int): (outputs: seq<TxOutput>) {
    [TxOutput(Data(true, [NonceBytes(transfers)]), 0)] + PayoutOutputs(transfers)
    + [TxOutput(PayTo(changeAddress), change)]
  }

  function Payment(inputs: seq<OutPoint>, transfers: seq<BtcTransfer>, changeAddress: BtcAddress, change: int,
                   requiredSignatures: nat): (psbt: Psbt)
  {
    Psbt(UnsignedTx(inputs, Outputs(transfers, changeAddress, change)), [], requiredSignatures, false)
  }

  lemma PaymentKeys(inputs: seq<OutPoint>, transfers: seq<BtcTransfer>, changeAddress: BtcAddress, change: int, required: nat)
    ensures var psbt := Payment(inputs, transfers, changeAddress, change, required);
      && TransferLength(psbt) == |transfers| == |Payload(psbt.tx)|
      && |psbt.tx.outputs| == |transfers| + 2
      && psbt.tx.outputs[0] == TxOutput(Data(true, [Payload(psbt.tx)]), 0)
      && psbt.tx.outputs[|transfers| + 1].script == PayTo(changeAddress)
      && forall i :: 0 <= i < |transfers| ==>
           && OutputKey(psbt.tx, i) == Some((transfers[i].btcAddress, transfers[i].nonce % 256))
           && TransferAt(psbt.tx, i) == transfers[i].(nonce := transfers[i].nonce % 256)
  {
    var psbt := Payment(inputs, transfers, changeAddress, change, required);
    assert Payload(psbt.tx) == NonceBytes(transfers);
    forall i | 0 <= i < |transfers|
      ensures OutputKey(psbt.tx, i) == Some((transfers[i].btcAddress, transfers[i].nonce % 256))
      ensures TransferAt(psbt.tx, i) == transfers[i].(nonce := transfers[i].nonce % 256)
    {
      assert psbt.tx.outputs[i + 1] == PayoutOutputs(transfers)[i];
    }
  }

  predicate Payable(transfers: seq<BtcTransfer>) {
    && |transfers| >= 1
    && (forall i :: 0 <= i < |transfers| ==> transfers[i].nonce < 255)
    && NoDuplicates(Keys(transfers))
  }

  // ---- Reading is undoing ----

  /** The outputs of a payment without the change. */
  function Payouts(transfers: seq<BtcTransfer>): (outputs: seq<TxOutput>) {
    [TxOutput(Data(true, [NonceBytes(transfers)]), 0)] + PayoutOutputs(transfers)
  }

  /** The output that follows the payments, if there is to be one, pays the change address. */
  predicate IsChange(tail: seq<TxOutput>, noChange: bool, changeAddress: BtcAddress) {
    if noChange then tail == [] else |tail| == 1 && tail[0].script == PayTo(changeAddress)
  }

  lemma BuiltKeys(tx: UnsignedTx, transfers: seq<BtcTransfer>, tail: seq<TxOutput>)
    requires Payable(transfers) && tx.outputs == Payouts(transfers) + tail
    ensures Payload(tx) == NonceBytes(transfers)
    ensures forall i :: 0 <= i < |transfers| ==>
      OutputKey(tx, i) == Some(KeyOf(transfers[i])) && TransferAt(tx, i) == transfers[i]
  {
    assert Payload(tx) == NonceBytes(transfers);
    forall i | 0 <= i < |transfers|
      ensures OutputKey(tx, i) == Some(KeyOf(transfers[i])) && TransferAt(tx, i) == transfers[i]
    {
      assert tx.outputs[i + 1] == PayoutOutputs(transfers)[i];
    }
  }

  lemma ReadsBack(psbt: Psbt, transfers: seq<BtcTransfer>, changeAddress: BtcAddress)
    requires Payable(transfers) && TransferLength(psbt) == |transfers| == |Payload(psbt.tx)|
    requires psbt.tx.outputs[0].value == 0 && psbt.tx.outputs[0].script == Data(true, [Payload(psbt.tx)])
    requires !psbt.noChange ==> psbt.tx.outputs[|transfers| + 1].script == PayTo(changeAddress)
    requires forall i :: 0 <= i < |transfers| ==>
      OutputKey(psbt.tx, i) == Some(KeyOf(transfers[i])) && TransferAt(psbt.tx, i) == transfers[i]
    ensures ReadTransfers(psbt, changeAddress) == Some(transfers)
  {
    var keys := Keys(transfers);
    forall i, j | 0 <= i < j < |transfers| ensures OutputKey(psbt.tx, i) != OutputKey(psbt.tx, j) {
      assert keys[i] != keys[j];
    }
    assert WellFormed(psbt, changeAddress);
    assert ReadTransfers(psbt, changeAddress).value == transfers;
  }

  lemma BuiltIsRead(psbt: Psbt, transfers: seq<BtcTransfer>, tail: seq<TxOutput>, changeAddress: BtcAddress)
    requires Payable(transfers) && psbt.tx.outputs == Payouts(transfers) + tail && IsChange(tail, psbt.noChange, changeAddress)
    ensures ReadTransfers(psbt, changeAddress) == Some(transfers)
  {
    BuiltKeys(psbt.tx, transfers, tail);
    hide ReadTransfers, OutputKey, Payable, NonceBytes, PayoutOutputs;
    ReadsBack(psbt, transfers, changeAddress);
  }

  lemma ReadIsBuilt(psbt: Psbt, changeAddress: BtcAddress)
    requires ReadTransfers(psbt, changeAddress).Some?
    ensures var transfers := ReadTransfers(psbt, changeAddress).value;
      && Payable(transfers)
      && |psbt.tx.outputs| >= |transfers| + 1 && psbt.tx.outputs[..|transfers| + 1] == Payouts(transfers)
      && IsChange(psbt.tx.outputs[|transfers| + 1..], psbt.noChange, changeAddress)
  {
    var transfers, outputs := ReadTransfers(psbt, changeAddress).value, psbt.tx.outputs;
    var keys := Keys(transfers);
    assert forall i :: 0 <= i < |transfers| ==> OutputKey(psbt.tx, i) == Some(keys[i]);
    assert NonceBytes(transfers) == Payload(psbt.tx);
    assert outputs[0].script.pushes == [NonceBytes(transfers)];
    assert outputs[..|transfers| + 1] == Payouts(transfers);
  }

  /** A transaction is read as these transfers exactly if it has the outputs that a payout of them has, in this
      order: the nonces, one output per transfer, and, unless there is to be none, a last one with any value to the
      change address. */
  lemma ReadExactly(psbt: Psbt, changeAddress: BtcAddress, transfers: seq<BtcTransfer>)
    ensures ReadTransfers(psbt, changeAddress) == Some(transfers) <==>
      && Payable(transfers)
      && if psbt.noChange then psbt.tx.outputs == Payouts(transfers)
         else exists change: int :: psbt.tx.outputs == Outputs(transfers, changeAddress, change)
  {
    hide WellFormed;
    var outputs := psbt.tx.outputs;
    if ReadTransfers(psbt, changeAddress) == Some(transfers) {
      ReadIsBuilt(psbt, changeAddress);
      assert outputs == outputs[..|transfers| + 1] + outputs[|transfers| + 1..];
      if !psbt.noChange {
        var change := outputs[|transfers| + 1].value;
        assert outputs == Outputs(transfers, changeAddress, change);
      }
    } else if Payable(transfers) && psbt.noChange && outputs == Payouts(transfers) {
      assert outputs == Payouts(transfers) + [];
      BuiltIsRead(psbt, transfers, [], changeAddress);
    } else if Payable(transfers) && !psbt.noChange {
      forall change: int ensures outputs != Outputs(transfers, changeAddress, change) {
        if outputs == Outputs(transfers, changeAddress, change) {
          BuiltIsRead(psbt, transfers, [TxOutput(PayTo(changeAddress), change)], changeAddress);
        }
      }
    }
  }

  /** Round trip: the transfers are read back, in order, exactly when there is at least one, every
      nonce is below 255 and no deposit occurs twice. */
  lemma PayoutRoundTrip(inputs: seq<OutPoint>, transfers: seq<BtcTransfer>, changeAddress: BtcAddress, change: int, required: nat)
    ensures ReadTransfers(Payment(inputs, transfers, changeAddress, change, required), changeAddress) == Some(transfers)
      <==> Payable(transfers)
  {
    ReadExactly(Payment(inputs, transfers, changeAddress, change, required), changeAddress, transfers);
  }

  /** Nobody else is paid: every output of a transaction that is read, after the one with the nonces, is for one of the
      transfers, with exactly its amount, or it is the last one, to the change address. */
  lemma ReadPaysNobodyElse(psbt: Psbt, changeAddress: BtcAddress, i: nat)
    requires ReadTransfers(psbt, changeAddress).Some? && 1 <= i < |psbt.tx.outputs|
    ensures var transfers, output := ReadTransfers(psbt, changeAddress).value, psbt.tx.outputs[i];
      || (exists t :: t in transfers && output == TxOutput(PayTo(t.btcAddress), t.amountSatoshi))
      || (!psbt.noChange && i == |psbt.tx.outputs| - 1 && output.script == PayTo(changeAddress))
  {
    hide WellFormed;
    ReadIsBuilt(psbt, changeAddress);
    var transfers, outputs := ReadTransfers(psbt, changeAddress).value, psbt.tx.outputs;
    if i <= |transfers| {
      assert outputs[i] == outputs[..|transfers| + 1][i] == PayoutOutputs(transfers)[i - 1];
      assert transfers[i - 1] in transfers;
    } else {
      assert outputs[i] == outputs[|transfers| + 1..][i - |transfers| - 1];
    }
  }
}
