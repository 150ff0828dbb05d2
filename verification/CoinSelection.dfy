/** btc/multisig.ts: createPartiallySignedTransaction. */
module CoinSelection {
  import opened Base
  import opened TransferIds
  import opened Bitcoin
  import opened ByteCount
  import opened Payout

  const MAXIMUM_BATCH_SIZE: nat := 40

  /** An unspent output, in the order of selection; `usable` tells whether its transaction could be fetched. */
  datatype Utxo = Utxo(outPoint: OutPoint, satoshi: nat, usable: bool)

  /** What the fee of a transaction depends on besides the number of inputs.  The rate is in satoshi
      per virtual byte, margin included. */
  datatype FeePlan = FeePlan(cosigners: nat, numKeys: nat, scriptLengths: seq<nat>, feeRate: real)

  function Round(x: real): int { (x + 0.5).Floor }

  function RoundedFee(bytes: nat, feeRate: real): int { Round(bytes as real * feeRate) }

  function PlanWeight(plan: FeePlan, numInputs: nat): (w: nat) {
    Weight([(MultisigP2WSH(plan.cosigners, plan.numKeys), numInputs)], [(ToP2WSH, 2)], plan.scriptLengths)
  }

  function FeeFor(plan: FeePlan, numInputs: nat): (fee: int) {
    RoundedFee(VirtualBytes(PlanWeight(plan, numInputs)), plan.feeRate)
  }

  /** The fee for one more input, as the selection loop computes it. */
  method EstimateFee(plan: FeePlan, numInputs: nat) returns (fee: int)
    ensures fee == FeeFor(plan, numInputs)
  {
    var bytes := GetByteCount([(MultisigP2WSH(plan.cosigners, plan.numKeys), numInputs)], [(ToP2WSH, 2)], plan.scriptLengths);
    assert bytes == VirtualBytes(PlanWeight(plan, numInputs));
    fee := RoundedFee(bytes, plan.feeRate);
  }

  /** At any non-negative rate a further input never lowers the fee. */
  lemma FeeGrows(plan: FeePlan, j: nat, k: nat)
    requires j < k && plan.feeRate >= 0.0
    ensures FeeFor(plan, j) <= FeeFor(plan, k)
  {
    MoreInputsWeighMore(plan.cosigners, plan.numKeys, j, k, [(ToP2WSH, 2)], plan.scriptLengths);
    RoundGrows(VirtualBytes(PlanWeight(plan, j)), VirtualBytes(PlanWeight(plan, k)), plan.feeRate);
  }

  lemma RoundGrows(a: nat, b: nat, rate: real)
    requires a <= b && rate >= 0.0
    ensures RoundedFee(a, rate) <= RoundedFee(b, rate)
  {
    assert b as real * rate - a as real * rate == (b as real - a as real) * rate >= 0.0;
  }

  function Usable(utxos: seq<Utxo>): (r: seq<Utxo>) {
    if |utxos| == 0 then []
    else
      var last := utxos[|utxos| - 1];
      Usable(utxos[..|utxos| - 1]) + (if last.usable then [last] else [])
  }

  lemma {:induction false} UsableMembers(utxos: seq<Utxo>)
    ensures forall u :: u in Usable(utxos) <==> u in utxos && u.usable
  {
    if |utxos| > 0 {
      UsableMembers(utxos[..|utxos| - 1]);
      assert utxos == utxos[..|utxos| - 1] + [utxos[|utxos| - 1]];
    }
  }

  function SumOf(utxos: seq<Utxo>): (sum: nat) {
    if |utxos| == 0 then 0 else SumOf(utxos[..|utxos| - 1]) + utxos[|utxos| - 1].satoshi
  }

  function AmountOf(transfers: seq<BtcTransfer>): (sum: int) {
    if |transfers| == 0 then 0 else AmountOf(transfers[..|transfers| - 1]) + transfers[|transfers| - 1].amountSatoshi
  }

  /** The first `k` usable outputs pay for the amount and for their own fee. */
  predicate Covers(utxos: seq<Utxo>, k: nat, amount: int, plan: FeePlan)
    requires k <= |Usable(utxos)|
  {
    SumOf(Usable(utxos)[..k]) >= amount + FeeFor(plan, k)
  }

  /** Before the first input the fee is still zero. */
  function FeeOr0(plan: FeePlan, k: nat): int {
    if k == 0 then 0 else FeeFor(plan, k)
  }

  lemma {:induction false} UsablePrefix(utxos: seq<Utxo>, i: nat)
    requires i <= |utxos|
    ensures Usable(utxos[..i]) <= Usable(utxos)
    decreases |utxos|
  {
    if i < |utxos| {
      UsablePrefix(utxos[..|utxos| - 1], i);
      assert utxos[..|utxos| - 1][..i] == utxos[..i];
    } else {
      assert utxos[..i] == utxos;
    }
  }

  /** `k` usable outputs are taken: the first number that covers the amount and the fee, unless the cap
      (0 is no cap) or the end comes first. */
  predicate Selected(utxos: seq<Utxo>, amount: int, plan: FeePlan, maxInputs: nat, k: nat) {
    && k <= |Usable(utxos)|
    && (forall j :: 1 <= j < k ==> !Covers(utxos, j, amount, plan))
    && (maxInputs > 0 ==> k <= maxInputs)
    && (k == |Usable(utxos)| || k == maxInputs > 0 || (k >= 1 && Covers(utxos, k, amount, plan)))
  }

  /** The number taken is determined by the outputs, the amount, the fees and the cap. */
  lemma SelectedUnique(utxos: seq<Utxo>, amount: int, plan: FeePlan, maxInputs: nat, k: nat, l: nat)
    requires Selected(utxos, amount, plan, maxInputs, k) && Selected(utxos, amount, plan, maxInputs, l)
    ensures k == l
  {
  }

  /** That number, at least `from`. */
  function SelectedFrom(utxos: seq<Utxo>, amount: int, plan: FeePlan, maxInputs: nat, from: nat): (k: nat)
    requires from <= |Usable(utxos)| && (maxInputs > 0 ==> from <= maxInputs)
    requires forall j :: 1 <= j < from ==> !Covers(utxos, j, amount, plan)
    ensures Selected(utxos, amount, plan, maxInputs, k)
    decreases |Usable(utxos)| - from
  {
    if from == |Usable(utxos)| || from == maxInputs > 0 || (from >= 1 && Covers(utxos, from, amount, plan)) then from
    else SelectedFrom(utxos, amount, plan, maxInputs, from + 1)
  }

  /** How many outputs are taken. */
  function NumSelected(utxos: seq<Utxo>, amount: int, plan: FeePlan, maxInputs: nat): (k: nat)
    ensures Selected(utxos, amount, plan, maxInputs, k)
  {
    SelectedFrom(utxos, amount, plan, maxInputs, 0)
  }

  /** Outputs are taken in order until they cover the amount and the fee, or the cap is reached. */
  method SelectCoins(utxos: seq<Utxo>, amount: int, plan: FeePlan, maxInputs: nat)
    returns (inputs: seq<Utxo>, totalSum: nat, fee: int)
    ensures Selected(utxos, amount, plan, maxInputs, |inputs|)
    ensures inputs == Usable(utxos)[..|inputs|] && totalSum == SumOf(inputs)
    ensures fee == FeeOr0(plan, |inputs|)
  {
    hide Usable, SumOf, FeeFor;
    inputs, totalSum, fee := [], 0, 0;
    NothingSelected(utxos);
    var i := 0;
    while i < |utxos|
      invariant 0 <= i <= |utxos|
      invariant inputs == Usable(utxos[..i]) && inputs <= Usable(utxos)
      invariant totalSum == SumOf(inputs) && fee == FeeOr0(plan, |inputs|)
      invariant forall j :: 1 <= j <= |inputs| ==> !Covers(utxos, j, amount, plan)
      invariant maxInputs > 0 ==> |inputs| < maxInputs
    {
      var utxo := utxos[i];
      UsableNext(utxos, i);
      i := i + 1;
      if utxo.usable {
        inputs := inputs + [utxo];
        totalSum := totalSum + utxo.satoshi;
        fee := EstimateFee(plan, |inputs|);
        assert Usable(utxos)[..|inputs|] == inputs;
        if totalSum >= amount + fee {
          break;
        }
        if maxInputs > 0 && |inputs| >= maxInputs {
          break;
        }
      }
    }
    if i == |utxos| { assert utxos[..i] == utxos; }
  }

  lemma NothingSelected(utxos: seq<Utxo>)
    ensures Usable(utxos[..0]) == [] && SumOf([]) == 0
  {
  }

  /** The next output is left out or is the next usable one. */
  lemma UsableNext(utxos: seq<Utxo>, i: nat)
    requires i < |utxos|
    ensures var before, after := Usable(utxos[..i]), Usable(utxos[..i + 1]);
      && after == before + (if utxos[i].usable then [utxos[i]] else [])
      && after <= Usable(utxos)
      && SumOf(before + [utxos[i]]) == SumOf(before) + utxos[i].satoshi
  {
    assert utxos[..i + 1][..i] == utxos[..i];
    UsablePrefix(utxos, i + 1);
    var before := Usable(utxos[..i]);
    assert (before + [utxos[i]])[..|before|] == before;
  }

  function OutPoints(inputs: seq<Utxo>): (r: seq<OutPoint>)
    ensures |r| == |inputs|
  {
    seq(|inputs|, i requires 0 <= i < |inputs| => inputs[i].outPoint)
  }

  function ValueOf(outputs: seq<TxOutput>): (sum: int) {
    if |outputs| == 0 then 0 else ValueOf(outputs[..|outputs| - 1]) + outputs[|outputs| - 1].value
  }

  lemma {:induction false} PayoutsValue(transfers: seq<BtcTransfer>)
    ensures ValueOf(PayoutOutputs(transfers)) == AmountOf(transfers)
  {
    if |transfers| != 0 {
      PayoutsValue(transfers[..|transfers| - 1]);
      assert PayoutOutputs(transfers)[..|transfers| - 1] == PayoutOutputs(transfers[..|transfers| - 1]);
    }
  }

  lemma {:induction false} ValueOfConcat(a: seq<TxOutput>, b: seq<TxOutput>)
    ensures ValueOf(a + b) == ValueOf(a) + ValueOf(b)
  {
    if |b| == 0 {
      assert a + b == a;
    } else {
      ValueOfConcat(a, b[..|b| - 1]);
      assert (a + b)[..|a + b| - 1] == a + b[..|b| - 1];
    }
  }

  /** The outputs are worth the payments and the change. */
  lemma OutputsValue(transfers: seq<BtcTransfer>, changeAddress: BtcAddress, change: int)
    ensures ValueOf(Outputs(transfers, changeAddress, change)) == AmountOf(transfers) + change
  {
    var data := [TxOutput(Data(true, [NonceBytes(transfers)]), 0)];
    var last := [TxOutput(PayTo(changeAddress), change)];
    PayoutsValue(transfers);
    ValueOfConcat(data, PayoutOutputs(transfers));
    ValueOfConcat(data + PayoutOutputs(transfers), last);
    assert data[..0] == [] && last[..0] == [];
  }

  // ---- The two kinds of transaction ----

  /** The wallet, and the length of the output script of an address, None when it cannot be decoded. */
  datatype Wallet = Wallet(cosigners: nat, numKeys: nat, changeAddress: BtcAddress, scriptLength: BtcAddress -> Option<nat>)

  predicate Decodable(transfers: seq<BtcTransfer>, wallet: Wallet) {
    forall i :: 0 <= i < |transfers| ==> wallet.scriptLength(transfers[i].btcAddress).Some?
  }

  function LengthOr0(wallet: Wallet, address: BtcAddress): (length: nat) {
    if wallet.scriptLength(address).Some? then wallet.scriptLength(address).value else 0
  }

  /** The fees of a transaction with these transfers. */
  function PlanFor(transfers: seq<BtcTransfer>, wallet: Wallet, feeRate: real): (plan: FeePlan) {
    FeePlan(wallet.cosigners, wallet.numKeys,
            seq(|transfers|, i requires 0 <= i < |transfers| => LengthOr0(wallet, transfers[i].btcAddress)),
            feeRate)
  }

  /** Rounding is to the nearest whole number, halves up. */
  lemma RoundNearest(x: real)
    ensures Round(x) as real - 0.5 <= x < Round(x) as real + 0.5
  {
  }

  /** Bytes of the outputs to the transfers: value, length and script of each. */
  function PaymentBytes(transfers: seq<BtcTransfer>, wallet: Wallet): (bytes: nat) {
    if |transfers| == 0 then 0
    else PaymentBytes(transfers[..|transfers| - 1], wallet) + 8 + 1 + LengthOr0(wallet, transfers[|transfers| - 1].btcAddress)
  }

  lemma {:induction false} ScriptsOf(transfers: seq<BtcTransfer>, wallet: Wallet, feeRate: real)
    ensures ScriptsWeight(PlanFor(transfers, wallet, feeRate).scriptLengths) == 4 * PaymentBytes(transfers, wallet)
  {
    if |transfers| > 0 {
      var init := transfers[..|transfers| - 1];
      ScriptsOf(init, wallet, feeRate);
      var lengths := PlanFor(transfers, wallet, feeRate).scriptLengths;
      assert lengths[..|lengths| - 1] == PlanFor(init, wallet, feeRate).scriptLengths;
    }
  }

  /** Weight of a payout with `k` inputs: four per byte for the frame, the inputs without their witnesses, two outputs of the
      wallet's own type and the payments; and one per byte for the witnesses, each with `cosigners` signatures and
      the script of all the keys. */
  function PayoutWeight(transfers: seq<BtcTransfer>, wallet: Wallet, k: nat): (weight: nat) {
    4 * (8 + 1 + 1 + 41 * k + 2 * 43 + PaymentBytes(transfers, wallet)) + 2 + (6 + 73 * wallet.cosigners + 34 * wallet.numKeys) * k
  }

  lemma PayoutWeightIs(transfers: seq<BtcTransfer>, wallet: Wallet, feeRate: real, k: nat)
    requires k < 0xfd && |transfers| <= MAXIMUM_BATCH_SIZE
    ensures PlanWeight(PlanFor(transfers, wallet, feeRate), k) == PayoutWeight(transfers, wallet, k)
  {
    var plan := PlanFor(transfers, wallet, feeRate);
    var t := MultisigP2WSH(plan.cosigners, plan.numKeys);
    SingleInput(t, k);
    ScriptsOf(transfers, wallet, feeRate);
    assert HasW([(t, k)][0].0);
    assert [(ToP2WSH, 2)][..0] == [];
    hide InputsWeight, ScriptsWeight, PaymentBytes;
    var inWitness := 6 + 73 * wallet.cosigners + 34 * wallet.numKeys;
    assert InputWeight(t) * k == 164 * k + inWitness * k;
  }

  /** The fee of a payout is the rate times its size in whole virtual bytes, to the nearest satoshi. */
  lemma PayoutFee(transfers: seq<BtcTransfer>, wallet: Wallet, feeRate: real, k: nat, bytes: nat)
    requires k < 0xfd && |transfers| <= MAXIMUM_BATCH_SIZE
    requires PayoutWeight(transfers, wallet, k) <= 4 * bytes < PayoutWeight(transfers, wallet, k) + 4
    ensures var fee := FeeFor(PlanFor(transfers, wallet, feeRate), k);
      fee as real - 0.5 <= bytes as real * feeRate < fee as real + 0.5
  {
    PayoutWeightIs(transfers, wallet, feeRate, k);
    var plan := PlanFor(transfers, wallet, feeRate);
    assert plan.feeRate == feeRate;
    hide PlanWeight, PayoutWeight, PlanFor;
    assert VirtualBytes(PlanWeight(plan, k)) == bytes;
    RoundNearest(bytes as real * feeRate);
  }

  /** The ordinary payout.  None stands for a thrown error. */
  method CreatePayout(transfers: seq<BtcTransfer>, utxos: seq<Utxo>, wallet: Wallet, feeRate: real)
    returns (r: Option<Psbt>)
    // it succeeds with the shortest covering prefix: payments, change and fee add up to the inputs
    ensures r.Some? ==>
      var plan := PlanFor(transfers, wallet, feeRate);
      var inputs := Usable(utxos)[..NumSelected(utxos, AmountOf(transfers), plan, 0)];
      var fee := FeeOr0(plan, |inputs|);
      var change := SumOf(inputs) - AmountOf(transfers) - fee;
      && change >= 0
      && r.value == Payment(OutPoints(inputs), transfers, wallet.changeAddress, change, wallet.cosigners)
      && ValueOf(r.value.tx.outputs) + fee == SumOf(inputs)
    // it fails only if the batch is too large, an address cannot be decoded, or nothing covers it
    ensures r.None? <==>
      || |transfers| > MAXIMUM_BATCH_SIZE
      || !Decodable(transfers, wallet)
      || (if Usable(utxos) == [] then AmountOf(transfers) > 0
          else forall j :: 1 <= j <= |Usable(utxos)| ==>
            !Covers(utxos, j, AmountOf(transfers), PlanFor(transfers, wallet, feeRate)))
  {
    hide Selected, ValueOf, Outputs, SumOf, PlanFor, FeeFor, Decodable, NumSelected;
    if |transfers| > MAXIMUM_BATCH_SIZE { return None; }
    var decodable := AllDecodable(transfers, wallet);
    if !decodable { return None; }
    var plan := PlanFor(transfers, wallet, feeRate);
    var amountSatoshi := TotalAmount(transfers);
    var inputs, totalSum, fee := SelectCoins(utxos, amountSatoshi, plan, 0);
    var k := |inputs|;
    SelectedUnique(utxos, amountSatoshi, plan, 0, k, NumSelected(utxos, amountSatoshi, plan, 0));
    SelectedSuffices(utxos, amountSatoshi, plan, k);
    if totalSum < amountSatoshi + fee {
      return None;  // "balance is too low"
    }
    OutputsValue(transfers, wallet.changeAddress, totalSum - fee - amountSatoshi);
    r := Some(Psbt(UnsignedTx(OutPoints(inputs), Outputs(transfers, wallet.changeAddress, totalSum - fee - amountSatoshi)),
                   [], wallet.cosigners, false));
  }

  /** address.toOutputScript and psbt.addOutput throw for an address they cannot decode. */
  method AllDecodable(transfers: seq<BtcTransfer>, wallet: Wallet) returns (ok: bool)
    ensures ok <==> Decodable(transfers, wallet)
  {
    var i := 0;
    while i < |transfers|
      invariant 0 <= i <= |transfers|
      invariant forall j :: 0 <= j < i ==> wallet.scriptLength(transfers[j].btcAddress).Some?
    {
      if wallet.scriptLength(transfers[i].btcAddress).None? { return false; }
      i := i + 1;
    }
    return true;
  }

  /** Outputs left over never made the difference: a payout that succeeds would not have been covered by fewer
      inputs, although their fee is at most the fee that is paid. */
  lemma NoInputToSpare(utxos: seq<Utxo>, amount: int, plan: FeePlan, k: nat, j: nat)
    requires Selected(utxos, amount, plan, 0, k) && 1 <= j < k && plan.feeRate >= 0.0
    ensures SumOf(Usable(utxos)[..j]) < amount + FeeFor(plan, j) <= amount + FeeOr0(plan, k)
  {
    hide FeeFor;
    FeeGrows(plan, j, k);
    assert !Covers(utxos, j, amount, plan);
  }

  method TotalAmount(transfers: seq<BtcTransfer>) returns (sum: int)
    ensures sum == AmountOf(transfers)
  {
    sum := 0;
    var i := 0;
    while i < |transfers|
      invariant 0 <= i <= |transfers| && sum == AmountOf(transfers[..i])
    {
      assert transfers[..i + 1][..i] == transfers[..i];
      sum := sum + transfers[i].amountSatoshi;
      i := i + 1;
    }
    assert transfers[..i] == transfers;
  }

  /** Without a cap, what is selected suffices unless nothing does. */
  lemma SelectedSuffices(utxos: seq<Utxo>, amount: int, plan: FeePlan, k: nat)
    requires Selected(utxos, amount, plan, 0, k)
    ensures k <= |Usable(utxos)|
    ensures SumOf(Usable(utxos)[..k]) < amount + FeeOr0(plan, k) <==>
      if Usable(utxos) == [] then amount > 0
      else forall j :: 1 <= j <= |Usable(utxos)| ==> !Covers(utxos, j, amount, plan)
  {
    hide Usable, FeeFor;
    assert SumOf(Usable(utxos)[..0]) == 0;
    assert k > 0 ==> (Covers(utxos, k, amount, plan) <==> SumOf(Usable(utxos)[..k]) >= amount + FeeFor(plan, k));
  }

  /** One transfer to an address that can be decoded, and inputs that pay for the fee and for the amount, or at least
      for something when only the cap keeps them from that. */
  predicate Replenishable(transfers: seq<BtcTransfer>, utxos: seq<Utxo>, wallet: Wallet, feeRate: real, maxInputs: nat) {
    var plan := PlanFor(transfers, wallet, feeRate);
    var k := NumSelected(utxos, AmountOf(transfers), plan, maxInputs);
    var sum, fee := SumOf(Usable(utxos)[..k]), FeeOr0(plan, k);
    && |transfers| == 1
    && Decodable(transfers, wallet)
    && sum >= fee
    && (sum >= AmountOf(transfers) + fee || (maxInputs > 0 && sum > 0))
  }

  /** When the inputs do not pay for the amount, something is sent all the same exactly if the number of inputs is capped, there
      is an input, and the inputs pay at least the fee. */
  lemma SendsLessExactly(transfer: BtcTransfer, utxos: seq<Utxo>, wallet: Wallet, feeRate: real, maxInputs: nat)
    requires wallet.scriptLength(transfer.btcAddress).Some?
    ensures var plan := PlanFor([transfer], wallet, feeRate);
      var k := NumSelected(utxos, transfer.amountSatoshi, plan, maxInputs);
      var sum, fee := SumOf(Usable(utxos)[..k]), FeeOr0(plan, k);
      sum < transfer.amountSatoshi + fee ==>
        (Replenishable([transfer], utxos, wallet, feeRate, maxInputs) <==> maxInputs > 0 && sum > 0 && sum >= fee)
    ensures var plan := PlanFor([transfer], wallet, feeRate);
      var k := NumSelected(utxos, transfer.amountSatoshi, plan, maxInputs);
      transfer.amountSatoshi >= 0 && SumOf(Usable(utxos)[..k]) >= transfer.amountSatoshi + FeeOr0(plan, k) ==>
        Replenishable([transfer], utxos, wallet, feeRate, maxInputs)
  {
    hide PlanFor, NumSelected, SumOf, Usable, FeeOr0;
    assert [transfer][..0] == [];
    assert AmountOf([transfer]) == transfer.amountSatoshi;
  }

  /** The outputs of a replenishment: the receiver gets everything but the fee. */
  function ReplenishmentOutputs(transfer: BtcTransfer, received: int): (outputs: seq<TxOutput>) {
    [TxOutput(Data(true, [NonceBytes([transfer])]), 0), TxOutput(PayTo(transfer.btcAddress), received)]
  }

  /** Inputs = what is received + fee. */
  lemma ReplenishmentBalances(transfer: BtcTransfer, sum: int, fee: int)
    ensures ValueOf(ReplenishmentOutputs(transfer, sum - fee)) + fee == sum
  {
    var outputs := ReplenishmentOutputs(transfer, sum - fee);
    assert outputs[..1] == [outputs[0]] && outputs[..1][..0] == [];
    assert ValueOf(outputs[..1]) == 0;
  }

  /** The replenisher's transaction: one transfer, no change output, and possibly a cap on the inputs,
      in which case it may send less than asked for.  The receiver gets the inputs less the fee. */
  method CreateReplenishment(transfers: seq<BtcTransfer>, utxos: seq<Utxo>, wallet: Wallet, feeRate: real, maxInputs: nat)
    returns (r: Option<Psbt>)
    ensures r.Some? == Replenishable(transfers, utxos, wallet, feeRate, maxInputs)
    ensures r.Some? ==>
      var plan := PlanFor(transfers, wallet, feeRate);
      var inputs := Usable(utxos)[..NumSelected(utxos, AmountOf(transfers), plan, maxInputs)];
      var received := SumOf(inputs) - FeeOr0(plan, |inputs|);
      && |transfers| == 1 && received >= 0
      && r.value == Psbt(UnsignedTx(OutPoints(inputs), ReplenishmentOutputs(transfers[0], received)), [], wallet.cosigners, true)
  {
    hide Selected, PlanFor, FeeFor, Decodable, NumSelected;
    var plan := PlanFor(transfers, wallet, feeRate);
    var amountSatoshi := TotalAmount(transfers);
    var inputs, totalSum, fee := SelectCoins(utxos, amountSatoshi, plan, maxInputs);
    SelectedUnique(utxos, amountSatoshi, plan, maxInputs, |inputs|, NumSelected(utxos, amountSatoshi, plan, maxInputs));
    if totalSum < amountSatoshi + fee {
      if !(maxInputs > 0 && totalSum != 0) { return None; }
    }
    if |transfers| != 1 { return None; }
    var decodable := AllDecodable(transfers, wallet);
    if !decodable { return None; }
    if totalSum - fee < 0 { return None; }  // outputs are unsigned
    assert transfers == [transfers[0]];
    var outputs := ReplenishmentOutputs(transfers[0], totalSum - fee);
    r := Some(Psbt(UnsignedTx(OutPoints(inputs), outputs), [], wallet.cosigners, true));
  }
}
