/** btc/bytecount.ts: the size estimate behind the fee. */
module ByteCount {
  datatype InputType =
    | MultisigP2SH(m: nat, n: nat)
    | MultisigP2WSH(m: nat, n: nat)
    | MultisigP2SH_P2WSH(m: nat, n: nat)
    | P2PKH
    | P2WPKH
    | P2SH_P2WPKH

  datatype OutputType = ToP2SH | ToP2PKH | ToP2WPKH | ToP2WSH

  /** The type key contains a 'W'. */
  predicate HasW(t: InputType) {
    !t.MultisigP2SH? && !t.P2PKH?
  }

  function InputWeight(t: InputType): (w: nat) {
    match t
    case MultisigP2SH(m, n) => 49 * 4 + (73 * m + 34 * n) * 4
    case MultisigP2WSH(m, n) => 6 + 41 * 4 + 73 * m + 34 * n
    case MultisigP2SH_P2WSH(m, n) => 6 + 76 * 4 + 73 * m + 34 * n
    case P2PKH => 148 * 4
    case P2WPKH => 108 + 41 * 4
    case P2SH_P2WPKH => 108 + 64 * 4
  }

  function OutputWeight(t: OutputType): (w: nat) {
    match t
    case ToP2SH => 32 * 4
    case ToP2PKH => 34 * 4
    case ToP2WPKH => 31 * 4
    case ToP2WSH => 43 * 4
  }

  function VarIntLength(number: nat): (length: nat) {
    if number < 0xfd then 1 else if number <= 0xffff then 3 else if number <= 0xffff_ffff then 5 else 9
  }

  function InputsWeight(inputs: seq<(InputType, nat)>): (w: nat) {
    if |inputs| == 0 then 0
    else var last := inputs[|inputs| - 1]; InputsWeight(inputs[..|inputs| - 1]) + InputWeight(last.0) * last.1
  }

  function OutputsWeight(outputs: seq<(OutputType, nat)>): (w: nat) {
    if |outputs| == 0 then 0
    else var last := outputs[|outputs| - 1]; OutputsWeight(outputs[..|outputs| - 1]) + OutputWeight(last.0) * last.1
  }

  function ScriptsWeight(lengths: seq<nat>): (w: nat) {
    if |lengths| == 0 then 0
    else ScriptsWeight(lengths[..|lengths| - 1]) + (9 + lengths[|lengths| - 1]) * 4
  }

  function Count<T>(items: seq<(T, nat)>): (n: nat) {
    if |items| == 0 then 0 else Count(items[..|items| - 1]) + items[|items| - 1].1
  }

  /** Total weight of a transaction with these inputs, outputs, and further outputs to scripts of the given lengths. */
  function Weight(inputs: seq<(InputType, nat)>, outputs: seq<(OutputType, nat)>, lengths: seq<nat>): (w: nat) {
    InputsWeight(inputs) + OutputsWeight(outputs) + ScriptsWeight(lengths)
    + (if exists i :: 0 <= i < |inputs| && HasW(inputs[i].0) then 2 else 0)
    + 8 * 4 + VarIntLength(Count(inputs)) * 4 + VarIntLength(Count(outputs) + |lengths|) * 4
  }

  /** Weight in whole virtual bytes, rounded up. */
  function VirtualBytes(weight: nat): (bytes: nat)
    ensures weight <= 4 * bytes < weight + 4
  {
    (weight + 3) / 4
  }

  method GetByteCount(inputs: seq<(InputType, nat)>, outputs: seq<(OutputType, nat)>, lengths: seq<nat>)
    returns (bytes: nat)
    ensures bytes == VirtualBytes(Weight(inputs, outputs, lengths))
  {
    var totalWeight, hasWitness, inputCount, outputCount := 0, false, 0, 0;
    var i := 0;
    while i < |inputs|
      invariant 0 <= i <= |inputs|
      invariant totalWeight == InputsWeight(inputs[..i]) && inputCount == Count(inputs[..i])
      invariant hasWitness <==> exists j :: 0 <= j < i && HasW(inputs[j].0)
    {
      assert inputs[..i + 1][..i] == inputs[..i];
      totalWeight := totalWeight + InputWeight(inputs[i].0) * inputs[i].1;
      inputCount := inputCount + inputs[i].1;
      if HasW(inputs[i].0) { hasWitness := true; }
      i := i + 1;
    }
    assert inputs[..i] == inputs;
    i := 0;
    while i < |outputs|
      invariant 0 <= i <= |outputs|
      invariant totalWeight == InputsWeight(inputs) + OutputsWeight(outputs[..i]) && outputCount == Count(outputs[..i])
    {
      assert outputs[..i + 1][..i] == outputs[..i];
      totalWeight := totalWeight + OutputWeight(outputs[i].0) * outputs[i].1;
      outputCount := outputCount + outputs[i].1;
      i := i + 1;
    }
    assert outputs[..i] == outputs;
    i := 0;
    while i < |lengths|
      invariant 0 <= i <= |lengths|
      invariant totalWeight == InputsWeight(inputs) + OutputsWeight(outputs) + ScriptsWeight(lengths[..i])
      invariant outputCount == Count(outputs) + i
    {
      assert lengths[..i + 1][..i] == lengths[..i];
      totalWeight := totalWeight + (9 + lengths[i]) * 4;
      outputCount := outputCount + 1;
      i := i + 1;
    }
    assert lengths[..i] == lengths;
    if hasWitness { totalWeight := totalWeight + 2; }
    totalWeight := totalWeight + 8 * 4;
    totalWeight := totalWeight + VarIntLength(inputCount) * 4;
    totalWeight := totalWeight + VarIntLength(outputCount) * 4;
    return (totalWeight + 3) / 4;
  }

  /** The examples in the source's own description: 45 inputs of a 2-of-4 multisig to one P2PKH output; and one P2PKH
      and two 2-of-3 multisig inputs to two P2PKH outputs. */
  lemma UsageExamples()
    ensures VirtualBytes(Weight([(MultisigP2SH(2, 4), 45)], [(ToP2PKH, 1)], [])) == 14939
    ensures VirtualBytes(Weight([(P2PKH, 1), (MultisigP2SH(2, 3), 2)], [(ToP2PKH, 2)], [])) == 820
  {
    var one, two := [(P2PKH, 1)], [(P2PKH, 1), (MultisigP2SH(2, 3), 2)];
    SingleInput(MultisigP2SH(2, 4), 45);
    SingleInput(P2PKH, 1);
    assert two[..1] == one;
    assert [(ToP2PKH, 1)][..0] == [] && [(ToP2PKH, 2)][..0] == [];
    assert InputsWeight(two) == 592 + 2 * 1188 && Count(two) == 3;
  }

  /** Wrapping a witness program in P2SH costs the 35 or 23 bytes of its redeem script, outside the witness; without a
      witness every byte counts four times; and an output is its value, a length and a script of 23, 25, 22 or 34 bytes. */
  lemma WeightsOfTypes(m: nat, n: nat)
    ensures InputWeight(MultisigP2SH_P2WSH(m, n)) == InputWeight(MultisigP2WSH(m, n)) + 4 * 35
    ensures InputWeight(P2SH_P2WPKH) == InputWeight(P2WPKH) + 4 * 23 && InputWeight(P2WPKH) == 4 * 41 + 108
    ensures InputWeight(MultisigP2SH(m, n)) == 4 * (49 + 73 * m + 34 * n) && InputWeight(P2PKH) == 4 * 148
    ensures OutputWeight(ToP2SH) == 4 * (8 + 1 + 23) && OutputWeight(ToP2PKH) == 4 * (8 + 1 + 25)
    ensures OutputWeight(ToP2WPKH) == 4 * (8 + 1 + 22) && OutputWeight(ToP2WSH) == 4 * (8 + 1 + 34)
  {
  }

  /** Where the length of a count changes. */
  lemma VarIntBounds()
    ensures VarIntLength(252) == 1 && VarIntLength(253) == 3 && VarIntLength(65535) == 3 && VarIntLength(65536) == 5
    ensures VarIntLength(4294967295) == 5 && VarIntLength(4294967296) == 9
  {
  }

  /** Every further input of the wallet's own type makes the estimate strictly larger. */
  lemma MoreInputsWeighMore(m: nat, n: nat, j: nat, k: nat, outputs: seq<(OutputType, nat)>, lengths: seq<nat>)
    requires j < k
    ensures Weight([(MultisigP2WSH(m, n), j)], outputs, lengths) + 170
         <= Weight([(MultisigP2WSH(m, n), k)], outputs, lengths)
  {
    var t := MultisigP2WSH(m, n);
    SingleInput(t, j);
    SingleInput(t, k);
    Scale(InputWeight(t), j, k);
    hide InputsWeight, OutputsWeight, ScriptsWeight, InputWeight, Count;
    assert HasW([(t, j)][0].0) && HasW([(t, k)][0].0);
  }

  lemma SingleInput(t: InputType, n: nat)
    ensures InputsWeight([(t, n)]) == InputWeight(t) * n && Count([(t, n)]) == n
  {
    hide InputWeight;
    assert [(t, n)][..0] == [];
  }

  lemma {:induction false} Scale(w: nat, j: nat, k: nat)
    requires w >= 170 && j < k
    ensures w * j + 170 <= w * k
    decreases k
  {
    OneMore(w, k - 1);
    if j < k - 1 {
      Scale(w, j, k - 1);
    }
  }

  lemma OneMore(w: nat, k: nat)
    ensures w * (k + 1) == w * k + w
  {
  }
}
