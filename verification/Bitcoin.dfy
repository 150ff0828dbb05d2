/** Bitcoin transactions as far as the bridge looks at them. */
module Bitcoin {
  import opened Base
  import opened TransferIds

  datatype OutPoint = OutPoint(txid: nat, vout: nat)

  /** An output script: an OP_RETURN-style script with its pushes, a payment to an address, or
      one that has no address. */
  datatype Script =
    | Data(startsWithOpReturn: bool, pushes: seq<seq<byte>>)
    | PayTo(address: BtcAddress)
    | Unrecognised(code: nat)

  datatype TxOutput = TxOutput(script: Script, value: int)

  datatype UnsignedTx = UnsignedTx(inputs: seq<OutPoint>, outputs: seq<TxOutput>)

  /** A 32-byte Bitcoin transaction hash: the hash of a transaction, as a term, or bits that no
      transaction hashes to.  Segwit hashes do not depend on the signatures. */
  datatype BtcHash = HashOf(tx: UnsignedTx) | OtherBits(bits: nat)
}
