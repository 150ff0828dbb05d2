/** core/transfers.ts: TransferBatchValidator, the checks a node makes before it signs. */
module Validator {
  import opened Base
  import opened TransferIds
  import opened Bitcoin
  import opened AccessControl
  import opened BridgeState
  import opened NodeDatabase
  import opened Payout
  import opened TransferBatches

  /** What a node can ask the chain: the contract at the latest block and `rskRequiredConfirmations`
      blocks before it (None when there is no such block). */
  datatype ChainView = ChainView(latest: State, earlier: Option<State>)

  // ---- Transfers ----

  /** The stored fields that fetchRskTransferInfo compares between the two blocks. */
  predicate SameTransferData(a: BitcoinTransfer, b: BitcoinTransfer) {
    && a.btcAddress == b.btcAddress && a.nonce == b.nonce && a.totalAmountSatoshi == b.totalAmountSatoshi
    && a.feeStructureIndex == b.feeStructureIndex && a.rskAddress == b.rskAddress
  }

  function FetchRskTransferInfo(view: ChainView, btcAddress: BtcAddress, nonce: nat): (r: Option<BitcoinTransfer>) {
    var id := GetTransferId(btcAddress, nonce);
    if id in view.latest.transfers && view.earlier.Some? && id in view.earlier.value.transfers
       && SameTransferData(view.latest.transfers[id], view.earlier.value.transfers[id])
    then Some(view.latest.transfers[id]) else None
  }

  predicate TransferConfirmed(view: ChainView, row: TransferRow, expectedStatus: Option<Status>) {
    var info := FetchRskTransferInfo(view, row.btcAddress, row.nonce);
    && info.Some?
    && row.TotalAmountSatoshi() == info.value.totalAmountSatoshi
    && (expectedStatus.Some? ==> info.value.status == expectedStatus.value)
  }

  predicate TransfersValid(transfers: seq<LoadedTransfer>, expectedStatus: Option<Status>, view: ChainView) {
    && NoDuplicates(TransferIdsOf(transfers))
    && forall t :: t in transfers ==> TransferConfirmed(view, t.row, expectedStatus)
  }

  method ValidateTransfers(transfers: seq<LoadedTransfer>, expectedStatus: Option<Status>, view: ChainView)
    returns (ok: bool)
    ensures ok <==> TransfersValid(transfers, expectedStatus, view)
  {
    var seenTransferIds: set<TransferId> := {};
    ghost var ids := TransferIdsOf(transfers);
    var i := 0;
    while i < |transfers|
      invariant 0 <= i <= |transfers|
      invariant seenTransferIds == set k | 0 <= k < i :: ids[k]
      invariant forall k, l :: 0 <= k < l < i ==> ids[k] != ids[l]
      invariant forall k :: 0 <= k < i ==> TransferConfirmed(view, transfers[k].row, expectedStatus)
    {
      var transfer := transfers[i];
      if transfer.transferId in seenTransferIds { return false; }
      seenTransferIds := seenTransferIds + {transfer.transferId};
      var depositInfo := FetchRskTransferInfo(view, transfer.row.btcAddress, transfer.row.nonce);
      assert transfers[i] in transfers;
      if depositInfo.None? { return false; }
      if transfer.row.TotalAmountSatoshi() != depositInfo.value.totalAmountSatoshi { return false; }
      if expectedStatus.Some? && depositInfo.value.status != expectedStatus.value { return false; }
      i := i + 1;
    }
    return true;
  }

  /** In terms of the contract at the two blocks: each deposit is there in both, the same up to status and block number,
      with the row's total amount and the expected status. */
  lemma TransfersValidExactly(transfers: seq<LoadedTransfer>, expectedStatus: Option<Status>, view: ChainView)
    ensures TransfersValid(transfers, expectedStatus, view) <==>
      && NoDuplicates(TransferIdsOf(transfers))
      && (forall t :: t in transfers ==>
            var id := GetTransferId(t.row.btcAddress, t.row.nonce);
            && view.earlier.Some? && id in view.latest.transfers && id in view.earlier.value.transfers
            && var now, before := view.latest.transfers[id], view.earlier.value.transfers[id];
            && now == before.(status := now.status, blockNumber := now.blockNumber)
            && now.totalAmountSatoshi == t.row.amountSatoshi + t.row.feeSatoshi
            && (expectedStatus.None? || expectedStatus == Some(now.status)))
  {
  }

  // ---- RSK signatures ----

  predicate SignaturesValid(federators: set<Address>, message: UpdateMessage, signatures: seq<UpdateSignature>,
                            addresses: seq<AddressText>)
  {
    && |signatures| == |addresses|
    && (forall i, j :: 0 <= i < j < |addresses| ==> ToLowerCase(addresses[i]) != ToLowerCase(addresses[j]))
    && forall i :: 0 <= i < |addresses| ==>
         && ToLowerCase(addresses[i]) in federators
         && addresses[i] == Checksummed(Recover(message, signatures[i]))
  }

  method ValidateSignatureAndAddresses(federators: set<Address>, message: UpdateMessage,
                                       signatures: seq<UpdateSignature>, addresses: seq<AddressText>)
    returns (ok: bool)
    ensures ok <==> SignaturesValid(federators, message, signatures, addresses)
  {
    if |signatures| != |addresses| { return false; }
    var seen: set<Address> := {};
    var i := 0;
    while i < |signatures|
      invariant 0 <= i <= |signatures|
      invariant seen == set k | 0 <= k < i :: ToLowerCase(addresses[k])
      invariant forall k, l :: 0 <= k < l < i ==> ToLowerCase(addresses[k]) != ToLowerCase(addresses[l])
      invariant forall k :: 0 <= k < i ==>
        ToLowerCase(addresses[k]) in federators && addresses[k] == Checksummed(Recover(message, signatures[k]))
    {
      var address := addresses[i];
      if ToLowerCase(address) in seen { return false; }
      seen := seen + {ToLowerCase(address)};
      if address.account !in federators || address != Checksummed(address.account) { return false; }
      if Checksummed(Recover(message, signatures[i])) != address { return false; }
      i := i + 1;
    }
    return true;
  }

  /** Signatures that pass this check and are a strict majority in number pass the contract's check too. */
  lemma ValidSignaturesAreQuorum(federators: set<Address>, message: UpdateMessage, signatures: seq<UpdateSignature>,
                                 addresses: seq<AddressText>)
    requires SignaturesValid(federators, message, signatures, addresses)
    requires ZERO_ADDRESS !in federators && |signatures| >= NumRequiredFederators(|federators|)
    ensures IsQuorum(federators, Recovered(message, signatures))
  {
    var signers := Recovered(message, signatures);
    assert forall i :: 0 <= i < |signers| ==> signers[i] == ToLowerCase(addresses[i]);
  }

  /** The lists pass exactly if they are signatures of this very message by different federators, listed in the checksummed
      spelling and in the same order. */
  lemma SignaturesValidExactly(federators: set<Address>, message: UpdateMessage, signatures: seq<UpdateSignature>,
                               addresses: seq<AddressText>)
    requires ZERO_ADDRESS !in federators
    ensures SignaturesValid(federators, message, signatures, addresses) <==>
      && |addresses| == |signatures|
      && (forall i :: 0 <= i < |signatures| ==>
            && signatures[i].message == message && signatures[i].signer in federators
            && addresses[i] == AddressText(signatures[i].signer, 0))
      && (forall i, j :: 0 <= i < j < |signatures| ==> signatures[i].signer != signatures[j].signer)
  {
  }

  function SendingMessage(b: TransferBatch): (m: UpdateMessage)
    requires b.bitcoinTransactionHash.Some?
  {
    BatchUpdateWithTxHash(Sending, b.bitcoinTransactionHash.value, TransferIdsOf(b.transfers))
  }

  function MinedMessage(b: TransferBatch): (m: UpdateMessage) {
    BatchUpdate(Mined, TransferIdsOf(b.transfers))
  }

  predicate RskSignaturesValid(b: TransferBatch, federators: set<Address>) {
    && (|b.rskSendingSignatures| > 0 ==>
          && b.bitcoinTransactionHash.Some?
          && SignaturesValid(federators, SendingMessage(b), b.rskSendingSignatures, b.rskSendingSigners))
    && (|b.rskMinedSignatures| > 0 ==>
          SignaturesValid(federators, MinedMessage(b), b.rskMinedSignatures, b.rskMinedSigners))
  }

  // ---- The partially signed transaction ----

  /** getTransferByBitcoinAddressAndNonce: the first match. */
  function FindTransfer(transfers: seq<LoadedTransfer>, key: Key): (r: Option<LoadedTransfer>)
    ensures r.Some? ==> r.value in transfers && KeyOfRow(r.value.row) == key
    ensures r.None? ==> forall t :: t in transfers ==> KeyOfRow(t.row) != key
  {
    if |transfers| == 0 then None
    else if KeyOfRow(transfers[0].row) == key then Some(transfers[0])
    else
      var r := FindTransfer(transfers[1..], key);
      assert transfers == [transfers[0]] + transfers[1..];
      r
  }

  /** validatePsbt as a predicate. */
  predicate PsbtValid(transfers: seq<LoadedTransfer>, hash: Option<BtcHash>, psbt: Psbt, changeAddress: BtcAddress) {
    var read := ReadTransfers(psbt, changeAddress);
    && read.Some?
    && |read.value| == |transfers|
    && hash == Some(HashOf(psbt.tx))
    && (forall i :: 0 <= i < |read.value| ==> FindTransfer(transfers, KeyOf(read.value[i])).Some?)
    && (forall i, j :: 0 <= i < j < |read.value| ==>
          FindTransfer(transfers, KeyOf(read.value[i])).value.transferId
          != FindTransfer(transfers, KeyOf(read.value[j])).value.transferId)
  }

  method ValidatePsbt(transfers: seq<LoadedTransfer>, hash: Option<BtcHash>, psbt: Psbt, changeAddress: BtcAddress)
    returns (ok: bool)
    ensures ok <==> PsbtValid(transfers, hash, psbt, changeAddress)
  {
    var read := GetTransactionTransfers(psbt, changeAddress);
    if read.None? { return false; }
    var psbtTransfers := read.value;
    if |psbtTransfers| != |transfers| { return false; }
    if hash != Some(HashOf(psbt.tx)) { return false; }
    var seenDepositIds: set<TransferId> := {};
    var i := 0;
    while i < |psbtTransfers|
      invariant 0 <= i <= |psbtTransfers|
      invariant forall k :: 0 <= k < i ==> FindTransfer(transfers, KeyOf(psbtTransfers[k])).Some?
      invariant seenDepositIds == set k | 0 <= k < i :: FindTransfer(transfers, KeyOf(psbtTransfers[k])).value.transferId
      invariant forall k, l :: 0 <= k < l < i ==>
        FindTransfer(transfers, KeyOf(psbtTransfers[k])).value.transferId
        != FindTransfer(transfers, KeyOf(psbtTransfers[l])).value.transferId
    {
      var transfer := FindTransfer(transfers, KeyOf(psbtTransfers[i]));
      if transfer.None? { return false; }
      if transfer.value.transferId in seenDepositIds { return false; }
      seenDepositIds := seenDepositIds + {transfer.value.transferId};
      i := i + 1;
    }
    return true;
  }

  /** The transaction pays each transfer of the batch once and nothing else. */
  ghost predicate PaysExactly(tx: UnsignedTx, transfers: seq<LoadedTransfer>) {
    && NoDuplicates(BatchKeys(transfers))
    && forall key :: key in BatchKeys(transfers) <==> Pays(tx, key)
  }

  lemma {:induction false} CountDistinct<T>(s: seq<T>)
    requires |Elements(s)| == |s|
    ensures NoDuplicates(s)
  {
    if |s| > 0 {
      var init, last := s[..|s| - 1], s[|s| - 1];
      assert s == init + [last];
      assert Elements(s) == Elements(init) + {last};
      ElementsAtMost(init);
      CountDistinct(init);
    }
  }

  lemma {:induction false} ElementsAtMost<T>(s: seq<T>)
    ensures |Elements(s)| <= |s|
  {
    if |s| > 0 {
      var init, last := s[..|s| - 1], s[|s| - 1];
      assert s == init + [last];
      assert Elements(s) == Elements(init) + {last};
      ElementsAtMost(init);
    }
  }

  /** Transfers that an accepted transaction's outputs were matched with, in output order. */
  function Matched(transfers: seq<LoadedTransfer>, hash: Option<BtcHash>, psbt: Psbt, changeAddress: BtcAddress)
    : (ids: seq<TransferId>)
    requires PsbtValid(transfers, hash, psbt, changeAddress)
    ensures |ids| == |transfers|
  {
    var read := ReadTransfers(psbt, changeAddress).value;
    seq(|read|, i requires 0 <= i < |read| && PsbtValid(transfers, hash, psbt, changeAddress) =>
      FindTransfer(transfers, KeyOf(read[i])).value.transferId)
  }

  /** By pigeonhole every transfer of an accepted batch is matched by some output. */
  lemma EveryTransferMatched(transfers: seq<LoadedTransfer>, hash: Option<BtcHash>, psbt: Psbt, changeAddress: BtcAddress)
    requires NoDuplicates(TransferIdsOf(transfers)) && PsbtValid(transfers, hash, psbt, changeAddress)
    ensures Elements(BatchKeys(transfers)) == Elements(Keys(ReadTransfers(psbt, changeAddress).value))
  {
    var read := ReadTransfers(psbt, changeAddress).value;
    var ids, matched := TransferIdsOf(transfers), Matched(transfers, hash, psbt, changeAddress);
    var keys, batchKeys := Keys(read), BatchKeys(transfers);
    forall id | id in matched ensures id in ids {
      var i :| 0 <= i < |matched| && matched[i] == id;
      var t := FindTransfer(transfers, KeyOf(read[i])).value;
      var j :| 0 <= j < |transfers| && transfers[j] == t;
      assert ids[j] == id;
    }
    DistinctCount(ids);
    DistinctListCovers(matched, Elements(ids));
    forall key | key in batchKeys ensures key in keys {
      var j :| 0 <= j < |transfers| && batchKeys[j] == key;
      assert ids[j] in Elements(matched);
      var i :| 0 <= i < |matched| && matched[i] == ids[j];
      var t := FindTransfer(transfers, KeyOf(read[i])).value;
      var l :| 0 <= l < |transfers| && transfers[l] == t;
      assert ids[l] == ids[j] && l == j;
      assert keys[i] == key;
    }
    forall key | key in keys ensures key in batchKeys {
      var i :| 0 <= i < |keys| && keys[i] == key;
      var t := FindTransfer(transfers, KeyOf(read[i])).value;
      var j :| 0 <= j < |transfers| && transfers[j] == t;
      assert batchKeys[j] == key;
    }
  }

  /** validatePsbt together with the no-repetition check of validateTransfers accepts exactly the
      transactions of the right hash and shape whose outputs and the batch's transfers are in bijection. */
  lemma PsbtBijection(transfers: seq<LoadedTransfer>, hash: Option<BtcHash>, psbt: Psbt, changeAddress: BtcAddress)
    requires NoDuplicates(TransferIdsOf(transfers))
    ensures PsbtValid(transfers, hash, psbt, changeAddress) <==>
      && ReadTransfers(psbt, changeAddress).Some?
      && hash == Some(HashOf(psbt.tx))
      && PaysExactly(psbt.tx, transfers)
  {
    if ReadTransfers(psbt, changeAddress).Some? {
      var read := ReadTransfers(psbt, changeAddress).value;
      var keys, batchKeys := Keys(read), BatchKeys(transfers);
      ReadIsPaid(psbt, changeAddress);
      DistinctCount(keys);
      if PsbtValid(transfers, hash, psbt, changeAddress) {
        EveryTransferMatched(transfers, hash, psbt, changeAddress);
        CountDistinct(batchKeys);
        assert forall key :: key in batchKeys <==> key in Elements(batchKeys);
        assert forall key :: key in keys <==> key in Elements(keys);
      } else if hash == Some(HashOf(psbt.tx)) && PaysExactly(psbt.tx, transfers) {
        DistinctCount(batchKeys);
        assert Elements(keys) == Elements(batchKeys);
        PermutedAccepted(transfers, hash, psbt, changeAddress);
      }
    }
  }

  lemma PermutedAccepted(transfers: seq<LoadedTransfer>, hash: Option<BtcHash>, psbt: Psbt, changeAddress: BtcAddress)
    requires NoDuplicates(TransferIdsOf(transfers)) && ReadTransfers(psbt, changeAddress).Some?
    requires hash == Some(HashOf(psbt.tx)) && PaysExactly(psbt.tx, transfers)
    requires |ReadTransfers(psbt, changeAddress).value| == |transfers|
    ensures PsbtValid(transfers, hash, psbt, changeAddress)
  {
    var read := ReadTransfers(psbt, changeAddress).value;
    var keys, ids := Keys(read), TransferIdsOf(transfers);
    ReadIsPaid(psbt, changeAddress);
    forall i | 0 <= i < |read| ensures FindTransfer(transfers, KeyOf(read[i])).Some? {
      assert keys[i] in keys && keys[i] in BatchKeys(transfers);
      var j :| 0 <= j < |transfers| && BatchKeys(transfers)[j] == keys[i];
      assert transfers[j] in transfers;
    }
    forall i, j | 0 <= i < j < |read|
      ensures FindTransfer(transfers, KeyOf(read[i])).value.transferId
           != FindTransfer(transfers, KeyOf(read[j])).value.transferId
    {
      var t, u := FindTransfer(transfers, KeyOf(read[i])).value, FindTransfer(transfers, KeyOf(read[j])).value;
      var k :| 0 <= k < |transfers| && transfers[k] == t;
      var l :| 0 <= l < |transfers| && transfers[l] == u;
      assert keys[i] != keys[j];
      assert ids[k] != ids[l];
    }
  }

  /** The transaction has the outputs of a payout of `paid`, in any order of the transfers of the batch: the nonces, one
      output per transfer, and the change, if there is to be some, to the change address. */
  ghost predicate IsPayoutOf(psbt: Psbt, paid: seq<BtcTransfer>, transfers: seq<LoadedTransfer>, changeAddress: BtcAddress) {
    && Payable(paid)
    && (if psbt.noChange then psbt.tx.outputs == Payouts(paid)
        else exists change: int :: psbt.tx.outputs == Outputs(paid, changeAddress, change))
    && NoDuplicates(BatchKeys(transfers))
    && forall key :: key in Keys(paid) <==> key in BatchKeys(transfers)
  }

  /** validatePsbt accepts exactly the payouts of the batch, under the right hash: its transfers, the change address, and
      nobody else. */
  lemma PsbtExactly(transfers: seq<LoadedTransfer>, hash: Option<BtcHash>, psbt: Psbt, changeAddress: BtcAddress)
    requires NoDuplicates(TransferIdsOf(transfers))
    ensures PsbtValid(transfers, hash, psbt, changeAddress) <==>
      hash == Some(HashOf(psbt.tx)) && exists paid :: IsPayoutOf(psbt, paid, transfers, changeAddress)
  {
    hide PsbtValid, ReadTransfers, Payable, Pays;
    PsbtBijection(transfers, hash, psbt, changeAddress);
    var read := ReadTransfers(psbt, changeAddress);
    if read.Some? {
      ReadExactly(psbt, changeAddress, read.value);
      ReadIsPaid(psbt, changeAddress);
      if PaysExactly(psbt.tx, transfers) {
        assert IsPayoutOf(psbt, read.value, transfers, changeAddress);
      }
    }
    forall paid | IsPayoutOf(psbt, paid, transfers, changeAddress)
      ensures read == Some(paid) && PaysExactly(psbt.tx, transfers)
    {
      ReadExactly(psbt, changeAddress, paid);
    }
  }

  /** An accepted transaction has an output for the nonces, one for each transfer and at most one more, and each of them
      after the first is to the address of a transfer, or the last one and to the change address. */
  lemma AcceptedPaysNobodyElse(transfers: seq<LoadedTransfer>, hash: Option<BtcHash>, psbt: Psbt, changeAddress: BtcAddress, i: nat)
    requires PsbtValid(transfers, hash, psbt, changeAddress) && 1 <= i < |psbt.tx.outputs|
    ensures |psbt.tx.outputs| == |transfers| + (if psbt.noChange then 1 else 2)
    ensures var output := psbt.tx.outputs[i];
      || (exists t :: t in transfers && output.script == PayTo(t.row.btcAddress))
      || (!psbt.noChange && i == |transfers| + 1 && output.script == PayTo(changeAddress))
  {
    var read := ReadTransfers(psbt, changeAddress).value;
    ReadPaysNobodyElse(psbt, changeAddress, i);
    if t :| t in read && psbt.tx.outputs[i] == TxOutput(PayTo(t.btcAddress), t.amountSatoshi) {
      var k :| 0 <= k < |read| && read[k] == t;
      assert FindTransfer(transfers, KeyOf(read[k])).Some?;
      assert FindTransfer(transfers, KeyOf(t)).value in transfers;
    }
  }

  // ---- Amounts ----

  /** The same inputs to the checks except for the amounts: output scripts agree, and the value of the data output. */
  predicate SameButAmounts(a: UnsignedTx, b: UnsignedTx) {
    && |a.outputs| == |b.outputs|
    && (forall i :: 0 <= i < |a.outputs| ==> a.outputs[i].script == b.outputs[i].script)
    && (|a.outputs| > 0 ==> a.outputs[0].value == b.outputs[0].value)
  }

  lemma SameReading(a: Psbt, b: Psbt, changeAddress: BtcAddress)
    requires SameButAmounts(a.tx, b.tx) && a.noChange == b.noChange
    ensures ReadTransfers(a, changeAddress).Some? <==> ReadTransfers(b, changeAddress).Some?
    ensures ReadTransfers(a, changeAddress).Some? ==>
      Keys(ReadTransfers(a, changeAddress).value) == Keys(ReadTransfers(b, changeAddress).value)
  {
    assert Payload(a.tx) == Payload(b.tx);
    assert forall i :: 0 <= i < |Payload(a.tx)| ==> OutputKey(a.tx, i) == OutputKey(b.tx, i);
    assert WellFormed(a, changeAddress) <==> WellFormed(b, changeAddress);
  }

  lemma {:induction false} SameMatches(transfers: seq<LoadedTransfer>, a: Psbt, b: Psbt, changeAddress: BtcAddress)
    requires SameButAmounts(a.tx, b.tx) && a.noChange == b.noChange
    requires PsbtValid(transfers, Some(HashOf(a.tx)), a, changeAddress)
    ensures PsbtValid(transfers, Some(HashOf(b.tx)), b, changeAddress)
  {
    SameReading(a, b, changeAddress);
    var x, y := ReadTransfers(a, changeAddress).value, ReadTransfers(b, changeAddress).value;
    assert |x| == |Keys(x)| && |y| == |Keys(y)|;
    assert forall i :: 0 <= i < |x| ==> KeyOf(x[i]) == Keys(x)[i] == Keys(y)[i] == KeyOf(y[i]);
  }

  /** No amount is ever compared: transactions that differ only in the values of their payments and change are
      accepted for the same batches, each under its own hash. */
  lemma AmountsIgnored(transfers: seq<LoadedTransfer>, a: Psbt, b: Psbt, changeAddress: BtcAddress)
    requires SameButAmounts(a.tx, b.tx) && a.noChange == b.noChange
    ensures PsbtValid(transfers, Some(HashOf(a.tx)), a, changeAddress) <==> PsbtValid(transfers, Some(HashOf(b.tx)), b, changeAddress)
  {
    if PsbtValid(transfers, Some(HashOf(a.tx)), a, changeAddress) {
      SameMatches(transfers, a, b, changeAddress);
    } else if PsbtValid(transfers, Some(HashOf(b.tx)), b, changeAddress) {
      SameMatches(transfers, b, a, changeAddress);
    }
  }

  /** A batch of one transfer of 1000 satoshi, accepted with a transaction that pays it 1 satoshi. */
  lemma WrongAmountAccepted(id: TransferId, row: TransferRow, inputs: seq<OutPoint>, changeAddress: BtcAddress)
    requires row.amountSatoshi == 1000 && row.nonce < 255
    ensures var paid := BtcTransfer(row.btcAddress, 1, row.nonce);
      var psbt := Payment(inputs, [paid], changeAddress, 0, 2);
      && psbt.tx.outputs[1] == TxOutput(PayTo(row.btcAddress), 1)
      && PsbtValid([LoadedTransfer(id, row)], Some(HashOf(psbt.tx)), psbt, changeAddress)
  {
    var paid := BtcTransfer(row.btcAddress, 1, row.nonce);
    var psbt := Payment(inputs, [paid], changeAddress, 0, 2);
    PayoutRoundTrip(inputs, [paid], changeAddress, 0, 2);
    assert Payable([paid]);
    assert ReadTransfers(psbt, changeAddress) == Some([paid]);
    assert FindTransfer([LoadedTransfer(id, row)], KeyOf(paid)).Some?;
  }

  // ---- The commitment ----

  predicate CommitmentValid(b: TransferBatch) {
    && b.commitment.Some?
    && Some(b.commitment.value.btcTransactionHash) == b.bitcoinTransactionHash
    && b.commitment.value.transferBatchSize == |b.transfers|
    && forall t :: t in b.transfers ==> t.row.btcTransactionHash == b.bitcoinTransactionHash
  }

  method ValidateTransferBatchCommitment(b: TransferBatch) returns (ok: bool)
    ensures ok <==> CommitmentValid(b)
  {
    if b.commitment.None? { return false; }
    if Some(b.commitment.value.btcTransactionHash) != b.bitcoinTransactionHash { return false; }
    if b.commitment.value.transferBatchSize != |b.transfers| { return false; }
    var i := 0;
    while i < |b.transfers|
      invariant 0 <= i <= |b.transfers|
      invariant forall k :: 0 <= k < i ==> b.transfers[k].row.btcTransactionHash == b.bitcoinTransactionHash
    {
      if b.transfers[i].row.btcTransactionHash != b.bitcoinTransactionHash {
        assert b.transfers[i] in b.transfers;
        return false;
      }
      i := i + 1;
    }
    return true;
  }

  // ---- Everything together ----

  predicate BatchValid(b: TransferBatch, expectedStatus: Option<Status>, requireSigned: bool, view: ChainView,
                       changeAddress: BtcAddress)
  {
    && ValidTransferState(b.transfers)
    && TransfersValid(b.transfers, expectedStatus, view)
    && RskSignaturesValid(b, view.latest.config.federators)
    && PsbtValid(b.transfers, b.bitcoinTransactionHash, b.initialBtcTransaction, changeAddress)
    && (b.signedBtcTransaction.Some? ==>
          PsbtValid(b.transfers, b.bitcoinTransactionHash, b.signedBtcTransaction.value, changeAddress))
    && (requireSigned ==> b.signedBtcTransaction.Some?)
  }

  method ValidateTransferBatch(b: TransferBatch, expectedStatus: Option<Status>, requireSigned: bool, view: ChainView,
                               changeAddress: BtcAddress) returns (ok: bool)
    ensures ok <==> BatchValid(b, expectedStatus, requireSigned, view, changeAddress)
  {
    ok := HasValidTransferState(b.transfers);
    if !ok { return; }
    ok := ValidateTransfers(b.transfers, expectedStatus, view);
    if !ok { return; }
    var federators := view.latest.config.federators;
    if |b.rskSendingSignatures| > 0 {
      if b.bitcoinTransactionHash.None? { return false; }
      ok := ValidateSignatureAndAddresses(federators, SendingMessage(b), b.rskSendingSignatures, b.rskSendingSigners);
      if !ok { return; }
    }
    if |b.rskMinedSignatures| > 0 {
      ok := ValidateSignatureAndAddresses(federators, MinedMessage(b), b.rskMinedSignatures, b.rskMinedSigners);
      if !ok { return; }
    }
    ok := ValidatePsbt(b.transfers, b.bitcoinTransactionHash, b.initialBtcTransaction, changeAddress);
    if !ok { return; }
    if b.signedBtcTransaction.Some? {
      ok := ValidatePsbt(b.transfers, b.bitcoinTransactionHash, b.signedBtcTransaction.value, changeAddress);
    } else if requireSigned {
      ok := false;
    }
  }

  /** What must hold before this node signs the Bitcoin transaction of a batch. */
  predicate SigningValid(b: TransferBatch, view: ChainView, changeAddress: BtcAddress) {
    && |b.transfers| > 0
    && IsMarkedAsSendingInRsk(b)
    && BatchValid(b, Some(Sending), false, view, changeAddress)
    && CommitmentValid(b)
  }

  method ValidateForSigningBitcoinTransaction(b: TransferBatch, view: ChainView, changeAddress: BtcAddress)
    returns (ok: bool)
    ensures ok <==> SigningValid(b, view, changeAddress)
    // it never signs for nothing, nor before the contract has every transfer as SENDING
    ensures ok ==> |b.transfers| > 0
    ensures ok ==> forall t :: t in b.transfers ==>
      HasStatus(view.latest, GetTransferId(t.row.btcAddress, t.row.nonce), Sending)
  {
    if |b.transfers| == 0 { return false; }
    if !IsMarkedAsSendingInRsk(b) { return false; }
    ok := ValidateTransferBatch(b, Some(Sending), false, view, changeAddress);
    if !ok { return; }
    ok := ValidateTransferBatchCommitment(b);
  }
}
