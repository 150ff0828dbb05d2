/** The stages of an iteration against the contract and the Bitcoin wallet: a node asks for signatures exactly as long as what it
    has would not be accepted (core/node.ts). */
module StageConditions {
  import opened Base
  import opened AccessControl
  import opened BridgeState
  import opened BridgeCalls
  import opened TransferBatches
  import opened Validator
  import opened RskSignatures
  import opened NodeIteration
  import opened NodeProgress
  import opened CallConditions

  /** All rows of a batch that is not empty have this status. */
  predicate RowsAre(b: TransferBatch, status: Status) {
    b.transfers != [] && forall t :: t in b.transfers ==> t.row.status == status
  }

  lemma RowsMarked(b: TransferBatch, status: Status)
    requires RowsAre(b, status)
    ensures ValidTransferState(b.transfers) <==> status in {New, Sending, Mined}
    ensures IsMarkedAsSendingInRsk(b) <==> status in {Sending, Mined}
    ensures IsMarkedAsMinedInRsk(b) <==> status == Mined
  {
    assert b.transfers[0] in b.transfers;
  }

  /** Signatures by federators, each by the signer listed for it, no signer twice. */
  predicate ByFederators(s: Signed, message: UpdateMessage, federators: set<Address>) {
    Sound(s, message) && (forall a :: a in s.signers ==> a.account in federators) && ZERO_ADDRESS !in federators
  }

  lemma EnoughExactly(s: Signed, message: UpdateMessage, federators: set<Address>)
    requires ByFederators(s, message, federators)
    ensures IsQuorum(federators, Recovered(message, s.signatures)) <==> |s.signatures| >= NumRequiredFederators(|federators|)
  {
    if |s.signatures| >= NumRequiredFederators(|federators|) {
      CompleteBatchAccepted(s, message, federators);
    }
  }

  /** What the contract needs of the sender, besides the signatures. */
  predicate Open(s: State, sender: Address) {
    sender in s.config.federators && !s.config.frozen && s.initialized
  }

  /** A due batch that is NEW for the node and in the contract: the node sends the SENDING update exactly when the contract would
      accept it, and goes on asking for signatures exactly as long as it would not. */
  lemma SendsWhenAccepted(b: TransferBatch, s: State, sender: Address, sentToBitcoin: bool, numRequiredSigners: nat)
    requires RowsAre(b, New) && b.bitcoinTransactionHash.Some?
    requires numRequiredSigners == NumRequiredFederators(|s.config.federators|)
    requires ByFederators(SendingList(b), SendingMessage(b), s.config.federators)
    requires var ids := TransferIdsOf(b.transfers);
      Open(s, sender) && NoDuplicates(ids) && forall id :: id in ids ==> HasStatus(s, id, New)
    ensures var call := MarkTransfersAsSending(sender, b.bitcoinTransactionHash.value, TransferIdsOf(b.transfers), b.rskSendingSignatures);
      StageOf(b, true, sentToBitcoin, numRequiredSigners) == if Exec(s, call).Ok? then MarkSending else RequestSending
  {
    hide IsQuorum, Sound, ValidTransferState, IsMarkedAsSendingInRsk, IsMarkedAsMinedInRsk, Approved, NoDuplicates;
    RowsMarked(b, New);
    EnoughExactly(SendingList(b), SendingMessage(b), s.config.federators);
    ApprovedIsQuorum(s.config.federators, SendingMessage(b), b.rskSendingSignatures);
    MarkSendingExactly(s, sender, b.bitcoinTransactionHash.value, TransferIdsOf(b.transfers), b.rskSendingSignatures);
    hide Exec;
  }

  /** The same for the MINED update, once the transaction has been sent. */
  lemma MinesWhenAccepted(b: TransferBatch, s: State, sender: Address, numRequiredSigners: nat)
    requires RowsAre(b, Sending) && numRequiredSigners == NumRequiredFederators(|s.config.federators|)
    requires ByFederators(MinedList(b), MinedMessage(b), s.config.federators)
    requires var ids := TransferIdsOf(b.transfers);
      Open(s, sender) && NoDuplicates(ids) && forall id :: id in ids ==> HasStatus(s, id, Sending)
    ensures var call := MarkTransfersAsMined(sender, TransferIdsOf(b.transfers), b.rskMinedSignatures);
      StageOf(b, true, true, numRequiredSigners) == if Exec(s, call).Ok? then MarkMined else RequestMined
  {
    hide IsQuorum, Sound, ValidTransferState, IsMarkedAsSendingInRsk, IsMarkedAsMinedInRsk, Approved, NoDuplicates;
    RowsMarked(b, Sending);
    EnoughExactly(MinedList(b), MinedMessage(b), s.config.federators);
    ApprovedIsQuorum(s.config.federators, MinedMessage(b), b.rskMinedSignatures);
    MarkMinedExactly(s, sender, TransferIdsOf(b.transfers), b.rskMinedSignatures);
    hide Exec;
  }

  /** In between, a transaction that is not in Bitcoin yet is sent exactly when it has as many signatures as it requires. */
  lemma SendsToBitcoinWhenSigned(b: TransferBatch, numRequiredSigners: nat)
    requires RowsAre(b, Sending) || RowsAre(b, Mined)
    ensures StageOf(b, true, false, numRequiredSigners)
      == match b.signedBtcTransaction
         case None => RequestBitcoin
         case Some(psbt) => if |psbt.signedPublicKeys| < psbt.requiredSignatures then RequestBitcoin else SendBitcoin
  {
    RowsMarked(b, if RowsAre(b, Sending) then Sending else Mined);
  }

  /** Nothing more is done for a batch that is MINED and in Bitcoin, or not due; and one with any other status is given up. */
  lemma OtherStages(b: TransferBatch, status: Status, due: bool, sentToBitcoin: bool, numRequiredSigners: nat)
    requires RowsAre(b, status)
    ensures StageOf(b, due, sentToBitcoin, numRequiredSigners) == PurgeInvalid <==> status !in {New, Sending, Mined}
    ensures StageOf(b, due, sentToBitcoin, numRequiredSigners) == NotDue <==> status in {New, Sending, Mined} && !due
    ensures StageOf(b, due, sentToBitcoin, numRequiredSigners) == Finished <==> status == Mined && due && sentToBitcoin
  {
    RowsMarked(b, status);
    hide ValidTransferState, IsMarkedAsSendingInRsk, IsMarkedAsMinedInRsk;
  }
}
