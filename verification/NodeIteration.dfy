/** core/node.ts: the initiator's loop over its batch, and the responses it gathers between iterations. */
module NodeIteration {
  import opened Base
  import opened TransferIds
  import opened Bitcoin
  import opened AccessControl
  import opened BridgeState
  import opened Payout
  import opened TransferBatches
  import opened Validator
  import opened RskSignatures
  import opened BitcoinSignatures

  /** This node's identities and configuration. */
  datatype Settings = Settings(publicKey: PublicKey, address: Address, changeAddress: BtcAddress, numRequiredSigners: nat)

  /** What the signing steps of one update find out about the outside world. */
  datatype Outside = Outside(beforeSending: ChainView, beforeMined: ChainView, sentToBitcoin: bool)

  /** The copy that the signature steps work on does not carry the commitment along. */
  function Copied(b: TransferBatch): (r: TransferBatch) { b.(commitment := None) }

  // ---- The three signature steps, None standing for a thrown error ----

  function WithSending(b: TransferBatch, offers: seq<Offer>, me: Settings, view: ChainView): (r: Option<TransferBatch>) {
    if |offers| == 0 || IsMarkedAsSendingInRsk(b) then Some(b)
    else if b.bitcoinTransactionHash.None? then None
    else
      var gathered := TakeAll(Signed(b.rskSendingSignatures, b.rskSendingSigners), SendingMessage(b), offers, me.numRequiredSigners);
      var signed := AddOwn(gathered, SendingMessage(b), me.address, MaySignSending(b, gathered, view, me), me.numRequiredSigners);
      if signed.None? then None else Some(SetSending(b, signed.value))
  }

  function SetSending(b: TransferBatch, s: Signed): TransferBatch {
    Copied(b).(rskSendingSignatures := s.signatures, rskSendingSigners := s.signers)
  }

  function SetMined(b: TransferBatch, s: Signed): TransferBatch {
    Copied(b).(rskMinedSignatures := s.signatures, rskMinedSigners := s.signers)
  }

  predicate MaySignSending(b: TransferBatch, gathered: Signed, view: ChainView, me: Settings) {
    |b.transfers| > 0 && BatchValid(SetSending(b, gathered), Some(New), false, view, me.changeAddress)
  }

  predicate MaySignMined(b: TransferBatch, gathered: Signed, view: ChainView, sentToBitcoin: bool, me: Settings) {
    |b.transfers| > 0 && sentToBitcoin && BatchValid(SetMined(b, gathered), Some(Sending), false, view, me.changeAddress)
  }

  function WithBitcoin(b: TransferBatch, psbts: seq<Psbt>, me: Settings): (r: Option<TransferBatch>) {
    if |psbts| == 0 || EnoughSignatures(b.signedBtcTransaction) then Some(b)
    else
      var added := Gathered(b.initialBtcTransaction, b.signedBtcTransaction, psbts, me.publicKey);
      if added.Failed? then None else Some(Copied(b).(signedBtcTransaction := added.signed))
  }

  function WithMined(b: TransferBatch, offers: seq<Offer>, me: Settings, view: ChainView, sentToBitcoin: bool)
    : (r: Option<TransferBatch>)
  {
    if |offers| == 0 || IsMarkedAsMinedInRsk(b) then Some(b)
    else
      var gathered := TakeAll(Signed(b.rskMinedSignatures, b.rskMinedSigners), MinedMessage(b), offers, me.numRequiredSigners);
      var signed := AddOwn(gathered, MinedMessage(b), me.address, MaySignMined(b, gathered, view, sentToBitcoin, me), me.numRequiredSigners);
      if signed.None? then None else Some(SetMined(b, signed.value))
  }

  datatype Responses = Responses(sending: seq<Offer>, bitcoin: seq<Psbt>, mined: seq<Offer>)

  function Updated(b: TransferBatch, responses: Responses, me: Settings, outside: Outside): (r: Option<TransferBatch>) {
    var first := WithSending(b, responses.sending, me, outside.beforeSending);
    if first.None? then None
    else
      var second := WithBitcoin(first.value, responses.bitcoin, me);
      if second.None? then None
      else WithMined(second.value, responses.mined, me, outside.beforeMined, outside.sentToBitcoin)
  }

  /** validateMatchesDto. */
  predicate MatchesDto(b: TransferBatch, dto: BatchDto) {
    && TransferIdsOf(b.transfers) == dto.transferIds
    && b.bitcoinTransactionHash == dto.bitcoinTransactionHash
    && b.initialBtcTransaction.requiredSignatures == dto.initialBtcTransaction.requiredSignatures
    && b.initialBtcTransaction.tx == dto.initialBtcTransaction.tx
    && (b.signedBtcTransaction.Some? && dto.signedBtcTransaction.Some? ==>
          b.signedBtcTransaction.value.requiredSignatures == dto.signedBtcTransaction.value.requiredSignatures)
  }

  /** The transient data of the initiator.  The ghost fields are the batches, as sent along with the kept
      responses, that these were made for. */
  class FastBTCNode {
    const me: Settings
    var currentTransferBatch: Option<TransferBatch>
    var gatheredRskSendingSignatures: seq<Offer>
    var gatheredBitcoinSignatures: seq<Psbt>
    var gatheredRskMinedSignatures: seq<Offer>
    ghost var sendingOrigins: seq<BatchDto>
    ghost var bitcoinOrigins: seq<BatchDto>
    ghost var minedOrigins: seq<BatchDto>

    constructor (me: Settings)
      ensures Valid() && this.me == me && currentTransferBatch.None? && Gathering() == Responses([], [], [])
    {
      this.me := me;
      currentTransferBatch := None;
      gatheredRskSendingSignatures, gatheredBitcoinSignatures, gatheredRskMinedSignatures := [], [], [];
      sendingOrigins, bitcoinOrigins, minedOrigins := [], [], [];
    }

    function Gathering(): (r: Responses)
      reads this
    {
      Responses(gatheredRskSendingSignatures, gatheredBitcoinSignatures, gatheredRskMinedSignatures)
    }

    ghost function Origins(): (r: seq<BatchDto>)
      reads this
    {
      sendingOrigins + bitcoinOrigins + minedOrigins
    }

    /** Every kept response was made for a batch with the ids, the hash and the initial transaction of the current one. */
    ghost predicate Valid()
      reads this
    {
      && |sendingOrigins| == |gatheredRskSendingSignatures|
      && |bitcoinOrigins| == |gatheredBitcoinSignatures|
      && |minedOrigins| == |gatheredRskMinedSignatures|
      && forall dto :: dto in Origins() ==> currentTransferBatch.Some? && MatchesDto(currentTransferBatch.value, dto)
    }

    /** handleMessageToInitiator: whether the response is to be kept; a mismatch throws. */
    predicate Accepts(isInitiator: bool, dto: BatchDto)
      reads this
    {
      isInitiator && currentTransferBatch.Some? && MatchesDto(currentTransferBatch.value, dto)
    }

    method OnBitcoinSignatureResponse(isInitiator: bool, dto: BatchDto, signedBtcTransaction: Psbt)
      requires Valid()
      modifies this`gatheredBitcoinSignatures, this`bitcoinOrigins
      ensures Valid()
      ensures gatheredBitcoinSignatures == old(gatheredBitcoinSignatures) + (if Accepts(isInitiator, dto) then [signedBtcTransaction] else [])
      ensures bitcoinOrigins == old(bitcoinOrigins) + (if Accepts(isInitiator, dto) then [dto] else [])
      ensures !isInitiator ==> Gathering() == old(Gathering())
    {
      if Accepts(isInitiator, dto) {
        gatheredBitcoinSignatures := gatheredBitcoinSignatures + [signedBtcTransaction];
        bitcoinOrigins := bitcoinOrigins + [dto];
      }
    }

    method OnRskSendingSignatureResponse(isInitiator: bool, dto: BatchDto, offer: Offer)
      requires Valid()
      modifies this`gatheredRskSendingSignatures, this`sendingOrigins
      ensures Valid()
      ensures gatheredRskSendingSignatures == old(gatheredRskSendingSignatures) + (if Accepts(isInitiator, dto) then [offer] else [])
      ensures sendingOrigins == old(sendingOrigins) + (if Accepts(isInitiator, dto) then [dto] else [])
      ensures !isInitiator ==> Gathering() == old(Gathering())
    {
      if Accepts(isInitiator, dto) {
        gatheredRskSendingSignatures := gatheredRskSendingSignatures + [offer];
        sendingOrigins := sendingOrigins + [dto];
      }
    }

    method OnRskMinedSignatureResponse(isInitiator: bool, dto: BatchDto, offer: Offer)
      requires Valid()
      modifies this`gatheredRskMinedSignatures, this`minedOrigins
      ensures Valid()
      ensures gatheredRskMinedSignatures == old(gatheredRskMinedSignatures) + (if Accepts(isInitiator, dto) then [offer] else [])
      ensures minedOrigins == old(minedOrigins) + (if Accepts(isInitiator, dto) then [dto] else [])
      ensures !isInitiator ==> Gathering() == old(Gathering())
    {
      if Accepts(isInitiator, dto) {
        gatheredRskMinedSignatures := gatheredRskMinedSignatures + [offer];
        minedOrigins := minedOrigins + [dto];
      }
    }

    /** updateTransferBatchFromTransientInitiatorData: the responses are used up in any case, and they have an effect
        only on a batch with the very transfers they were all made for.  None is an error thrown on the way. */
    method UpdateTransferBatch(transferBatch: TransferBatch, outside: Outside) returns (r: Option<TransferBatch>)
      requires Valid()
      modifies this
      ensures Valid() && Gathering() == Responses([], [], [])
      ensures r == (if old(currentTransferBatch).Some?
                       && TransferIdsOf(old(currentTransferBatch).value.transfers) == TransferIdsOf(transferBatch.transfers)
                    then Updated(transferBatch, old(Gathering()), me, outside) else Some(transferBatch))
      ensures r != Some(transferBatch) ==>
        forall dto :: dto in old(Origins()) ==> dto.transferIds == TransferIdsOf(transferBatch.transfers)
      ensures currentTransferBatch == if r.Some? then r else Some(transferBatch)
    {
      hide BatchValid, Gathered, IsMarkedAsSendingInRsk, IsMarkedAsMinedInRsk, TakeAll, EnoughSignatures;
      var during := currentTransferBatch;
      var sending, bitcoin, mined := gatheredRskSendingSignatures, gatheredBitcoinSignatures, gatheredRskMinedSignatures;
      currentTransferBatch := Some(transferBatch);
      gatheredRskSendingSignatures, gatheredBitcoinSignatures, gatheredRskMinedSignatures := [], [], [];
      sendingOrigins, bitcoinOrigins, minedOrigins := [], [], [];
      if during.None? || TransferIdsOf(during.value.transfers) != TransferIdsOf(transferBatch.transfers) {
        return Some(transferBatch);
      }
      var batch := transferBatch;
      var updated := false;
      if |sending| > 0 {
        r := WithSending(batch, sending, me, outside.beforeSending);
        if r.None? { return; }
        batch, updated := r.value, true;
      }
      if |bitcoin| > 0 {
        r := WithBitcoin(batch, bitcoin, me);
        if r.None? { return; }
        batch, updated := r.value, true;
      }
      if |mined| > 0 {
        r := WithMined(batch, mined, me, outside.beforeMined, outside.sentToBitcoin);
        if r.None? { return; }
        batch, updated := r.value, true;
      }
      if updated {
        currentTransferBatch := Some(batch);
      }
      return Some(batch);
    }
  }

  // ---- What the matching of responses is good for ----

  /** A signature of the SENDING update of the batch that came along counts for the current batch, because ids
      and hash agree. */
  lemma KeptOfferMatches(b: TransferBatch, dto: BatchDto, signer: Address)
    requires MatchesDto(b, dto) && dto.bitcoinTransactionHash.Some?
    ensures SignatureMatches(SendingMessage(b), Offer(Checksummed(signer),
      Signature(signer, BatchUpdateWithTxHash(Sending, dto.bitcoinTransactionHash.value, dto.transferIds))))
    ensures SignatureMatches(MinedMessage(b), Offer(Checksummed(signer), Signature(signer, BatchUpdate(Mined, dto.transferIds))))
  {
  }

  /** A message matches exactly if what it says about the batch differs at most in the signatures on the updates, in the signers
      and the flag of the initial transaction, and in the signed transaction, for which the numbers required agree. */
  lemma MatchesExactly(b: TransferBatch, dto: BatchDto)
    ensures MatchesDto(b, dto) <==>
      && dto == DtoOf(b).(
           rskSendingSignatures := dto.rskSendingSignatures, rskSendingSigners := dto.rskSendingSigners,
           rskMinedSignatures := dto.rskMinedSignatures, rskMinedSigners := dto.rskMinedSigners,
           initialBtcTransaction := b.initialBtcTransaction.(
             signedPublicKeys := dto.initialBtcTransaction.signedPublicKeys, noChange := dto.initialBtcTransaction.noChange),
           signedBtcTransaction := dto.signedBtcTransaction)
      && (b.signedBtcTransaction.Some? && dto.signedBtcTransaction.Some? ==>
            b.signedBtcTransaction.value.requiredSignatures == dto.signedBtcTransaction.value.requiredSignatures)
  {
  }

  /** So the responses to any earlier message about a batch still match after an update of it. */
  lemma EarlierMessagesMatch(b: TransferBatch, responses: Responses, me: Settings, outside: Outside)
    requires Updated(b, responses, me, outside).Some?
    ensures var c := Updated(b, responses, me, outside).value;
      MatchesDto(c, DtoOf(b)) <==>
        (b.signedBtcTransaction.Some? && c.signedBtcTransaction.Some? ==>
           c.signedBtcTransaction.value.requiredSignatures == b.signedBtcTransaction.value.requiredSignatures)
  {
    hide Updated;
    UpdateExtends(b, responses, me, outside);
  }

  /** What a responder that runs this code sends back for the batch in the message. */
  ghost predicate HonestResponse(dto: BatchDto, response: Psbt) {
    exists k :: SignWith(dto.initialBtcTransaction, k) == Some(response)
  }

  predicate BringsKey(responses: seq<Psbt>, had: seq<PublicKey>) {
    exists p :: p in responses && p.signedPublicKeys != [] && p.signedPublicKeys[0] !in had
  }

  /** As long as the initiator has the batch it gathered for, the Bitcoin responses it kept, if made by nodes that
      run this code for initial transactions without signers, never make the update fail; no signer is counted
      twice, none is lost, and a new one counts. */
  lemma KeptResponsesCount(node: FastBTCNode, b: TransferBatch)
    requires node.Valid() && node.currentTransferBatch.Some?
    requires b.initialBtcTransaction == node.currentTransferBatch.value.initialBtcTransaction
    requires b.initialBtcTransaction.signedPublicKeys == []
    requires var current := Current(b.initialBtcTransaction, b.signedBtcTransaction);
      && NoDuplicates(current.signedPublicKeys)
      && |current.signedPublicKeys| <= current.requiredSignatures
      && current.tx == b.initialBtcTransaction.tx
      && current.requiredSignatures == b.initialBtcTransaction.requiredSignatures
    requires forall i :: 0 <= i < |node.bitcoinOrigins| ==>
      && node.bitcoinOrigins[i].initialBtcTransaction.signedPublicKeys == []
      && HonestResponse(node.bitcoinOrigins[i], node.gatheredBitcoinSignatures[i])
    ensures var responses := node.gatheredBitcoinSignatures;
      var r := WithBitcoin(b, responses, node.me);
      var had := Current(b.initialBtcTransaction, b.signedBtcTransaction).signedPublicKeys;
      && r.Some?
      && var now := Current(b.initialBtcTransaction, r.value.signedBtcTransaction).signedPublicKeys;
      && NoDuplicates(now) && had <= now && |now| <= b.initialBtcTransaction.requiredSignatures
      && (|had| < b.initialBtcTransaction.requiredSignatures && BringsKey(responses, had) ==> |now| > |had|)
  {
    var responses, initial := node.gatheredBitcoinSignatures, b.initialBtcTransaction;
    forall p | p in responses ensures |p.signedPublicKeys| == 1 && p.tx == initial.tx && p.requiredSignatures == initial.requiredSignatures {
      var i :| 0 <= i < |responses| && responses[i] == p;
      assert node.bitcoinOrigins[i] in node.Origins();
      assert HonestResponse(node.bitcoinOrigins[i], p);
    }
    hide Gathered, NoDuplicates, Kept;
    SignaturesAccumulate(initial, b.signedBtcTransaction, responses, node.me.publicKey);
  }

  /** The signers listed in the initial transaction of a message are not compared.  A response by a node that runs this
      code to a message that lists signer 9 is kept, carries two keys, and where one signature was missing the
      result has more than required. */
  lemma ListedSignersNotCompared(b: TransferBatch, tx: UnsignedTx, me: Settings)
    requires b.initialBtcTransaction == Psbt(tx, [], 2, false) && b.signedBtcTransaction == Some(Psbt(tx, [1], 2, false))
    requires me.publicKey == 1
    ensures var dto := DtoOf(b).(initialBtcTransaction := Psbt(tx, [9], 2, false));
      var response := Psbt(tx, [9, 4], 2, false);
      && MatchesDto(b, dto) && HonestResponse(dto, response)
      && WithBitcoin(b, [response], me) == Some(Copied(b).(signedBtcTransaction := Some(Psbt(tx, [1, 9, 4], 2, false))))
  {
    var dto := DtoOf(b).(initialBtcTransaction := Psbt(tx, [9], 2, false));
    var response, one := Psbt(tx, [9, 4], 2, false), Psbt(tx, [1], 2, false);
    assert [9] + [4] == [9, 4] && [1] + [9, 4] == [1, 9, 4];
    assert SignWith(dto.initialBtcTransaction, 4) == Some(response);
    assert one.signedPublicKeys == [1] && Elements(one.signedPublicKeys) == {1};
    OnlyKept(response);
    hide KeepFresh;
    assert [response][1..] == [];
    var merged := Psbt(tx, [1, 9, 4], 2, false);
    assert CombineFrom(merged, []) == Some(merged);
    assert CombineFrom(one, [response]) == Some(merged);
    assert Gathered(b.initialBtcTransaction, Some(one), [response], 1) == Stored(Some(merged));
  }

  lemma OnlyKept(response: Psbt)
    requires response.signedPublicKeys == [9, 4]
    ensures KeepFresh({1}, [response], 1) == [response]
  {
    assert 9 in Elements(response.signedPublicKeys) && {1} * Elements(response.signedPublicKeys) == {};
    assert [response][1..] == [];
    assert KeepFresh({1} + Elements(response.signedPublicKeys), [], 1) == [];
  }

  // ---- What an update keeps ----

  /** Same transfers and transaction; signatures are only added, and Bitcoin signatures only to the transaction
      that is there. */
  predicate Extends(b: TransferBatch, c: TransferBatch) {
    && c.transfers == b.transfers
    && c.bitcoinTransactionHash == b.bitcoinTransactionHash && c.initialBtcTransaction == b.initialBtcTransaction
    && b.rskSendingSignatures <= c.rskSendingSignatures && b.rskSendingSigners <= c.rskSendingSigners
    && b.rskMinedSignatures <= c.rskMinedSignatures && b.rskMinedSigners <= c.rskMinedSigners
    && (b.signedBtcTransaction.Some? ==> c.signedBtcTransaction.Some?)
    && Current(c.initialBtcTransaction, c.signedBtcTransaction).tx == Current(b.initialBtcTransaction, b.signedBtcTransaction).tx
    && Current(b.initialBtcTransaction, b.signedBtcTransaction).signedPublicKeys
       <= Current(c.initialBtcTransaction, c.signedBtcTransaction).signedPublicKeys
  }

  lemma {:induction false} TakeAllExtends(s: Signed, message: UpdateMessage, offers: seq<Offer>, numRequired: nat)
    ensures var r := TakeAll(s, message, offers, numRequired);
      s.signers <= r.signers && s.signatures <= r.signatures
  {
    if |offers| > 0 {
      TakeAllExtends(s, message, offers[..|offers| - 1], numRequired);
    }
  }

  /** An update never loses a signature and never changes what is being paid. */
  lemma UpdateExtends(b: TransferBatch, responses: Responses, me: Settings, outside: Outside)
    requires Updated(b, responses, me, outside).Some?
    ensures Extends(b, Updated(b, responses, me, outside).value)
  {
    hide BatchValid, Gathered, IsMarkedAsSendingInRsk, IsMarkedAsMinedInRsk, TakeAll, EnoughSignatures, Extends;
    var first := WithSending(b, responses.sending, me, outside.beforeSending).value;
    SendingExtends(b, responses.sending, me, outside.beforeSending);
    var second := WithBitcoin(first, responses.bitcoin, me).value;
    BitcoinExtends(first, responses.bitcoin, me);
    MinedExtends(second, responses.mined, me, outside.beforeMined, outside.sentToBitcoin);
    ExtendsTransitive(b, first, second);
    ExtendsTransitive(b, second, Updated(b, responses, me, outside).value);
  }

  lemma ExtendsTransitive(a: TransferBatch, b: TransferBatch, c: TransferBatch)
    requires Extends(a, b) && Extends(b, c)
    ensures Extends(a, c)
  {
  }

  lemma SendingExtends(b: TransferBatch, offers: seq<Offer>, me: Settings, view: ChainView)
    requires WithSending(b, offers, me, view).Some?
    ensures Extends(b, WithSending(b, offers, me, view).value)
  {
    hide BatchValid, TakeAll, IsMarkedAsSendingInRsk;
    if b.bitcoinTransactionHash.Some? {
      TakeAllExtends(Signed(b.rskSendingSignatures, b.rskSendingSigners), SendingMessage(b), offers, me.numRequiredSigners);
    }
  }

  lemma MinedExtends(b: TransferBatch, offers: seq<Offer>, me: Settings, view: ChainView, sentToBitcoin: bool)
    requires WithMined(b, offers, me, view, sentToBitcoin).Some?
    ensures Extends(b, WithMined(b, offers, me, view, sentToBitcoin).value)
  {
    hide BatchValid, TakeAll, IsMarkedAsMinedInRsk;
    TakeAllExtends(Signed(b.rskMinedSignatures, b.rskMinedSigners), MinedMessage(b), offers, me.numRequiredSigners);
  }

  lemma BitcoinExtends(b: TransferBatch, psbts: seq<Psbt>, me: Settings)
    requires WithBitcoin(b, psbts, me).Some?
    ensures Extends(b, WithBitcoin(b, psbts, me).value)
  {
    hide Gathered;
    if |psbts| > 0 && !EnoughSignatures(b.signedBtcTransaction) {
      GatheredExtends(b.initialBtcTransaction, b.signedBtcTransaction, psbts, me.publicKey);
    }
  }

  /** A batch that an update has changed does not carry its commitment any more: it has to be loaded again before it passes
      the commitment check. */
  lemma UpdatedWithoutCommitment(b: TransferBatch, responses: Responses, me: Settings, outside: Outside)
    requires Updated(b, responses, me, outside).Some?
    ensures var c := Updated(b, responses, me, outside).value;
      c == b || (c.commitment.None? && !CommitmentValid(c))
  {
    hide BatchValid, Gathered, IsMarkedAsSendingInRsk, IsMarkedAsMinedInRsk, TakeAll, EnoughSignatures;
  }

  // ---- Soundness of the gathered lists ----

  /** A sound list of RSK signatures that is not too long. */
  predicate SoundList(s: Signed, message: UpdateMessage, me: Settings) {
    Sound(s, message) && |s.signers| <= me.numRequiredSigners
  }

  predicate SoundBatch(b: TransferBatch, me: Settings) {
    && b.bitcoinTransactionHash.Some?
    && SoundList(SendingList(b), SendingMessage(b), me)
    && SoundList(MinedList(b), MinedMessage(b), me)
  }

  function SendingList(b: TransferBatch): Signed { Signed(b.rskSendingSignatures, b.rskSendingSigners) }

  function MinedList(b: TransferBatch): Signed { Signed(b.rskMinedSignatures, b.rskMinedSigners) }

  /** The signatories are one short of the number required and this node is one of them. */
  predicate SignsTwice(s: Signed, message: UpdateMessage, offers: seq<Offer>, me: Settings) {
    var signatories := Signatories(s, message, offers);
    |signatories| == me.numRequiredSigners - 1 && me.address in signatories
  }

  lemma ListSoundExactly(s: Signed, message: UpdateMessage, offers: seq<Offer>, maySign: bool, me: Settings)
    requires SoundList(s, message, me)
    requires AddOwn(TakeAll(s, message, offers, me.numRequiredSigners), message, me.address, maySign, me.numRequiredSigners).Some?
    ensures var r := AddOwn(TakeAll(s, message, offers, me.numRequiredSigners), message, me.address, maySign, me.numRequiredSigners).value;
      SoundList(r, message, me) <==> !SignsTwice(s, message, offers, me)
  {
    hide TakeAll, Sound;
    OwnSignatureOnce(s, message, offers, me.address, me.numRequiredSigners);
  }

  /** An update of a sound batch leaves both lists of RSK signatures sound (aligned, no signer twice whatever the
      letter case, each signature by its signer, no more than required) exactly if in neither step this node
      signs a second time. */
  lemma UpdateSoundExactly(b: TransferBatch, responses: Responses, me: Settings, outside: Outside)
    requires SoundBatch(b, me) && Updated(b, responses, me, outside).Some?
    ensures SoundBatch(Updated(b, responses, me, outside).value, me) <==>
      && !(|responses.sending| > 0 && !IsMarkedAsSendingInRsk(b) && SignsTwice(SendingList(b), SendingMessage(b), responses.sending, me))
      && !(|responses.mined| > 0 && !IsMarkedAsMinedInRsk(b) && SignsTwice(MinedList(b), MinedMessage(b), responses.mined, me))
  {
    hide BatchValid, Gathered, TakeAll, SoundList, SignsTwice, IsMarkedAsSendingInRsk, IsMarkedAsMinedInRsk, AddOwn;
    var first := WithSending(b, responses.sending, me, outside.beforeSending).value;
    var second := WithBitcoin(first, responses.bitcoin, me).value;
    assert second.transfers == b.transfers && MinedMessage(second) == MinedMessage(b) && MinedList(second) == MinedList(b);
    SameMarks(second, b);
    if |responses.sending| > 0 && !IsMarkedAsSendingInRsk(b) {
      ListSoundExactly(SendingList(b), SendingMessage(b), responses.sending,
        MaySignSending(b, TakeAll(SendingList(b), SendingMessage(b), responses.sending, me.numRequiredSigners), outside.beforeSending, me), me);
    }
    if |responses.mined| > 0 && !IsMarkedAsMinedInRsk(b) {
      ListSoundExactly(MinedList(b), MinedMessage(b), responses.mined,
        MaySignMined(second, TakeAll(MinedList(b), MinedMessage(b), responses.mined, me.numRequiredSigners), outside.beforeMined, outside.sentToBitcoin, me), me);
    }
  }

  lemma SameMarks(a: TransferBatch, b: TransferBatch)
    requires a.transfers == b.transfers
    ensures IsMarkedAsMinedInRsk(a) <==> IsMarkedAsMinedInRsk(b)
    ensures IsMarkedAsSendingInRsk(a) <==> IsMarkedAsSendingInRsk(b)
  {
  }

  // ---- Acceptance by the contract ----

  /** The federators, as the contract has them when this node signs, and enough signatures required. */
  predicate Majority(view: ChainView, me: Settings) {
    && ZERO_ADDRESS !in view.latest.config.federators
    && me.numRequiredSigners >= NumRequiredFederators(|view.latest.config.federators|)
  }

  lemma CompletedAccepted(s: Signed, message: UpdateMessage, offers: seq<Offer>, me: Settings, federators: set<Address>)
    requires SoundList(s, message, me) && |Signatories(s, message, offers)| == me.numRequiredSigners - 1
    requires ZERO_ADDRESS !in federators && me.numRequiredSigners >= NumRequiredFederators(|federators|)
    requires forall a :: a in TakeAll(s, message, offers, me.numRequiredSigners).signers ==> a.account in federators
    ensures var r := AddOwn(TakeAll(s, message, offers, me.numRequiredSigners), message, me.address, true, me.numRequiredSigners).value;
      IsQuorum(federators, Recovered(message, r.signatures)) <==>
        me.address in federators && me.address !in Signatories(s, message, offers)
  {
    hide TakeAll, IsQuorum, Sound, Signatories;
    var n := me.numRequiredSigners;
    var gathered := TakeAll(s, message, offers, n);
    var r := Append(gathered, Signature(me.address, message), Checksummed(me.address));
    GatheredIsAll(s, message, offers, n);
    OwnSignatureOnce(s, message, offers, me.address, n);
    if me.address !in Signatories(s, message, offers) {
      CompleteBatchAccepted(r, message, federators);
      LastSigner(gathered, r, federators);
    } else {
      SoundRecovers(gathered, message);
      DuplicateRefused(r, message, federators);
    }
  }

  /** A list of SENDING signatures that this node completes with its own validated signature is accepted by the
      contract exactly if the node is a federator and was not among the signatories: the other signers have
      been checked by then, so only a list filled by responses alone can hold an outsider. */
  lemma OwnSendingCompletes(b: TransferBatch, offers: seq<Offer>, me: Settings, view: ChainView)
    requires b.bitcoinTransactionHash.Some? && SoundList(SendingList(b), SendingMessage(b), me)
    requires |offers| > 0 && !IsMarkedAsSendingInRsk(b) && Majority(view, me)
    requires |Signatories(SendingList(b), SendingMessage(b), offers)| == me.numRequiredSigners - 1
    requires WithSending(b, offers, me, view).Some?
    ensures var c := WithSending(b, offers, me, view).value;
      var federators := view.latest.config.federators;
      IsQuorum(federators, Recovered(SendingMessage(c), c.rskSendingSignatures)) <==>
        me.address in federators && me.address !in Signatories(SendingList(b), SendingMessage(b), offers)
  {
    hide IsMarkedAsSendingInRsk, TakeAll, IsQuorum, Sound, Signatories;
    var gathered := TakeAll(SendingList(b), SendingMessage(b), offers, me.numRequiredSigners);
    GatheredIsAll(SendingList(b), SendingMessage(b), offers, me.numRequiredSigners);
    GatheredAreFederators(b, gathered, me, view);
    CompletedAccepted(SendingList(b), SendingMessage(b), offers, me, view.latest.config.federators);
  }

  /** The same for the MINED update. */
  lemma OwnMinedCompletes(b: TransferBatch, offers: seq<Offer>, me: Settings, view: ChainView, sentToBitcoin: bool)
    requires SoundList(MinedList(b), MinedMessage(b), me)
    requires |offers| > 0 && !IsMarkedAsMinedInRsk(b) && Majority(view, me)
    requires |Signatories(MinedList(b), MinedMessage(b), offers)| == me.numRequiredSigners - 1
    requires WithMined(b, offers, me, view, sentToBitcoin).Some?
    ensures var c := WithMined(b, offers, me, view, sentToBitcoin).value;
      var federators := view.latest.config.federators;
      IsQuorum(federators, Recovered(MinedMessage(c), c.rskMinedSignatures)) <==>
        me.address in federators && me.address !in Signatories(MinedList(b), MinedMessage(b), offers)
  {
    hide IsMarkedAsMinedInRsk, TakeAll, IsQuorum, Sound, Signatories;
    var gathered := TakeAll(MinedList(b), MinedMessage(b), offers, me.numRequiredSigners);
    GatheredIsAll(MinedList(b), MinedMessage(b), offers, me.numRequiredSigners);
    MinedAreFederators(b, gathered, me, view, sentToBitcoin);
    CompletedAccepted(MinedList(b), MinedMessage(b), offers, me, view.latest.config.federators);
  }

  lemma SoundRecovers(s: Signed, message: UpdateMessage)
    requires Sound(s, message)
    ensures |s.signatures| == |s.signers|
    ensures forall i :: 0 <= i < |s.signers| ==> s.signers[i] == Checksummed(Recover(message, s.signatures[i]))
  {
  }

  lemma GatheredIsAll(s: Signed, message: UpdateMessage, offers: seq<Offer>, numRequired: nat)
    requires Sound(s, message) && |s.signers| <= numRequired
    requires |Signatories(s, message, offers)| == numRequired - 1
    ensures var gathered := TakeAll(s, message, offers, numRequired);
      && Sound(gathered, message) && |gathered.signers| == |gathered.signatures| == numRequired - 1
      && Accounts(gathered.signers) == Signatories(s, message, offers)
  {
    TakeAllSound(s, message, offers, numRequired);
    TakeAllSignatories(s, message, offers, numRequired);
    var gathered := TakeAll(s, message, offers, numRequired);
    SoundCount(gathered.signers);
    SubsetCardinality(Accounts(gathered.signers), Signatories(s, message, offers));
  }

  lemma GatheredAreFederators(b: TransferBatch, gathered: Signed, me: Settings, view: ChainView)
    requires b.bitcoinTransactionHash.Some? && |gathered.signatures| == |gathered.signers|
    requires MaySignSending(b, gathered, view, me)
    ensures forall a :: a in gathered.signers ==> a.account in view.latest.config.federators
  {
    hide PsbtValid, TransfersValid, ValidTransferState;
  }

  lemma MinedAreFederators(b: TransferBatch, gathered: Signed, me: Settings, view: ChainView, sentToBitcoin: bool)
    requires |gathered.signatures| == |gathered.signers|
    requires MaySignMined(b, gathered, view, sentToBitcoin, me)
    ensures forall a :: a in gathered.signers ==> a.account in view.latest.config.federators
  {
    hide PsbtValid, TransfersValid, ValidTransferState;
  }

  lemma LastSigner(gathered: Signed, r: Signed, federators: set<Address>)
    requires |r.signers| == |gathered.signers| + 1 && r.signers[..|gathered.signers|] == gathered.signers
    requires forall a :: a in gathered.signers ==> a.account in federators
    ensures (forall a :: a in r.signers ==> a.account in federators) <==> r.signers[|gathered.signers|].account in federators
  {
    var n := |gathered.signers|;
    assert r.signers == gathered.signers + [r.signers[n]];
  }

  lemma DuplicateRefused(r: Signed, message: UpdateMessage, federators: set<Address>)
    requires |r.signatures| == |r.signers| && !Sound(r, message)
    requires forall i :: 0 <= i < |r.signers| ==> r.signers[i] == Checksummed(Recover(message, r.signatures[i]))
    ensures !IsQuorum(federators, Recovered(message, r.signatures))
  {
    var recovered := Recovered(message, r.signatures);
    var i, j :| 0 <= i < j < |r.signers| && ToLowerCase(r.signers[i]) == ToLowerCase(r.signers[j]);
    assert recovered[i] == recovered[j];
  }

  // ---- Where new Bitcoin signatures come from ----

  /** A key that an update adds came with a response on the transaction or with the initial one, or it is this node's
      own, added on top of somebody's signature on the very transaction, unless all responses were empty. */
  lemma NewKeysFollow(b: TransferBatch, responses: Responses, me: Settings, outside: Outside)
    requires Updated(b, responses, me, outside).Some?
    ensures var c := Updated(b, responses, me, outside).value;
      var initial := b.initialBtcTransaction;
      var had, now := Current(initial, b.signedBtcTransaction), Current(c.initialBtcTransaction, c.signedBtcTransaction);
      forall k :: k in now.signedPublicKeys && k !in had.signedPublicKeys ==>
        || FromResponses(responses.bitcoin, now.tx, k)
        || (initial.tx == now.tx && k in initial.signedPublicKeys)
        || (k == me.publicKey && initial.tx == now.tx && |responses.bitcoin| > 0
            && (|| had.signedPublicKeys != [] || initial.signedPublicKeys != []
                || AllEmpty(responses.bitcoin) || SomeResponseOn(responses.bitcoin, now.tx)))
  {
    hide BatchValid, Gathered, IsMarkedAsSendingInRsk, IsMarkedAsMinedInRsk, TakeAll, AllEmpty, SomeResponseOn, FromResponses;
    var first := WithSending(b, responses.sending, me, outside.beforeSending).value;
    if |responses.bitcoin| > 0 && !EnoughSignatures(b.signedBtcTransaction) {
      OwnSignatureFollows(first.initialBtcTransaction, first.signedBtcTransaction, responses.bitcoin, me.publicKey);
    }
  }

  /** The update in which this node signs a Bitcoin transaction nobody else has signed: there are responses,
      and all of them are empty. */
  predicate SignsAlone(b: TransferBatch, responses: Responses) {
    && Current(b.initialBtcTransaction, b.signedBtcTransaction).signedPublicKeys == []
    && Current(b.initialBtcTransaction, b.signedBtcTransaction).requiredSignatures >= 1
    && |responses.bitcoin| > 0 && AllEmpty(responses.bitcoin)
  }

  /** When nothing is signed yet, the node ends up as the only signer by its own doing exactly in that case. */
  lemma OwnKeyAloneExactly(b: TransferBatch, responses: Responses, me: Settings, outside: Outside)
    requires Updated(b, responses, me, outside).Some?
    requires b.initialBtcTransaction.signedPublicKeys == []
    requires Current(b.initialBtcTransaction, b.signedBtcTransaction).signedPublicKeys == []
    ensures var c := Updated(b, responses, me, outside).value;
      var now := Current(c.initialBtcTransaction, c.signedBtcTransaction);
      && (SignedAlone(now, responses.bitcoin) <==> SignsAlone(b, responses))
      && (SignsAlone(b, responses) ==> now.signedPublicKeys == [me.publicKey])
  {
    hide BatchValid, Gathered, IsMarkedAsSendingInRsk, IsMarkedAsMinedInRsk, TakeAll, AllEmpty;
    var first := WithSending(b, responses.sending, me, outside.beforeSending).value;
    if |responses.bitcoin| > 0 && !EnoughSignatures(b.signedBtcTransaction) {
      SignsAloneExactly(first.initialBtcTransaction, first.signedBtcTransaction, responses.bitcoin, me.publicKey);
    }
  }
}
