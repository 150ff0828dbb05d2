/** core/transfers.ts: gathering the federators' signatures of a status update
    (addRskSendingSignatures and addRskMinedSignatures differ only in the message). */
module RskSignatures {
  import opened Base
  import opened AccessControl
  import opened BridgeState
  import opened TransferBatches
  import opened Validator

  datatype Signed = Signed(signatures: seq<UpdateSignature>, signers: seq<AddressText>)

  datatype Offer = Offer(address: AddressText, signature: UpdateSignature)

  predicate AlreadySigned(signers: seq<AddressText>, address: AddressText) {
    exists i :: 0 <= i < |signers| && ToLowerCase(signers[i]) == ToLowerCase(address)
  }

  /** isValidSignatureAndAddress: a signer that is not a federator is only logged. */
  predicate SignatureMatches(message: UpdateMessage, offer: Offer) {
    Checksummed(Recover(message, offer.signature)) == offer.address
  }

  function Append(s: Signed, signature: UpdateSignature, address: AddressText): Signed {
    Signed(s.signatures + [signature], s.signers + [address])
  }

  /** One offered signature. */
  function Take(s: Signed, message: UpdateMessage, offer: Offer, numRequired: nat): (r: Signed) {
    if AlreadySigned(s.signers, offer.address) || |s.signatures| >= numRequired || !SignatureMatches(message, offer)
    then s else Append(s, offer.signature, offer.address)
  }

  function TakeAll(s: Signed, message: UpdateMessage, offers: seq<Offer>, numRequired: nat): (r: Signed) {
    if |offers| == 0 then s
    else Take(TakeAll(s, message, offers[..|offers| - 1], numRequired), message, offers[|offers| - 1], numRequired)
  }

  /** One signature short, this node adds its own, if validation lets it (None is a thrown error). */
  function AddOwn(s: Signed, message: UpdateMessage, self: Address, maySign: bool, numRequired: nat): (r: Option<Signed>) {
    if |s.signers| != numRequired - 1 then Some(s)
    else if !maySign then None
    else Some(Append(s, Signature(self, message), Checksummed(self)))
  }

  method AddRskSignatures(batch: Signed, alreadyMarked: bool, message: UpdateMessage, offers: seq<Offer>,
                          self: Address, maySign: bool, numRequired: nat) returns (r: Option<Signed>)
    ensures r == if |offers| == 0 || alreadyMarked then Some(batch)
                 else AddOwn(TakeAll(batch, message, offers, numRequired), message, self, maySign, numRequired)
  {
    if |offers| == 0 { return Some(batch); }
    if alreadyMarked { return Some(batch); }
    var signatures, signers := batch.signatures, batch.signers;
    var i := 0;
    while i < |offers|
      invariant 0 <= i <= |offers|
      invariant Signed(signatures, signers) == TakeAll(batch, message, offers[..i], numRequired)
    {
      var offer := offers[i];
      assert offers[..i + 1][..i] == offers[..i];
      i := i + 1;
      if AlreadySigned(signers, offer.address) { continue; }
      if |signatures| >= numRequired { continue; }
      if Checksummed(Recover(message, offer.signature)) != offer.address { continue; }
      signatures := signatures + [offer.signature];
      signers := signers + [offer.address];
    }
    assert offers[..i] == offers;
    if |signers| == numRequired - 1 {
      if !maySign { return None; }
      signatures := signatures + [Signature(self, message)];
      signers := signers + [Checksummed(self)];
    }
    return Some(Signed(signatures, signers));
  }

  // ---- What is kept ----

  /** Aligned, distinct ignoring letter case, each signature by its signer. */
  predicate Sound(s: Signed, message: UpdateMessage) {
    && |s.signatures| == |s.signers|
    && (forall i, j :: 0 <= i < j < |s.signers| ==> ToLowerCase(s.signers[i]) != ToLowerCase(s.signers[j]))
    && forall i :: 0 <= i < |s.signers| ==> s.signers[i] == Checksummed(Recover(message, s.signatures[i]))
  }

  lemma AppendSound(s: Signed, message: UpdateMessage, signature: UpdateSignature, address: AddressText)
    requires Sound(s, message) && Checksummed(Recover(message, signature)) == address
    ensures Sound(Append(s, signature, address), message) <==> !AlreadySigned(s.signers, address)
  {
    var t := Append(s, signature, address);
    if AlreadySigned(s.signers, address) {
      var i :| 0 <= i < |s.signers| && ToLowerCase(s.signers[i]) == ToLowerCase(address);
      assert ToLowerCase(t.signers[i]) == ToLowerCase(t.signers[|s.signers|]);
    } else {
      forall i, j | 0 <= i < j < |t.signers| ensures ToLowerCase(t.signers[i]) != ToLowerCase(t.signers[j]) {
        assert i < |s.signers|;
      }
    }
  }

  lemma {:induction false} TakeAllSound(s: Signed, message: UpdateMessage, offers: seq<Offer>, numRequired: nat)
    requires Sound(s, message)
    ensures var r := TakeAll(s, message, offers, numRequired);
      && Sound(r, message)
      && s.signers <= r.signers && s.signatures <= r.signatures
      && (|s.signers| <= numRequired ==> |r.signers| <= numRequired)
      && forall i :: |s.signers| <= i < |r.signers| ==> exists o :: o in offers && o.address == r.signers[i]
  {
    if |offers| > 0 {
      var init, last := offers[..|offers| - 1], offers[|offers| - 1];
      TakeAllSound(s, message, init, numRequired);
      var before := TakeAll(s, message, init, numRequired);
      assert forall o :: o in init ==> o in offers;
      assert last in offers;
      if !AlreadySigned(before.signers, last.address) && SignatureMatches(message, last) {
        AppendSound(before, message, last.signature, last.address);
      }
    }
  }

  lemma OwnOnGathered(s: Signed, message: UpdateMessage, offers: seq<Offer>, self: Address, numRequired: nat)
    requires Sound(s, message) && |s.signers| <= numRequired
    ensures var gathered := TakeAll(s, message, offers, numRequired);
      var r := AddOwn(gathered, message, self, true, numRequired);
      && r.Some?
      && |r.value.signers| <= numRequired && s.signers <= r.value.signers
      && (|gathered.signers| >= numRequired - 1 ==> |r.value.signers| == numRequired)
      && (Sound(r.value, message) <==>
            !(|gathered.signers| == numRequired - 1 && AlreadySigned(gathered.signers, Checksummed(self))))
  {
    TakeAllSound(s, message, offers, numRequired);
    var gathered := TakeAll(s, message, offers, numRequired);
    if |gathered.signers| == numRequired - 1 {
      AppendSound(gathered, message, Signature(self, message), Checksummed(self));
    }
  }

  // ---- The same in terms of the call's inputs ----

  function Accounts(signers: seq<AddressText>): (r: set<Address>) {
    set a | a in signers :: a.account
  }

  /** The accounts behind the signatures a call is given: those in the batch and those of the offers that match. */
  function Signatories(s: Signed, message: UpdateMessage, offers: seq<Offer>): (r: set<Address>) {
    Accounts(s.signers) + set o | o in offers && SignatureMatches(message, o) :: o.address.account
  }

  lemma {:induction false} SoundCount(signers: seq<AddressText>)
    requires forall i, j :: 0 <= i < j < |signers| ==> ToLowerCase(signers[i]) != ToLowerCase(signers[j])
    ensures |Accounts(signers)| == |signers|
  {
    if |signers| == 0 {
      assert Accounts(signers) == {};
    } else {
      var init, last := signers[..|signers| - 1], signers[|signers| - 1];
      SoundCount(init);
      assert signers == init + [last];
      assert Accounts(signers) == Accounts(init) + {last.account};
    }
  }

  lemma AccountsAppend(signers: seq<AddressText>, a: AddressText)
    ensures Accounts(signers + [a]) == Accounts(signers) + {a.account}
    ensures a.account in Accounts(signers) <==> AlreadySigned(signers, a)
  {
    if a.account in Accounts(signers) {
      var b :| b in signers && b.account == a.account;
      var i :| 0 <= i < |signers| && signers[i] == b;
    }
  }

  lemma SignatoriesNext(s: Signed, message: UpdateMessage, offers: seq<Offer>, offer: Offer)
    ensures Signatories(s, message, offers + [offer])
         == Signatories(s, message, offers) + (if SignatureMatches(message, offer) then {offer.address.account} else {})
  {
  }

  /** What is gathered is from the signatories, and from all of them as long as the list is not full. */
  lemma {:induction false} TakeAllSignatories(s: Signed, message: UpdateMessage, offers: seq<Offer>, numRequired: nat)
    requires |s.signatures| == |s.signers|
    ensures var r := TakeAll(s, message, offers, numRequired);
      && |r.signatures| == |r.signers|
      && Accounts(r.signers) <= Signatories(s, message, offers)
      && (|r.signers| < numRequired ==> Accounts(r.signers) == Signatories(s, message, offers))
  {
    if |offers| > 0 {
      var init, last := offers[..|offers| - 1], offers[|offers| - 1];
      assert offers == init + [last];
      TakeAllSignatories(s, message, init, numRequired);
      SignatoriesNext(s, message, init, last);
      AccountsAppend(TakeAll(s, message, init, numRequired).signers, last.address);
      hide Accounts, Signatories, AlreadySigned, SignatureMatches;
    }
  }

  /** From a sound batch the result is never longer than required.  It is sound unless the signatories are
      one short of the number required and this node is one of them: exactly then it signs twice. */
  lemma OwnSignatureOnce(s: Signed, message: UpdateMessage, offers: seq<Offer>, self: Address, numRequired: nat)
    requires Sound(s, message) && |s.signers| <= numRequired
    ensures var signatories := Signatories(s, message, offers);
      var r := AddOwn(TakeAll(s, message, offers, numRequired), message, self, true, numRequired);
      && r.Some?
      && |r.value.signers| <= numRequired && s.signers <= r.value.signers
      && (Sound(r.value, message) <==> !(|signatories| == numRequired - 1 && self in signatories))
      && (|r.value.signers| == numRequired <==> |signatories| >= numRequired - 1)
  {
    OwnOnGathered(s, message, offers, self, numRequired);
    TakeAllSound(s, message, offers, numRequired);
    TakeAllSignatories(s, message, offers, numRequired);
    var gathered := TakeAll(s, message, offers, numRequired);
    SoundCount(gathered.signers);
    SubsetCardinality(Accounts(gathered.signers), Signatories(s, message, offers));
    AccountsAppend(gathered.signers, Checksummed(self));
  }

  /** A node that is neither in the batch nor among the senders of the responses keeps it sound. */
  lemma FreshNodeKeepsSound(s: Signed, message: UpdateMessage, offers: seq<Offer>, self: Address, numRequired: nat)
    requires Sound(s, message) && |s.signers| <= numRequired
    requires !AlreadySigned(s.signers, Checksummed(self))
    requires forall o :: o in offers ==> ToLowerCase(o.address) != self
    ensures Sound(AddOwn(TakeAll(s, message, offers, numRequired), message, self, true, numRequired).value, message)
  {
    TakeAllSound(s, message, offers, numRequired);
    OwnOnGathered(s, message, offers, self, numRequired);
    var gathered := TakeAll(s, message, offers, numRequired);
    forall i | 0 <= i < |gathered.signers| ensures ToLowerCase(gathered.signers[i]) != self {
      if i < |s.signers| {
        assert gathered.signers[i] == s.signers[i];
      } else {
        var o :| o in offers && o.address == gathered.signers[i];
      }
    }
  }

  /** The precondition is needed: a response with this node's own signature leads to a duplicate. */
  lemma OwnSignatureTwice(message: UpdateMessage)
    ensures var offer := Offer(Checksummed(7), Signature(7, message));
      var r := AddOwn(TakeAll(Signed([], []), message, [offer], 2), message, 7, true, 2).value;
      r.signers == [Checksummed(7), Checksummed(7)] && !Sound(r, message)
  {
    var empty, offer := Signed([], []), Offer(Checksummed(7), Signature(7, message));
    assert TakeAll(empty, message, [offer][..0], 2) == empty;
    var gathered := Append(empty, offer.signature, offer.address);
    assert TakeAll(empty, message, [offer], 2) == Take(empty, message, offer, 2) == gathered;
    var r := AddOwn(gathered, message, 7, true, 2).value;
    assert ToLowerCase(r.signers[0]) == ToLowerCase(r.signers[1]);
  }

  /** The contract accepts a complete, sound list exactly when all its signers are federators. */
  lemma CompleteBatchAccepted(s: Signed, message: UpdateMessage, federators: set<Address>)
    requires Sound(s, message) && |s.signers| >= NumRequiredFederators(|federators|)
    requires ZERO_ADDRESS !in federators
    ensures IsQuorum(federators, Recovered(message, s.signatures)) <==> forall a :: a in s.signers ==> a.account in federators
  {
    var recovered := Recovered(message, s.signatures);
    assert forall i :: 0 <= i < |s.signers| ==> s.signers[i] in s.signers && recovered[i] in recovered && recovered[i] == s.signers[i].account;
    if forall a :: a in s.signers ==> a.account in federators {
      ValidSignaturesAreQuorum(federators, message, s.signatures, s.signers);
    } else {
      var a :| a in s.signers && a.account !in federators;
      var i :| 0 <= i < |s.signers| && s.signers[i] == a;
      assert recovered[i] == a.account;
    }
  }

  /** A signature by somebody who is not a federator is kept, and takes up a place: with two required
      signatures and federators 5 and 7, offers by 9 and 5 make a sound and complete list that the contract refuses. */
  lemma OutsiderTaken(message: UpdateMessage)
    ensures var offers := [Offer(Checksummed(9), Signature(9, message)), Offer(Checksummed(5), Signature(5, message))];
      var gathered := TakeAll(Signed([], []), message, offers, 2);
      && AddOwn(gathered, message, 7, true, 2) == Some(gathered)
      && gathered.signers == [Checksummed(9), Checksummed(5)] && Sound(gathered, message)
      && NumRequiredFederators(|{5, 7}|) == 2
      && !IsQuorum({5, 7}, Recovered(message, gathered.signatures))
  {
    var empty, nine, five := Signed([], []), Offer(Checksummed(9), Signature(9, message)), Offer(Checksummed(5), Signature(5, message));
    assert [nine, five][..1] == [nine] && [nine][..0] == [];
    var first := Append(empty, nine.signature, nine.address);
    assert TakeAll(empty, message, [nine], 2) == Take(empty, message, nine, 2) == first;
    var gathered := Append(first, five.signature, five.address);
    assert TakeAll(empty, message, [nine, five], 2) == Take(first, message, five, 2) == gathered;
    AppendSound(empty, message, nine.signature, nine.address);
    AppendSound(first, message, five.signature, five.address);
    assert Recovered(message, gathered.signatures)[0] == 9;
    assert 9 in Recovered(message, gathered.signatures);
  }
}
