/** How many Bitcoin signatures one call of addBitcoinSignatures gains (core/transfers.ts). */
module SignatureProgress {
  import opened Base
  import opened Payout
  import opened BitcoinSignatures

  /** The first of the transactions is kept if its key is new. */
  lemma KeepNext(seen: set<PublicKey>, psbts: seq<Psbt>, key: PublicKey, missing: int)
    requires |psbts| > 0 && psbts[0].signedPublicKeys == [key]
    ensures key in seen ==> KeepFresh(seen, psbts, missing) == KeepFresh(seen, psbts[1..], missing)
    ensures key !in seen && |seen| + 1 == missing ==> KeepFresh(seen, psbts, missing) == [psbts[0]]
    ensures key !in seen && |seen| + 1 != missing ==>
      |KeepFresh(seen, psbts, missing)| == 1 + |KeepFresh(seen + {key}, psbts[1..], missing)|
  {
    assert Elements(psbts[0].signedPublicKeys) == {key};
    if key in seen {
      assert key in seen * {key};
    } else {
      assert seen * {key} == {} && |seen + {key}| == |seen| + 1;
    }
  }

  lemma UnseenNext(seen: set<PublicKey>, key: PublicKey, rest: set<PublicKey>, all: set<PublicKey>)
    requires all == {key} + rest
    ensures key in seen ==> all - seen == rest - seen
    ensures key !in seen ==> |rest - (seen + {key})| == |all - seen| - 1 && |seen + {key}| == |seen| + 1
  {
    if key !in seen {
      var unseen := all - seen;
      assert key in unseen;
      assert rest - (seen + {key}) == unseen - {key};
    }
  }

  lemma KeysNext(psbts: seq<Psbt>, required: nat)
    requires Singles(psbts, required) && |psbts| > 0
    ensures Singles(psbts[1..], required) && psbts[0].signedPublicKeys == [FirstKeys(psbts)[0]]
    ensures Elements(FirstKeys(psbts)) == {FirstKeys(psbts)[0]} + Elements(FirstKeys(psbts[1..]))
  {
    SinglesHead(psbts, required);
    assert FirstKeys(psbts) == [FirstKeys(psbts)[0]] + FirstKeys(psbts[1..]);
  }

  /** The selection stops when the keys seen, those that were there before included, are as many as are missing. */
  lemma {:induction false} KeptCount(seen: set<PublicKey>, psbts: seq<Psbt>, missing: int, required: nat)
    requires Singles(psbts, required)
    ensures var unseen := Elements(FirstKeys(psbts)) - seen;
      |KeepFresh(seen, psbts, missing)| == if |seen| < missing then Least(|unseen|, missing - |seen|) else |unseen|
    decreases |psbts|
  {
    hide KeepFresh, Elements, FirstKeys, Singles;
    if |psbts| == 0 {
      NothingKept(seen, missing);
    } else {
      KeysNext(psbts, required);
      var key := FirstKeys(psbts)[0];
      KeepNext(seen, psbts, key, missing);
      UnseenNext(seen, key, Elements(FirstKeys(psbts[1..])), Elements(FirstKeys(psbts)));
      if key in seen {
        KeptCount(seen, psbts[1..], missing, required);
      } else {
        KeptCount(seen + {key}, psbts[1..], missing, required);
      }
    }
  }

  lemma NothingKept(seen: set<PublicKey>, missing: int)
    ensures KeepFresh(seen, [], missing) == [] && Elements(FirstKeys([])) - seen == {}
  {
  }

  /** The signers that a call brings in: of the responses, and this node. */
  function Signers(responses: seq<Psbt>, self: PublicKey): (keys: set<PublicKey>) {
    {self} + set p, k | p in responses && k in p.signedPublicKeys :: k
  }

  lemma OfferedKeys(psbts: seq<Psbt>, required: nat)
    requires Singles(NonEmpty(psbts), required)
    ensures Elements(FirstKeys(NonEmpty(psbts))) == set p, k | p in psbts && k in p.signedPublicKeys :: k
  {
    hide NonEmpty;
    var some := NonEmpty(psbts);
    var keys := FirstKeys(some);
    var brought := set p, k | p in psbts && k in p.signedPublicKeys :: k;
    forall k | k in brought ensures k in Elements(keys) {
      var p :| p in psbts && k in p.signedPublicKeys;
      assert p in some;
      var i :| 0 <= i < |some| && some[i] == p;
      assert keys[i] == k;
    }
    forall k | k in Elements(keys) ensures k in brought {
      var i :| 0 <= i < |some| && keys[i] == k;
      assert some[i] in some && some[i] in psbts && k in some[i].signedPublicKeys;
    }
  }

  lemma OffersBring(initial: Psbt, signed: Option<Psbt>, responses: seq<Psbt>, self: PublicKey)
    requires initial.signedPublicKeys == [] && AtMostSingles(responses, initial.requiredSignatures)
    ensures var had := Elements(Current(initial, signed).signedPublicKeys);
      var offers := Offers(initial, signed, responses, self);
      && offers.Some? && Singles(NonEmpty(offers.value), initial.requiredSignatures)
      && Elements(FirstKeys(NonEmpty(offers.value))) - had == Signers(responses, self) - had
  {
    OffersAreSingles(initial, signed, responses, self);
    var offers := Offers(initial, signed, responses, self).value;
    OfferedKeys(offers, initial.requiredSignatures);
    var own := SignWith(initial, self).value;
    var brought := set p, k | p in offers && k in p.signedPublicKeys :: k;
    var had := Elements(Current(initial, signed).signedPublicKeys);
    if self !in Current(initial, signed).signedPublicKeys {
      assert offers == responses + [own] && self in own.signedPublicKeys;
    } else {
      assert offers == responses && self in had;
    }
    forall k | k !in had ensures k in brought <==> k in Signers(responses, self) {
      if k in brought {
        var p :| p in offers && k in p.signedPublicKeys;
        assert p == own ==> k == self;
      }
    }
  }

  /** How many signatures a call gains when all responses are single keys on the right transaction: as long as less than half of
      the number required are there, no more than required less twice those; otherwise as many as are missing, if so many
      signers are new. */
  lemma SignaturesGained(initial: Psbt, signed: Option<Psbt>, responses: seq<Psbt>, self: PublicKey)
    requires initial.signedPublicKeys == []
    requires var current := Current(initial, signed);
      && NoDuplicates(current.signedPublicKeys)
      && |current.signedPublicKeys| <= current.requiredSignatures
      && current.tx == initial.tx && current.requiredSignatures == initial.requiredSignatures
      && AtMostSingles(responses, current.requiredSignatures) && AllOn(responses, initial.tx)
    ensures var had, required := Current(initial, signed).signedPublicKeys, initial.requiredSignatures;
      var unseen := |Signers(responses, self) - Elements(had)|;
      var r := Gathered(initial, signed, responses, self);
      && r.Stored?
      && |Current(initial, r.signed).signedPublicKeys| - |had|
         == if required > 2 * |had| then Least(unseen, required - 2 * |had|) else Least(unseen, required - |had|)
  {
    hide CombineFrom, KeepFresh, NoDuplicates, Singles, AtMostSingles, AllOn, Signers, FirstKeys, NonEmpty;
    var current := Current(initial, signed);
    var had := current.signedPublicKeys;
    if !EnoughSignatures(signed) {
      KeptNumber(initial, signed, responses, self);
      KeptOn(initial, signed, responses, self);
      CombineSingles(current, Kept(initial, signed, responses, self));
    }
  }

  lemma KeptNumber(initial: Psbt, signed: Option<Psbt>, responses: seq<Psbt>, self: PublicKey)
    requires initial.signedPublicKeys == [] && AtMostSingles(responses, initial.requiredSignatures) && !EnoughSignatures(signed)
    requires NoDuplicates(Current(initial, signed).signedPublicKeys)
    ensures var current := Current(initial, signed);
      var seen, missing := |current.signedPublicKeys|, current.requiredSignatures - |current.signedPublicKeys|;
      var unseen := |Signers(responses, self) - Elements(current.signedPublicKeys)|;
      |Kept(initial, signed, responses, self)| == if seen < missing then Least(unseen, missing - seen) else unseen
  {
    hide KeepFresh, Singles, AtMostSingles, Signers, FirstKeys, NonEmpty, Offers, Elements, NoDuplicates;
    var current := Current(initial, signed);
    var missing := current.requiredSignatures - |current.signedPublicKeys|;
    OffersBring(initial, signed, responses, self);
    var offers := Offers(initial, signed, responses, self).value;
    EmptySkipped(Elements(current.signedPublicKeys), offers, missing);
    KeptCount(Elements(current.signedPublicKeys), NonEmpty(offers), missing, initial.requiredSignatures);
    DistinctCount(current.signedPublicKeys);
  }

  lemma KeptOn(initial: Psbt, signed: Option<Psbt>, responses: seq<Psbt>, self: PublicKey)
    requires initial.signedPublicKeys == [] && AtMostSingles(responses, initial.requiredSignatures) && !EnoughSignatures(signed)
    requires AllOn(responses, initial.tx)
    ensures var kept := Kept(initial, signed, responses, self);
      Offers(initial, signed, responses, self).Some? && Singles(kept, initial.requiredSignatures)
      && forall i :: 0 <= i < |kept| ==> kept[i].tx == initial.tx
  {
    hide Singles, AtMostSingles, FirstKeys, Kept;
    KeptSingles(initial, signed, responses, self);
    var kept := Kept(initial, signed, responses, self);
    assert forall i :: 0 <= i < |kept| ==> kept[i] in kept;
  }
}
