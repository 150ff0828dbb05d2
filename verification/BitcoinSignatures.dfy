/** Gathering and combining signatures of a Bitcoin transaction (core/transfers.ts, btc/multisig.ts). */
module BitcoinSignatures {
  import opened Base
  import opened Bitcoin
  import opened Payout

  /** combine, from a partial result on: None is a thrown error, in particular the combiner's refusal
      to merge two different transactions (BIP 174, section 'Combiner'). */
  function CombineFrom(result: Psbt, rest: seq<Psbt>): (r: Option<Psbt>)
    decreases |rest|
  {
    if |rest| == 0 || |result.signedPublicKeys| == result.requiredSignatures then Some(result)
    else if |result.signedPublicKeys| > result.requiredSignatures then None  // too many signatures
    else if rest[0].tx != result.tx then None
    else CombineFrom(Psbt(result.tx, result.signedPublicKeys + rest[0].signedPublicKeys,
                          rest[0].requiredSignatures, rest[0].noChange), rest[1..])
  }

  method Combine(txs: seq<Psbt>) returns (r: Option<Psbt>)
    ensures r == if |txs| == 0 then None else CombineFrom(txs[0], txs[1..])
  {
    if |txs| == 0 { return None; }
    var result := txs[0];
    var i := 1;
    while i < |txs|
      invariant 1 <= i <= |txs|
      invariant CombineFrom(result, txs[i..]) == CombineFrom(txs[0], txs[1..])
    {
      if |result.signedPublicKeys| == result.requiredSignatures { return Some(result); }
      if |result.signedPublicKeys| > result.requiredSignatures { return None; }
      if txs[i].tx != result.tx { return None; }
      assert txs[i..][1..] == txs[i + 1..];
      result := Psbt(result.tx, result.signedPublicKeys + txs[i].signedPublicKeys, txs[i].requiredSignatures, txs[i].noChange);
      i := i + 1;
    }
    return Some(result);
  }

  /** signTransaction. */
  function SignWith(psbt: Psbt, key: PublicKey): (r: Option<Psbt>) {
    if key in psbt.signedPublicKeys then None
    else Some(psbt.(signedPublicKeys := psbt.signedPublicKeys + [key]))
  }

  /** Nobody signs twice: a signature is added at the end, once. */
  lemma SignsOnce(psbt: Psbt, key: PublicKey)
    ensures var r := SignWith(psbt, key);
      && (r.Some? <==> key !in psbt.signedPublicKeys)
      && (r.Some? ==> SignWith(r.value, key).None? && r.value.tx == psbt.tx
                      && |r.value.signedPublicKeys| == |psbt.signedPublicKeys| + 1
                      && (NoDuplicates(psbt.signedPublicKeys) ==> NoDuplicates(r.value.signedPublicKeys)))
  {
  }

  /** The offered transactions that are kept: non-empty, by keys not seen yet, until the number of
      seen keys equals the number required. */
  function KeepFresh(seen: set<PublicKey>, psbts: seq<Psbt>, numRequired: int): (kept: seq<Psbt>)
    decreases |psbts|
  {
    if |psbts| == 0 then []
    else
      var keys := Elements(psbts[0].signedPublicKeys);
      if keys == {} || seen * keys != {} then KeepFresh(seen, psbts[1..], numRequired)
      else if |seen + keys| == numRequired then [psbts[0]]
      else [psbts[0]] + KeepFresh(seen + keys, psbts[1..], numRequired)
  }

  datatype Added = Failed | Stored(signed: Option<Psbt>)

  function Current(initial: Psbt, signed: Option<Psbt>): Psbt {
    if signed.Some? then signed.value else initial
  }

  function EnoughSignatures(signed: Option<Psbt>): bool {
    signed.Some? && |signed.value.signedPublicKeys| >= signed.value.requiredSignatures
  }

  /** The responses, and this node's own signature if it has not signed yet. */
  function Offers(initial: Psbt, signed: Option<Psbt>, responses: seq<Psbt>, self: PublicKey): (r: Option<seq<Psbt>>) {
    if self in Current(initial, signed).signedPublicKeys then Some(responses)
    else
      var own := SignWith(initial, self);
      if own.None? then None else Some(responses + [own.value])
  }

  function Gathered(initial: Psbt, signed: Option<Psbt>, responses: seq<Psbt>, self: PublicKey): (r: Added) {
    if EnoughSignatures(signed) then Stored(signed)
    else
      var current := Current(initial, signed);
      var offers := Offers(initial, signed, responses, self);
      if offers.None? then Failed
      else
        var kept := KeepFresh(Elements(current.signedPublicKeys), offers.value,
                              current.requiredSignatures - |current.signedPublicKeys|);
        if |kept| == 0 then Stored(signed)
        else
          var combined := CombineFrom(current, kept);
          if combined.None? then Failed else Stored(combined)
  }

  /** The selection loop of addBitcoinSignatures. */
  method KeepValid(seen: set<PublicKey>, psbts: seq<Psbt>, numRequired: int) returns (validPsbts: seq<Psbt>)
    ensures validPsbts == KeepFresh(seen, psbts, numRequired)
  {
    var seenPublicKeys := seen;
    validPsbts := [];
    ghost var kept := KeepFresh(seen, psbts, numRequired);
    var i := 0;
    while i < |psbts|
      invariant 0 <= i <= |psbts|
      invariant validPsbts + KeepFresh(seenPublicKeys, psbts[i..], numRequired) == kept
    {
      var psbt := psbts[i];
      assert psbts[i..][1..] == psbts[i + 1..];
      i := i + 1;
      if |psbt.signedPublicKeys| == 0 {
        assert Elements(psbt.signedPublicKeys) == {};
        continue;
      }
      assert psbt.signedPublicKeys[0] in Elements(psbt.signedPublicKeys);
      if seenPublicKeys * Elements(psbt.signedPublicKeys) != {} { continue; }
      seenPublicKeys := seenPublicKeys + Elements(psbt.signedPublicKeys);
      validPsbts := validPsbts + [psbt];
      if |seenPublicKeys| == numRequired {
        return;
      }
    }
  }

  /** addBitcoinSignatures. */
  method AddBitcoinSignatures(initial: Psbt, signed: Option<Psbt>, responses: seq<Psbt>, self: PublicKey)
    returns (r: Added)
    ensures r == Gathered(initial, signed, responses, self)
  {
    hide KeepFresh, CombineFrom;
    if EnoughSignatures(signed) { return Stored(signed); }
    var psbts := responses;
    var current := if signed.Some? then signed.value else initial;
    var numRequired := current.requiredSignatures - |current.signedPublicKeys|;
    var seenPublicKeys := Elements(current.signedPublicKeys);
    if self !in seenPublicKeys {
      var thisNodePsbt := SignWith(initial, self);
      if thisNodePsbt.None? { return Failed; }
      psbts := psbts + [thisNodePsbt.value];
    }
    var validPsbts := KeepValid(seenPublicKeys, psbts, numRequired);
    if |validPsbts| > 0 {
      var combined := Combine([current] + validPsbts);
      assert ([current] + validPsbts)[1..] == validPsbts;
      if combined.None? { return Failed; }
      return Stored(combined);
    }
    return Stored(signed);
  }

  // ---- Single-key responses ----

  function FirstKeys(psbts: seq<Psbt>): (keys: seq<PublicKey>)
    requires forall p :: p in psbts ==> |p.signedPublicKeys| == 1
    ensures |keys| == |psbts|
    ensures forall i :: 0 <= i < |keys| ==> keys[i] == psbts[i].signedPublicKeys[0]
  {
    seq(|psbts|, i requires 0 <= i < |psbts| && (forall p :: p in psbts ==> |p.signedPublicKeys| == 1) =>
      psbts[i].signedPublicKeys[0])
  }

  /** Signatures of one key each, and the same number required. */
  predicate Singles(psbts: seq<Psbt>, required: nat) {
    forall p :: p in psbts ==> |p.signedPublicKeys| == 1 && p.requiredSignatures == required
  }

  lemma {:induction false} KeptAreFresh(seen: set<PublicKey>, psbts: seq<Psbt>, numRequired: int, required: nat)
    requires Singles(psbts, required)
    ensures var kept := KeepFresh(seen, psbts, numRequired);
      && Singles(kept, required)
      && NoDuplicates(FirstKeys(kept))
      && (forall k :: k in FirstKeys(kept) ==> k !in seen)
      && (forall p :: p in kept ==> p in psbts)
      && ((exists p :: p in psbts && p.signedPublicKeys[0] !in seen) ==> |kept| > 0)
    decreases |psbts|
  {
    if |psbts| > 0 {
      var p := psbts[0];
      assert p in psbts && psbts == [p] + psbts[1..];
      var key := p.signedPublicKeys[0];
      assert p.signedPublicKeys == [key];
      assert Elements(p.signedPublicKeys) == {key};
      KeptAreFresh(seen, psbts[1..], numRequired, required);
      KeptAreFresh(seen + {key}, psbts[1..], numRequired, required);
      var kept := KeepFresh(seen, psbts, numRequired);
      if seen * {key} != {} {
        assert key in seen;
        assert kept == KeepFresh(seen, psbts[1..], numRequired);
      } else {
        assert key in {key} && key !in seen;
        var rest := kept[1..];
        assert kept == [p] + rest;
        assert rest == [] || rest == KeepFresh(seen + {key}, psbts[1..], numRequired);
        assert FirstKeys(kept) == [key] + FirstKeys(rest);
      }
    }
  }

  function Least(a: int, b: int): int { if a < b then a else b }

  /** Single-key signatures are merged in order until the required number is reached.  Something is thrown exactly if one
      of those that would be merged is on another transaction. */
  lemma {:induction false} CombineSingles(result: Psbt, rest: seq<Psbt>)
    requires |result.signedPublicKeys| <= result.requiredSignatures
    requires Singles(rest, result.requiredSignatures)
    ensures var r := CombineFrom(result, rest);
      var m := Least(|rest|, result.requiredSignatures - |result.signedPublicKeys|);
      && (r.None? <==> exists i :: 0 <= i < m && rest[i].tx != result.tx)
      && (r.Some? ==>
            && r.value.tx == result.tx && r.value.requiredSignatures == result.requiredSignatures
            && r.value.signedPublicKeys == result.signedPublicKeys + FirstKeys(rest)[..m])
    decreases |rest|
  {
    var m := Least(|rest|, result.requiredSignatures - |result.signedPublicKeys|);
    if m == 0 {
      assert result.signedPublicKeys + FirstKeys(rest)[..0] == result.signedPublicKeys;
    } else if rest[0].tx == result.tx {
      SinglesHead(rest, result.requiredSignatures);
      var keys := FirstKeys(rest);
      var next := Psbt(result.tx, result.signedPublicKeys + [keys[0]], result.requiredSignatures, rest[0].noChange);
      CombineSingles(next, rest[1..]);
      MoveHead(result.signedPublicKeys, keys, m);
      assert forall i :: 0 <= i < m - 1 ==> rest[1..][i] == rest[i + 1];
      if i :| 0 <= i < m && rest[i].tx != result.tx {
        assert rest[1..][i - 1].tx != result.tx;
      }
    }
  }

  lemma SinglesHead(psbts: seq<Psbt>, required: nat)
    requires Singles(psbts, required) && |psbts| > 0
    ensures psbts[0].signedPublicKeys == [FirstKeys(psbts)[0]] && psbts[0].requiredSignatures == required
    ensures Singles(psbts[1..], required) && FirstKeys(psbts[1..]) == FirstKeys(psbts)[1..]
  {
    assert psbts[0] in psbts;
  }

  lemma MoveHead<T>(a: seq<T>, b: seq<T>, m: nat)
    requires 0 < m <= |b|
    ensures (a + [b[0]]) + b[1..][..m - 1] == a + b[..m]
  {
  }

  lemma AppendDistinct<T>(a: seq<T>, b: seq<T>, m: nat)
    requires NoDuplicates(a) && NoDuplicates(b) && m <= |b| && forall x :: x in b ==> x !in a
    ensures NoDuplicates(a + b[..m])
  {
    forall i, j | 0 <= i < j < |a + b[..m]| ensures (a + b[..m])[i] != (a + b[..m])[j] {
      if i < |a| <= j {
        assert b[..m][j - |a|] in b;
      }
    }
  }

  /** The transactions that carry a signature. */
  function NonEmpty(psbts: seq<Psbt>): (r: seq<Psbt>)
    ensures forall p :: p in r <==> p in psbts && p.signedPublicKeys != []
  {
    if |psbts| == 0 then []
    else
      var rest := NonEmpty(psbts[1..]);
      assert psbts == [psbts[0]] + psbts[1..];
      if psbts[0].signedPublicKeys == [] then rest else [psbts[0]] + rest
  }

  lemma {:induction false} EmptySkipped(seen: set<PublicKey>, psbts: seq<Psbt>, numRequired: int)
    ensures KeepFresh(seen, psbts, numRequired) == KeepFresh(seen, NonEmpty(psbts), numRequired)
    decreases |psbts|
  {
    if |psbts| > 0 {
      EmptySkipped(seen, psbts[1..], numRequired);
      EmptySkipped(seen + Elements(psbts[0].signedPublicKeys), psbts[1..], numRequired);
      if psbts[0].signedPublicKeys == [] {
        assert Elements(psbts[0].signedPublicKeys) == {};
      } else {
        assert NonEmpty(psbts)[1..] == NonEmpty(psbts[1..]);
      }
    }
  }

  /** Responses with at most one key each; those that have one agree on the number required. */
  predicate AtMostSingles(psbts: seq<Psbt>, required: nat) {
    forall p :: p in psbts && p.signedPublicKeys != [] ==> |p.signedPublicKeys| == 1 && p.requiredSignatures == required
  }

  predicate AllOn(psbts: seq<Psbt>, tx: UnsignedTx) {
    forall p :: p in psbts && p.signedPublicKeys != [] ==> p.tx == tx
  }

  /** The transactions that a call goes on to combine with the current one. */
  function Kept(initial: Psbt, signed: Option<Psbt>, responses: seq<Psbt>, self: PublicKey): (kept: seq<Psbt>) {
    var current := Current(initial, signed);
    var offers := Offers(initial, signed, responses, self);
    if EnoughSignatures(signed) || offers.None? then []
    else KeepFresh(Elements(current.signedPublicKeys), offers.value, current.requiredSignatures - |current.signedPublicKeys|)
  }

  lemma OffersAreSingles(initial: Psbt, signed: Option<Psbt>, responses: seq<Psbt>, self: PublicKey)
    requires initial.signedPublicKeys == []
    requires AtMostSingles(responses, initial.requiredSignatures)
    ensures var offers := Offers(initial, signed, responses, self);
      var own := SignWith(initial, self).value;
      && offers.Some? && own.signedPublicKeys == [self] && own.tx == initial.tx
      && Singles(NonEmpty(offers.value), initial.requiredSignatures)
      && (forall p :: p in responses ==> p in offers.value)
      && (self !in Current(initial, signed).signedPublicKeys ==> own in offers.value)
  {
    assert SignWith(initial, self).value.signedPublicKeys == [self];
  }

  /** The kept transactions are single keys that are not there yet, each from a response or this node's own. */
  lemma KeptSingles(initial: Psbt, signed: Option<Psbt>, responses: seq<Psbt>, self: PublicKey)
    requires initial.signedPublicKeys == [] && AtMostSingles(responses, initial.requiredSignatures)
    requires !EnoughSignatures(signed)
    ensures var had := Current(initial, signed).signedPublicKeys;
      var kept := Kept(initial, signed, responses, self);
      var own := SignWith(initial, self).value;
      && Offers(initial, signed, responses, self).Some? && own.signedPublicKeys == [self] && own.tx == initial.tx
      && Singles(kept, initial.requiredSignatures) && NoDuplicates(FirstKeys(kept))
      && (forall k :: k in FirstKeys(kept) ==> k !in had)
      && (forall p :: p in kept ==> p == own || (p in responses && p.signedPublicKeys != []))
      && (self !in had || (exists p :: p in responses && p.signedPublicKeys != [] && p.signedPublicKeys[0] !in had) ==> |kept| > 0)
  {
    hide KeepFresh, NoDuplicates;
    var current := Current(initial, signed);
    var offers := Offers(initial, signed, responses, self).value;
    var own := SignWith(initial, self).value;
    OffersAreSingles(initial, signed, responses, self);
    var numRequired := current.requiredSignatures - |current.signedPublicKeys|;
    var seen := Elements(current.signedPublicKeys);
    EmptySkipped(seen, offers, numRequired);
    KeptAreFresh(seen, NonEmpty(offers), numRequired, initial.requiredSignatures);
    if self !in current.signedPublicKeys {
      assert own in NonEmpty(offers);
    }
  }

  /** With responses of at most one key and the same number required, on any transactions: a call fails exactly if one of
      the first kept, as many as signatures are missing, is on another transaction, and never if all
      responses are on the right one.  Otherwise the signers stay distinct and at most as many as required,
      none is lost, and the number missing is lowered whenever this node or any response has a key that is
      not there yet. */
  lemma SignaturesAccumulate(initial: Psbt, signed: Option<Psbt>, responses: seq<Psbt>, self: PublicKey)
    requires initial.signedPublicKeys == []
    requires var current := Current(initial, signed);
      && NoDuplicates(current.signedPublicKeys)
      && |current.signedPublicKeys| <= current.requiredSignatures
      && current.tx == initial.tx && current.requiredSignatures == initial.requiredSignatures
      && AtMostSingles(responses, current.requiredSignatures)
    ensures var had := Current(initial, signed).signedPublicKeys;
      var kept := Kept(initial, signed, responses, self);
      var r := Gathered(initial, signed, responses, self);
      && (r.Failed? <==> exists i :: 0 <= i < Least(|kept|, initial.requiredSignatures - |had|) && kept[i].tx != initial.tx)
      && (AllOn(responses, initial.tx) ==> r.Stored?)
      && (r.Stored? ==>
            var now := Current(initial, r.signed);
            && now.tx == initial.tx && now.requiredSignatures == initial.requiredSignatures
            && NoDuplicates(now.signedPublicKeys)
            && had <= now.signedPublicKeys && |now.signedPublicKeys| <= initial.requiredSignatures
            && (forall k :: k in now.signedPublicKeys && k !in had ==>
                  k == self || exists p :: p in responses && k in p.signedPublicKeys)
            && (|had| < initial.requiredSignatures
                && (self !in had || exists p :: p in responses && p.signedPublicKeys != [] && p.signedPublicKeys[0] !in had)
                ==> |now.signedPublicKeys| > |had|))
  {
    hide CombineFrom, KeepFresh, NoDuplicates;
    var current := Current(initial, signed);
    if !EnoughSignatures(signed) {
      var kept := Kept(initial, signed, responses, self);
      KeptSingles(initial, signed, responses, self);
      CombineSingles(current, kept);
      assert AllOn(responses, initial.tx) ==> forall i :: 0 <= i < |kept| ==> kept[i] in kept && kept[i].tx == initial.tx;
      if |kept| > 0 && CombineFrom(current, kept).Some? {
        KeptAccumulate(current, kept);
        var now := CombineFrom(current, kept).value.signedPublicKeys;
        forall k | k in now && k !in current.signedPublicKeys
          ensures k == self || exists p :: p in responses && k in p.signedPublicKeys
        {
          var p :| p in kept && k in p.signedPublicKeys;
        }
      }
    }
  }

  // ---- Any responses ----

  function TotalKeys(psbts: seq<Psbt>): (n: nat) {
    if |psbts| == 0 then 0 else |psbts[0].signedPublicKeys| + TotalKeys(psbts[1..])
  }

  /** Keys listed, and number required, after the first `m` have been merged. */
  function KeysAfter(result: Psbt, rest: seq<Psbt>, m: nat): (n: nat)
    requires m <= |rest|
  {
    |result.signedPublicKeys| + TotalKeys(rest[..m])
  }

  function RequiredAfter(result: Psbt, rest: seq<Psbt>, m: nat): (n: nat)
    requires m <= |rest|
  {
    if m == 0 then result.requiredSignatures else rest[m - 1].requiredSignatures
  }

  /** Number `i` of the rest is merged as well: signatures are missing, and it is on the same transaction. */
  predicate Merges(result: Psbt, rest: seq<Psbt>, i: nat)
    requires i < |rest|
  {
    KeysAfter(result, rest, i) < RequiredAfter(result, rest, i) && rest[i].tx == result.tx
  }

  /** Exactly the first `m` are merged. */
  predicate StopsAt(result: Psbt, rest: seq<Psbt>, m: nat)
    requires m <= |rest|
  {
    (forall i :: 0 <= i < m ==> Merges(result, rest, i)) && (m < |rest| ==> !Merges(result, rest, m))
  }

  lemma MergeLater(result: Psbt, rest: seq<Psbt>, next: Psbt, m: nat)
    requires |rest| > 0 && m < |rest|
    requires next == Psbt(result.tx, result.signedPublicKeys + rest[0].signedPublicKeys, rest[0].requiredSignatures, rest[0].noChange)
    ensures KeysAfter(result, rest, m + 1) == KeysAfter(next, rest[1..], m)
    ensures RequiredAfter(result, rest, m + 1) == RequiredAfter(next, rest[1..], m)
    ensures m + 1 < |rest| ==> (Merges(result, rest, m + 1) <==> Merges(next, rest[1..], m))
  {
    assert rest[..m + 1][1..] == rest[1..][..m];
    assert rest[..m + 1][0] == rest[0];
  }

  /** combine on anything: it merges the first transactions while signatures are missing and the transaction is the
      same, where the number required is that of the last one merged.  It throws exactly if it has to stop
      without having hit that number. */
  lemma {:induction false} CombineExactly(result: Psbt, rest: seq<Psbt>) returns (m: nat)
    ensures m <= |rest| && StopsAt(result, rest, m)
    ensures var r := CombineFrom(result, rest);
      && (r.None? <==> m < |rest| && KeysAfter(result, rest, m) != RequiredAfter(result, rest, m))
      && (r.Some? ==> r.value.tx == result.tx && |r.value.signedPublicKeys| == KeysAfter(result, rest, m)
                      && r.value.requiredSignatures == RequiredAfter(result, rest, m))
    decreases |rest|
  {
    assert rest[..0] == [];
    if |rest| == 0 || !Merges(result, rest, 0) {
      m := 0;
    } else {
      var next := Psbt(result.tx, result.signedPublicKeys + rest[0].signedPublicKeys, rest[0].requiredSignatures, rest[0].noChange);
      var n := CombineExactly(next, rest[1..]);
      m := n + 1;
      forall i | 0 <= i < |rest|
        ensures KeysAfter(result, rest, i + 1) == KeysAfter(next, rest[1..], i)
        ensures RequiredAfter(result, rest, i + 1) == RequiredAfter(next, rest[1..], i)
        ensures i + 1 < |rest| ==> (Merges(result, rest, i + 1) <==> Merges(next, rest[1..], i))
      {
        MergeLater(result, rest, next, i);
      }
      hide KeysAfter, RequiredAfter, Merges;
      forall i | 0 <= i < m ensures Merges(result, rest, i) {
        if i > 0 {
          assert Merges(next, rest[1..], i - 1);
        }
      }
    }
  }

  lemma StopsOnce(result: Psbt, rest: seq<Psbt>, m: nat, n: nat)
    requires m <= |rest| && n <= |rest| && StopsAt(result, rest, m) && StopsAt(result, rest, n)
    ensures m == n
  {
    hide Merges;
  }

  /** Combining anything succeeds within `bound` keys exactly if the merging stops there, with nothing left or with the
      number hit. */
  lemma CombineWithinExactly(result: Psbt, rest: seq<Psbt>, bound: nat)
    ensures var r := CombineFrom(result, rest);
      r.Some? && |r.value.signedPublicKeys| <= bound <==>
        exists m :: 0 <= m <= |rest| && StopsAt(result, rest, m) && KeysAfter(result, rest, m) <= bound
                    && (m == |rest| || KeysAfter(result, rest, m) == RequiredAfter(result, rest, m))
  {
    var m := CombineExactly(result, rest);
    hide StopsAt, KeysAfter, RequiredAfter, CombineFrom;
    forall n | 0 <= n <= |rest| && StopsAt(result, rest, n) ensures n == m {
      StopsOnce(result, rest, m, n);
    }
  }

  /** The number required is taken from the response.  A single key with a lower number makes the call fail, or makes the
      batch count as complete with one signature, so that later responses are ignored. */
  lemma LowerRequired(tx: UnsignedTx, later: seq<Psbt>)
    ensures Gathered(Psbt(tx, [], 2, false), None, [Psbt(tx, [4], 0, false)], 1) == Failed
    ensures Gathered(Psbt(tx, [], 2, false), None, [Psbt(tx, [4], 1, false)], 1) == Stored(Some(Psbt(tx, [4], 1, false)))
    ensures Gathered(Psbt(tx, [], 2, false), Some(Psbt(tx, [4], 1, false)), later, 1) == Stored(Some(Psbt(tx, [4], 1, false)))
  {
    var initial, none, one, own := Psbt(tx, [], 2, false), Psbt(tx, [4], 0, false), Psbt(tx, [4], 1, false), Psbt(tx, [1], 2, false);
    assert [] + [1] == [1] && [] + [4] == [4];
    assert SignWith(initial, 1) == Some(own) && Elements(initial.signedPublicKeys) == {};
    BothKept(none, own);
    BothKept(one, own);
    hide KeepFresh;
    assert [none] + [own] == [none, own] && [one] + [own] == [one, own];
    assert [none, own][1..] == [own] && [one, own][1..] == [own];
    assert CombineFrom(none, [own]) == None && CombineFrom(one, [own]) == Some(one);
  }

  lemma BothKept(response: Psbt, own: Psbt)
    requires response.signedPublicKeys == [4] && own.signedPublicKeys == [1]
    ensures KeepFresh({}, [response, own], 2) == [response, own]
  {
    assert Elements(response.signedPublicKeys) == {4} && Elements(own.signedPublicKeys) == {1};
    assert [response, own][1..] == [own] && [own][1..] == [];
    assert {} + {4} == {4} && {4} * {1} == {};
    assert KeepFresh({4}, [own], 2) == [own];
  }

  /** Responses with more keys break this: one that brings two keys where one is missing leaves more signers
      than required, and a further response then makes the call fail. */
  lemma TwoKeysTooMany(tx: UnsignedTx)
    ensures var initial, one, two, three := Psbt(tx, [], 2, false), Psbt(tx, [1], 2, false), Psbt(tx, [2, 3], 2, false), Psbt(tx, [4], 2, false);
      && Gathered(initial, Some(one), [two], 1) == Stored(Some(Psbt(tx, [1, 2, 3], 2, false)))
      && Gathered(initial, Some(one), [two, three], 1) == Failed
  {
    hide KeepFresh;
    var one, two, three := Psbt(tx, [1], 2, false), Psbt(tx, [2, 3], 2, false), Psbt(tx, [4], 2, false);
    TwoThenOne(two, three);
    assert Elements(one.signedPublicKeys) == {1};
    assert [two, three][1..] == [three] && [two][1..] == [];
    var merged := Psbt(tx, [1, 2, 3], 2, false);
    assert one.signedPublicKeys + two.signedPublicKeys == merged.signedPublicKeys;
    assert CombineFrom(merged, []) == Some(merged) && CombineFrom(merged, [three]) == None;
    assert CombineFrom(one, [two]) == Some(merged) && CombineFrom(one, [two, three]) == None;
  }

  lemma TwoThenOne(two: Psbt, three: Psbt)
    requires two.signedPublicKeys == [2, 3] && three.signedPublicKeys == [4]
    ensures KeepFresh({1}, [two], 1) == [two] && KeepFresh({1}, [two, three], 1) == [two, three]
  {
    var twos, threes, seen := Elements(two.signedPublicKeys), Elements(three.signedPublicKeys), {1} + Elements(two.signedPublicKeys);
    assert twos == {2, 3} && threes == {4};
    assert 2 in seen && 1 in seen && |seen| != 1 by { SubsetCardinality({1, 2}, seen); }
    assert 2 in seen + threes && |seen + threes| != 1 by { SubsetCardinality({1, 2}, seen + threes); }
    assert [two][1..] == [] && [two, three][1..] == [three] && [three][1..] == [];
    assert KeepFresh(seen + threes, [], 1) == [] && KeepFresh(seen, [], 1) == [];
    assert KeepFresh(seen, [three], 1) == [three] + [];
    assert KeepFresh({1}, [two, three], 1) == [two] + KeepFresh(seen, [three], 1);
    assert KeepFresh({1}, [two], 1) == [two] + KeepFresh(seen, [], 1);
  }

  /** Merging fresh single keys: distinct, at most as many as required, and at least one more. */
  lemma KeptAccumulate(current: Psbt, kept: seq<Psbt>)
    requires NoDuplicates(current.signedPublicKeys) && |current.signedPublicKeys| <= current.requiredSignatures
    requires Singles(kept, current.requiredSignatures) && |kept| > 0 && CombineFrom(current, kept).Some?
    requires NoDuplicates(FirstKeys(kept)) && forall k :: k in FirstKeys(kept) ==> k !in current.signedPublicKeys
    ensures var now := CombineFrom(current, kept).value;
      && now.tx == current.tx && now.requiredSignatures == current.requiredSignatures
      && NoDuplicates(now.signedPublicKeys)
      && current.signedPublicKeys <= now.signedPublicKeys && |now.signedPublicKeys| <= current.requiredSignatures
      && (|current.signedPublicKeys| < current.requiredSignatures ==> |now.signedPublicKeys| > |current.signedPublicKeys|)
      && (forall k :: k in now.signedPublicKeys && k !in current.signedPublicKeys ==>
            exists p :: p in kept && k in p.signedPublicKeys)
  {
    CombineSingles(current, kept);
    var keys := FirstKeys(kept);
    var m := Least(|kept|, current.requiredSignatures - |current.signedPublicKeys|);
    AppendDistinct(current.signedPublicKeys, keys, m);
    var now := CombineFrom(current, kept).value.signedPublicKeys;
    forall k | k in now && k !in current.signedPublicKeys ensures exists p :: p in kept && k in p.signedPublicKeys {
      assert k in keys[..m];
      var i :| 0 <= i < m && keys[i] == k;
      assert kept[i] in kept && k in kept[i].signedPublicKeys;
    }
  }

  // ---- Where signatures come from, for any responses ----

  /** A combination is a merge of the first `m` transactions, all of them the same transaction. */
  lemma {:induction false} CombineMerges(result: Psbt, rest: seq<Psbt>) returns (m: nat)
    requires CombineFrom(result, rest).Some?
    ensures m <= |rest| && CombineFrom(result, rest).value.tx == result.tx
    ensures forall i :: 0 <= i < m ==> rest[i].tx == result.tx
    ensures forall k :: k in CombineFrom(result, rest).value.signedPublicKeys ==>
      k in result.signedPublicKeys || exists i :: 0 <= i < m && k in rest[i].signedPublicKeys
    decreases |rest|
  {
    if |rest| == 0 || |result.signedPublicKeys| == result.requiredSignatures {
      m := 0;
    } else {
      var next := Psbt(result.tx, result.signedPublicKeys + rest[0].signedPublicKeys, rest[0].requiredSignatures, rest[0].noChange);
      var n := CombineMerges(next, rest[1..]);
      m := n + 1;
      forall i | 0 <= i < m ensures rest[i].tx == result.tx {
        assert i > 0 ==> rest[i] == rest[1..][i - 1];
      }
      forall k | k in CombineFrom(result, rest).value.signedPublicKeys && k !in result.signedPublicKeys
        ensures exists i :: 0 <= i < m && k in rest[i].signedPublicKeys
      {
        if k !in rest[0].signedPublicKeys {
          var i :| 0 <= i < n && k in rest[1..][i].signedPublicKeys;
          assert rest[i + 1] == rest[1..][i];
        }
      }
    }
  }

  /** With nothing signed yet, the first transaction kept is the first response that carries a signature, if any. */
  lemma {:induction false} FirstKept(responses: seq<Psbt>, rest: seq<Psbt>, numRequired: int)
    requires exists p :: p in responses && p.signedPublicKeys != []
    ensures var kept := KeepFresh({}, responses + rest, numRequired);
      |kept| > 0 && kept[0] in responses && kept[0].signedPublicKeys != []
    decreases |responses|
  {
    var all := responses + rest;
    assert all[0] == responses[0] && all[1..] == responses[1..] + rest;
    if responses[0].signedPublicKeys == [] {
      assert Elements(responses[0].signedPublicKeys) == {};
      assert responses == [responses[0]] + responses[1..];
      FirstKept(responses[1..], rest, numRequired);
    } else {
      assert responses[0].signedPublicKeys[0] in Elements(responses[0].signedPublicKeys);
    }
  }

  lemma {:induction false} CombineExtends(result: Psbt, rest: seq<Psbt>)
    requires CombineFrom(result, rest).Some?
    ensures result.signedPublicKeys <= CombineFrom(result, rest).value.signedPublicKeys
    ensures CombineFrom(result, rest).value.tx == result.tx
    decreases |rest|
  {
    if |rest| > 0 && |result.signedPublicKeys| < result.requiredSignatures {
      CombineExtends(Psbt(result.tx, result.signedPublicKeys + rest[0].signedPublicKeys,
                          rest[0].requiredSignatures, rest[0].noChange), rest[1..]);
    }
  }

  lemma {:induction false} KeptOffered(seen: set<PublicKey>, psbts: seq<Psbt>, numRequired: int)
    ensures forall p :: p in KeepFresh(seen, psbts, numRequired) ==> p in psbts
    decreases |psbts|
  {
    if |psbts| > 0 {
      KeptOffered(seen, psbts[1..], numRequired);
      KeptOffered(seen + Elements(psbts[0].signedPublicKeys), psbts[1..], numRequired);
    }
  }

  /** Nothing stored is lost, and the transaction stays the same. */
  lemma GatheredExtends(initial: Psbt, signed: Option<Psbt>, responses: seq<Psbt>, self: PublicKey)
    requires Gathered(initial, signed, responses, self).Stored?
    ensures var now := Gathered(initial, signed, responses, self).signed;
      && (signed.Some? ==> now.Some?)
      && Current(initial, now).tx == Current(initial, signed).tx
      && Current(initial, signed).signedPublicKeys <= Current(initial, now).signedPublicKeys
  {
    hide CombineFrom, KeepFresh;
    var current := Current(initial, signed);
    if !EnoughSignatures(signed) {
      var offers := Offers(initial, signed, responses, self).value;
      var kept := KeepFresh(Elements(current.signedPublicKeys), offers, current.requiredSignatures - |current.signedPublicKeys|);
      if |kept| > 0 {
        CombineExtends(current, kept);
      }
    }
  }

  predicate AllEmpty(responses: seq<Psbt>) {
    forall p :: p in responses ==> p.signedPublicKeys == []
  }

  predicate FromResponses(responses: seq<Psbt>, tx: UnsignedTx, k: PublicKey) {
    exists p :: p in responses && p.tx == tx && k in p.signedPublicKeys
  }

  predicate SomeResponseOn(responses: seq<Psbt>, tx: UnsignedTx) {
    exists p :: p in responses && p.tx == tx && p.signedPublicKeys != []
  }

  /** For any responses: a key that is new on the stored transaction comes with a response on that very
      transaction or with the initial one, or it is this node's own.  In the last case some signature on
      the transaction was there before or came with a response, unless every response was empty. */
  lemma OwnSignatureFollows(initial: Psbt, signed: Option<Psbt>, responses: seq<Psbt>, self: PublicKey)
    requires Gathered(initial, signed, responses, self).Stored?
    ensures var current := Current(initial, signed);
      var now := Current(initial, Gathered(initial, signed, responses, self).signed);
      && now.tx == current.tx
      && forall k :: k in now.signedPublicKeys && k !in current.signedPublicKeys ==>
           || FromResponses(responses, now.tx, k)
           || (initial.tx == now.tx && k in initial.signedPublicKeys)
           || (k == self && initial.tx == now.tx
               && (|| current.signedPublicKeys != [] || initial.signedPublicKeys != []
                   || AllEmpty(responses) || SomeResponseOn(responses, now.tx)))
  {
    var current := Current(initial, signed);
    if !EnoughSignatures(signed) {
      hide KeepFresh, CombineFrom, AllEmpty, SomeResponseOn, FromResponses;
      var offers := Offers(initial, signed, responses, self).value;
      var kept := KeepFresh(Elements(current.signedPublicKeys), offers, current.requiredSignatures - |current.signedPublicKeys|);
      if |kept| > 0 {
        var now := CombineFrom(current, kept).value;
        var m := CombineMerges(current, kept);
        forall k | k in now.signedPublicKeys && k !in current.signedPublicKeys
          ensures || FromResponses(responses, now.tx, k)
            || (initial.tx == now.tx && k in initial.signedPublicKeys)
            || (k == self && initial.tx == now.tx
                && (|| current.signedPublicKeys != [] || AllEmpty(responses) || SomeResponseOn(responses, now.tx)))
        {
          NewKey(initial, signed, responses, self, k);
        }
      }
    }
  }

  lemma NewKey(initial: Psbt, signed: Option<Psbt>, responses: seq<Psbt>, self: PublicKey, k: PublicKey)
    requires Offers(initial, signed, responses, self).Some?
    requires var current := Current(initial, signed);
      var kept := KeepFresh(Elements(current.signedPublicKeys), Offers(initial, signed, responses, self).value,
                            current.requiredSignatures - |current.signedPublicKeys|);
      CombineFrom(current, kept).Some? && k in CombineFrom(current, kept).value.signedPublicKeys && k !in current.signedPublicKeys
    ensures var tx := Current(initial, signed).tx;
      || FromResponses(responses, tx, k)
      || (initial.tx == tx && k in initial.signedPublicKeys)
      || (k == self && initial.tx == tx
          && (|| Current(initial, signed).signedPublicKeys != [] || AllEmpty(responses) || SomeResponseOn(responses, tx)))
  {
    hide KeepFresh, CombineFrom;
    var current := Current(initial, signed);
    var offers := Offers(initial, signed, responses, self).value;
    var numRequired := current.requiredSignatures - |current.signedPublicKeys|;
    var kept := KeepFresh(Elements(current.signedPublicKeys), offers, numRequired);
    KeptOffered(Elements(current.signedPublicKeys), offers, numRequired);
    var m := CombineMerges(current, kept);
    var i :| 0 <= i < m && k in kept[i].signedPublicKeys;
    assert kept[i] in offers && kept[i].tx == current.tx && kept[0].tx == current.tx;
    if kept[i] !in responses {
      assert kept[i] == SignWith(initial, self).value;
      if current.signedPublicKeys == [] && !AllEmpty(responses) {
        assert Elements(current.signedPublicKeys) == {} && offers == responses + offers[|responses|..];
        FirstKept(responses, offers[|responses|..], numRequired);
      }
    }
  }

  /** The stored transaction is signed, and by nobody who responded. */
  predicate SignedAlone(now: Psbt, responses: seq<Psbt>) {
    && now.signedPublicKeys != []
    && forall p, k :: p in responses && k in now.signedPublicKeys ==> k !in p.signedPublicKeys
  }

  /** With nothing signed yet, this node signs alone if and only if a signature is required and every response is
      empty. */
  lemma SignsAloneExactly(initial: Psbt, signed: Option<Psbt>, responses: seq<Psbt>, self: PublicKey)
    requires initial.signedPublicKeys == [] && Current(initial, signed).signedPublicKeys == []
    requires Gathered(initial, signed, responses, self).Stored?
    ensures var current := Current(initial, signed);
      var now := Current(initial, Gathered(initial, signed, responses, self).signed);
      && (SignedAlone(now, responses) <==> current.requiredSignatures >= 1 && AllEmpty(responses))
      && (SignedAlone(now, responses) ==> now.signedPublicKeys == [self])
  {
    var current := Current(initial, signed);
    if !EnoughSignatures(signed) {
      var own := SignWith(initial, self).value;
      assert own.signedPublicKeys == [self];
      assert Elements(current.signedPublicKeys) == {};
      var numRequired := current.requiredSignatures;
      var kept := KeepFresh({}, responses + [own], numRequired);
      if AllEmpty(responses) {
        OnlyOwnKept(responses, own, numRequired);
      } else {
        FirstKept(responses, [own], numRequired);
      }
      hide KeepFresh;
      FirstMerged(current, kept);
      var now := CombineFrom(current, kept).value.signedPublicKeys;
      if numRequired >= 1 && !AllEmpty(responses) {
        assert now[0] == kept[0].signedPublicKeys[0];
        assert kept[0] in responses && now[0] in now && now[0] in kept[0].signedPublicKeys;
      }
    }
  }

  lemma FirstMerged(current: Psbt, kept: seq<Psbt>)
    requires current.signedPublicKeys == [] && |kept| > 0 && CombineFrom(current, kept).Some?
    ensures var now := CombineFrom(current, kept).value.signedPublicKeys;
      && (current.requiredSignatures == 0 ==> now == [])
      && (current.requiredSignatures >= 1 ==> kept[0].signedPublicKeys <= now)
      && (current.requiredSignatures >= 1 && |kept| == 1 ==> now == kept[0].signedPublicKeys)
  {
    if current.requiredSignatures >= 1 {
      assert [] + kept[0].signedPublicKeys == kept[0].signedPublicKeys;
      CombineExtends(Psbt(current.tx, kept[0].signedPublicKeys, kept[0].requiredSignatures, kept[0].noChange), kept[1..]);
    }
  }

  lemma {:induction false} OnlyOwnKept(responses: seq<Psbt>, own: Psbt, numRequired: int)
    requires AllEmpty(responses) && own.signedPublicKeys != []
    ensures KeepFresh({}, responses + [own], numRequired) == [own]
    decreases |responses|
  {
    var all := responses + [own];
    if |responses| == 0 {
      assert own.signedPublicKeys[0] in Elements(own.signedPublicKeys);
      assert all == [own] && all[1..] == [];
    } else {
      assert all[0] == responses[0] && all[1..] == responses[1..] + [own];
      assert Elements(all[0].signedPublicKeys) == {};
      OnlyOwnKept(responses[1..], own, numRequired);
    }
  }

  /** One empty response is enough: the node's signature is then the only one on the transaction. */
  lemma EmptyResponseSignsAlone(initial: Psbt, self: PublicKey)
    requires initial.signedPublicKeys == [] && initial.requiredSignatures >= 1
    ensures Gathered(initial, None, [initial], self) == Stored(Some(initial.(signedPublicKeys := [self])))
  {
    var own := initial.(signedPublicKeys := [self]);
    assert [] + [self] == [self];
    assert SignWith(initial, self) == Some(own);
    assert Elements(initial.signedPublicKeys) == {};
    OnlyOwnKept([initial], own, initial.requiredSignatures);
    assert [own][1..] == [];
    assert CombineFrom(own, []) == Some(own);
  }
}
