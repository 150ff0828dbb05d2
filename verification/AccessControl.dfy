/** FastBTCAccessControl: the federator quorum check. */
module AccessControl {
  import opened Base

  type Address = nat
  const ZERO_ADDRESS: Address := 0

  /** A signature as a term.  Recovering the signer of a signature over another message gives an
      address nobody controls; it is represented by the zero address. */
  datatype Signature<M> = Signature(signer: Address, message: M)

  function Recover<M(==)>(message: M, signature: Signature<M>): (signer: Address) {
    if signature.message == message then signature.signer else ZERO_ADDRESS
  }

  function NumRequiredFederators(numFederators: nat): (n: nat) {
    numFederators / 2 + 1
  }

  /** The recovered signers are distinct federators and form a strict majority. */
  predicate IsQuorum(federators: set<Address>, signers: seq<Address>) {
    && 2 * |signers| > |federators|
    && NoDuplicates(signers)
    && forall a :: a in signers ==> a in federators && a != ZERO_ADDRESS
  }

  function Recovered<M(==)>(message: M, signatures: seq<Signature<M>>): (signers: seq<Address>)
    ensures |signers| == |signatures|
    ensures forall i :: 0 <= i < |signers| ==> signers[i] == Recover(message, signatures[i])
  {
    seq(|signatures|, i requires 0 <= i < |signatures| => Recover(message, signatures[i]))
  }

  /** True exactly when the call returns; false stands for any of the four reverts. */
  method CheckFederatorSignatures<M(==)>(federators: set<Address>, message: M, signatures: seq<Signature<M>>)
    returns (accepted: bool)
    ensures accepted <==> IsQuorum(federators, Recovered(message, signatures))
  {
    ghost var signers := Recovered(message, signatures);
    var numRequired := NumRequiredFederators(|federators|);
    if |signatures| < numRequired {
      return false;  // "Not enough signatures"
    }
    var seen := new Address[|signatures|];
    var i := 0;
    while i < |signatures|
      invariant 0 <= i <= |signatures|
      invariant seen[..i] == signers[..i]
      invariant NoDuplicates(signers[..i])
      invariant forall k :: 0 <= k < i ==> signers[k] in federators && signers[k] != ZERO_ADDRESS
    {
      var recovered := Recover(message, signatures[i]);
      assert recovered == signers[i] && signers[i] in signers;
      if recovered == ZERO_ADDRESS {
        return false;  // "recover failed"
      }
      if recovered !in federators {
        return false;  // checkFederator reverts
      }
      var j := 0;
      while j < i
        invariant 0 <= j <= i
        invariant forall k :: 0 <= k < j ==> seen[k] != recovered
      {
        if seen[j] == recovered {
          assert signers[..i][j] == signers[j] == signers[i];
          return false;  // "already signed by federator"
        }
        j := j + 1;
      }
      assert forall k :: 0 <= k < i ==> signers[k] == seen[..i][k] != recovered;
      seen[i] := recovered;
      assert signers[..i + 1] == signers[..i] + [recovered];
      i := i + 1;
    }
    assert signers[..i] == signers;
    return true;
  }

  /** Any two accepted lists under the same federators have a federator in common. */
  lemma QuorumsIntersect(federators: set<Address>, a: seq<Address>, b: seq<Address>)
    requires IsQuorum(federators, a) && IsQuorum(federators, b)
    ensures exists f :: f in a && f in b && f in federators
  {
    DistinctCount(a);
    DistinctCount(b);
    var x, y := Elements(a), Elements(b);
    if x * y == {} {
      assert |x + y| == |x| + |y|;
      SubsetCardinality(x + y, federators);
      assert false;
    }
    var f :| f in x * y;
    assert f in a && f in b;
  }

  /** An accepted list never holds more signatures than there are federators. */
  lemma QuorumFits(federators: set<Address>, signers: seq<Address>)
    requires IsQuorum(federators, signers)
    ensures NumRequiredFederators(|federators|) <= |signers| <= |federators|
  {
    DistinctCount(signers);
    SubsetCardinality(Elements(signers), federators);
  }
}
