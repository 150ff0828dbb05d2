/** BTCAddressValidator.sol: the shape of a Bitcoin address. */
module AddressValidator {

  /** A character of an address. */
  type uint8 = bv8

  type Text = seq<uint8>

  const INVALID_BECH32: bv256 := 0xfffffffffffffffffffffffffffffffff8008205fffffffffc02ffffffffffff

  /** The data characters of BIP 173, section 'Bech32'. */
  const BECH32_CHARSET: string := "qpzry9x8gf2tvdw0s3jn54khce6mua7l"

  /** A digit or lowercase letter other than 1, b, i, o. */
  predicate Bech32Character(c: uint8) {
    (0x30 <= c <= 0x39 || 0x61 <= c <= 0x7a) && c != 0x31 && c != 0x62 && c != 0x69 && c != 0x6f
  }

  /** A digit or letter other than 0, I, O, l. */
  predicate Base58Character(c: uint8) {
    (0x30 <= c <= 0x39 || 0x41 <= c <= 0x5a || 0x61 <= c <= 0x7a) && c != 0x30 && c != 0x49 && c != 0x4f && c != 0x6c
  }

  function BitOf(c: uint8): (r: bv256) { (1 as bv256) << c }

  function Or(a: bv256, b: bv256): (r: bv256) { a | b }

  /** The mask has no invalid bit. */
  predicate Clear(bitmask: bv256) { bitmask & INVALID_BECH32 == 0 }

  lemma BitClear(c: uint8)
    ensures Clear(BitOf(c)) <==> Bech32Character(c)
  {
  }

  lemma ClearParts(a: bv256, b: bv256)
    requires Clear(Or(a, b))
    ensures Clear(a)
  {
  }

  lemma ClearTogether(a: bv256, b: bv256)
    requires Clear(a) && Clear(b)
    ensures Clear(Or(a, b))
  {
  }

  lemma OrComm(a: bv256, b: bv256)
    ensures Or(a, b) == Or(b, a)
  {
  }

  lemma ClearUnion(a: bv256, b: bv256)
    ensures Clear(Or(a, b)) <==> Clear(a) && Clear(b)
  {
    hide Clear, Or;
    OrComm(a, b);
    if Clear(Or(a, b)) {
      ClearParts(a, b);
      ClearParts(b, a);
    } else if Clear(a) && Clear(b) {
      ClearTogether(a, b);
    }
  }

  /** The characters let through are exactly the 32 data characters of the standard. */
  lemma Bech32Charset(c: uint8)
    ensures Bech32Character(c) <==> c as char in BECH32_CHARSET
  {
  }

  /** And those of base 58 are the digits and letters without the four that look alike. */
  lemma Base58Digits(c: uint8)
    requires c < 0x41
    ensures Base58Character(c) <==> c as char in "123456789"
  {
  }

  lemma Base58Capitals(c: uint8)
    requires 0x41 <= c < 0x61
    ensures Base58Character(c) <==> c as char in "ABCDEFGHJKLMNPQRSTUVWXYZ"
  {
  }

  lemma Base58Letters(c: uint8)
    requires 0x61 <= c
    ensures Base58Character(c) <==> c as char in "abcdefghijkmnopqrstuvwxyz"
  {
  }

  predicate StartsWith(text: Text, prefix: Text) { prefix <= text }

  /** An address of the bech32 kind. */
  predicate IsBech32(text: Text, prefix: Text, minLength: nat, maxLength: nat) {
    && StartsWith(text, prefix)
    && minLength <= |text| <= maxLength
    && forall i :: |prefix| <= i < |text| ==> Bech32Character(text[i])
  }

  /** An address of the older kinds. */
  predicate IsNonBech32(text: Text, prefixes: seq<Text>, minLength: nat, maxLength: nat) {
    && minLength <= |text| <= maxLength
    && (exists k :: 0 <= k < |prefixes| && StartsWith(text, prefixes[k]))
    && forall i :: 1 <= i < |text| ==> Base58Character(text[i])
  }

  class BTCAddressValidator {
    var bech32Prefix: Text
    var supportsLegacy: bool
    var nonBech32Prefixes: seq<Text>
    var bech32MinLength: nat
    var bech32MaxLength: nat
    var nonBech32MinLength: nat
    var nonBech32MaxLength: nat

    constructor (bech32Prefix: Text, nonBech32Prefixes: seq<Text>)
      ensures Valid()
      ensures this.bech32Prefix == bech32Prefix && this.nonBech32Prefixes == nonBech32Prefixes
      ensures bech32MinLength == 42 && bech32MaxLength == 64 && nonBech32MinLength == 26 && nonBech32MaxLength == 35
    {
      this.bech32Prefix := bech32Prefix;
      this.supportsLegacy := |nonBech32Prefixes| > 0;
      this.nonBech32Prefixes := nonBech32Prefixes;
      this.bech32MinLength, this.bech32MaxLength := 42, 64;
      this.nonBech32MinLength, this.nonBech32MaxLength := 26, 35;
    }

    /** The flag is redundant: with no prefixes nothing of the older kinds is accepted anyway. */
    predicate Valid()
      reads this
    {
      supportsLegacy <==> |nonBech32Prefixes| > 0
    }

    predicate Accepts(text: Text)
      reads this
    {
      if StartsWith(text, bech32Prefix) then IsBech32(text, bech32Prefix, bech32MinLength, bech32MaxLength)
      else IsNonBech32(text, nonBech32Prefixes, nonBech32MinLength, nonBech32MaxLength)
    }

    method IsValidBtcAddress(btcAddress: Text) returns (valid: bool)
      requires Valid()
      ensures valid <==> Accepts(btcAddress)
    {
      var isBech32 := HasPrefix(btcAddress, bech32Prefix);
      if isBech32 {
        valid := ValidateBech32Address(btcAddress);
      } else if supportsLegacy {
        valid := ValidateNonBech32Address(btcAddress);
      } else {
        valid := false;
      }
    }

    method ValidateBech32Address(btcAddress: Text) returns (valid: bool)
      requires StartsWith(btcAddress, bech32Prefix)
      ensures valid <==> IsBech32(btcAddress, bech32Prefix, bech32MinLength, bech32MaxLength)
    {
      hide Clear, BitOf, Bech32Character, Or;
      if |btcAddress| < bech32MinLength || |btcAddress| > bech32MaxLength {
        return false;
      }
      var bitmask: bv256 := 0;
      ClearZero();
      var i := |bech32Prefix|;
      while i < |btcAddress|
        invariant |bech32Prefix| <= i <= |btcAddress|
        invariant Clear(bitmask) <==> forall k :: |bech32Prefix| <= k < i ==> Bech32Character(btcAddress[k])
      {
        ClearUnion(bitmask, BitOf(btcAddress[i]));
        BitClear(btcAddress[i]);
        bitmask := Or(bitmask, BitOf(btcAddress[i]));
        i := i + 1;
      }
      return Clear(bitmask);
    }

    method ValidateNonBech32Address(btcAddress: Text) returns (valid: bool)
      ensures valid <==> IsNonBech32(btcAddress, nonBech32Prefixes, nonBech32MinLength, nonBech32MaxLength)
    {
      if |btcAddress| < nonBech32MinLength || |btcAddress| > nonBech32MaxLength {
        return false;
      }
      var hasPrefix := HasValidNonBech32Prefix(btcAddress);
      if !hasPrefix {
        return false;
      }
      var i := 1;
      while i < |btcAddress|
        invariant 1 <= i
        invariant forall k :: 1 <= k < i && k < |btcAddress| ==> Base58Character(btcAddress[k])
      {
        var c := btcAddress[i];
        var isValidCharacter :=
          || (c >= 0x31 && c <= 0x39)
          || (c >= 0x41 && c <= 0x5a && c != 0x49 && c != 0x4f)
          || (c >= 0x61 && c <= 0x7a && c != 0x6c);
        if !isValidCharacter {
          return false;
        }
        i := i + 1;
      }
      return true;
    }

    method HasValidNonBech32Prefix(btcAddress: Text) returns (found: bool)
      ensures found <==> exists k :: 0 <= k < |nonBech32Prefixes| && StartsWith(btcAddress, nonBech32Prefixes[k])
    {
      var i := 0;
      while i < |nonBech32Prefixes|
        invariant 0 <= i <= |nonBech32Prefixes|
        invariant forall k :: 0 <= k < i ==> !StartsWith(btcAddress, nonBech32Prefixes[k])
      {
        found := HasPrefix(btcAddress, nonBech32Prefixes[i]);
        if found {
          return;
        }
        i := i + 1;
      }
      return false;
    }

    method SetNonBech32Prefixes(prefixes: seq<Text>)
      modifies this`nonBech32Prefixes, this`supportsLegacy
      ensures Valid() && nonBech32Prefixes == prefixes
    {
      nonBech32Prefixes := prefixes;
      supportsLegacy := |nonBech32Prefixes| > 0;
    }
  }

  lemma ClearZero()
    ensures Clear(0)
  {
  }

  /** startsWith. */
  method HasPrefix(text: Text, prefix: Text) returns (r: bool)
    ensures r <==> StartsWith(text, prefix)
  {
    if |prefix| > |text| {
      return false;
    }
    var i := 0;
    while i < |prefix|
      invariant 0 <= i <= |prefix|
      invariant forall k :: 0 <= k < i ==> text[k] == prefix[k]
    {
      if text[i] != prefix[i] {
        return false;
      }
      i := i + 1;
    }
    return true;
  }
}
