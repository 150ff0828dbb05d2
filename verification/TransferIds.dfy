/** Identifiers of transfers.  The contract hashes a packed preimage; the hash is modelled by the
    preimage itself, so that collision freedom of keccak is the only thing taken for granted and
    injectivity of the packing is proved here. */
module TransferIds {
  import opened Base

  type BtcAddress = seq<byte>

  /** keccak256 of a byte string, as a term. */
  datatype TransferId = Keccak(packed: seq<byte>)

  const TRANSFER_TAG: seq<byte> := [116, 114, 97, 110, 115, 102, 101, 114, 58]  // "transfer:"
  const SEPARATOR: seq<byte> := [58]                                           // ":"

  /** Digit number `k` of `n` in base 256, the least significant being number 0. */
  function Digit(n: nat, k: nat): (d: byte) {
    if k == 0 then (n % 256) as byte else Digit(n / 256, k - 1)
  }

  /** `n` as a 32-byte big-endian word. */
  function Word(n: nat): (w: seq<byte>)
    ensures |w| == 32
  {
    seq(32, i requires 0 <= i < 32 => Digit(n, 31 - i))
  }

  function Capacity(width: nat): (c: nat) {
    if width == 0 then 1 else 256 * Capacity(width - 1)
  }

  /** abi.encodePacked("transfer:", btcAddress, ":", nonce) with a 32-byte nonce. */
  function PackTransfer(btcAddress: BtcAddress, nonce: nat): (packed: seq<byte>) {
    TRANSFER_TAG + btcAddress + SEPARATOR + Word(nonce)
  }

  function GetTransferId(btcAddress: BtcAddress, nonce: nat): (id: TransferId) {
    Keccak(PackTransfer(btcAddress, nonce))
  }

  lemma {:induction false} DigitsInjective(m: nat, n: nat, width: nat)
    requires m < Capacity(width) && n < Capacity(width)
    requires forall k :: 0 <= k < width ==> Digit(m, k) == Digit(n, k)
    ensures m == n
  {
    if width != 0 {
      forall k | 0 <= k < width - 1 ensures Digit(m / 256, k) == Digit(n / 256, k) {
        assert Digit(m, k + 1) == Digit(n, k + 1);
      }
      DigitsInjective(m / 256, n / 256, width - 1);
      assert Digit(m, 0) == Digit(n, 0);
    }
  }

  /** Two transfers have the same identifier only if they have the same address and nonce:
      addresses of any length and content, including ones that contain the separator. */
  lemma TransferIdInjective(a: BtcAddress, m: nat, b: BtcAddress, n: nat)
    requires m < Capacity(32) && n < Capacity(32)
    requires GetTransferId(a, m) == GetTransferId(b, n)
    ensures a == b && m == n
  {
    var p, q := PackTransfer(a, m), PackTransfer(b, n);
    assert |p| == |a| + 42 && |q| == |b| + 42;
    assert a == p[9..9 + |a|];
    assert b == q[9..9 + |b|];
    assert p[|a| + 10..] == Word(m);
    assert q[|b| + 10..] == Word(n);
    forall k | 0 <= k < 32 ensures Digit(m, k) == Digit(n, k) {
      assert Word(m)[31 - k] == Word(n)[31 - k];
    }
    DigitsInjective(m, n, 32);
  }

  /** Nonces are eight bits wide, so they fit the word. */
  lemma NoncesFit(nonce: nat)
    requires nonce < 256
    ensures nonce < Capacity(32)
  {
    CapacityGrows(32);
  }

  lemma {:induction false} CapacityGrows(width: nat)
    ensures Capacity(width) >= if width == 0 then 1 else 256
  {
    if width != 0 {
      CapacityGrows(width - 1);
    }
  }
}
