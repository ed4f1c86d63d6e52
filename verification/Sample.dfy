/** Concrete primitives for the inputs that show a claim to fail: a hash that keeps the last byte, signatures and points
    that always pass. */
module Sample {
  import opened Bytes
  import opened ByteOrder
  import opened Crypto

  function LastByte(b: bytes): Bytes32 {
    Zeros(31) + [if b == [] then 0 else b[|b| - 1]]
  }

  function SampleCrypto(): Crypto {
    Crypto((b: bytes) => LastByte(b), (k: Bytes32, m: bytes, x: Bytes64) => true, (b: Bytes32) => true)
  }

  lemma {:induction false} ZeroNumber(n: nat)
    ensures UnLE(Zeros(n)) == 0
    decreases n
  {
    if n > 0 {
      assert Zeros(n)[1..] == Zeros(n - 1);
      ZeroNumber(n - 1);
    }
  }

  /** The all-zero key is canonically encoded. */
  lemma ZeroKeyUsable(c: Crypto)
    requires c.point(Zeros(32))
    ensures UsableKey(c, Zeros(32))
  {
    assert ClearSign(Zeros(32)) == Zeros(32);
    ZeroNumber(32);
  }
}
