/** The primitives the contracts call and this model does not look inside. Every theorem quantifies over ALL such
    functions, so it holds of BLAKE3 and Ed25519 whatever they compute; where collision-freeness matters it is a
    stated hypothesis over the values in play. */
module Crypto {
  import opened Bytes
  import opened ByteOrder

  datatype Crypto = Crypto(
    // BLAKE3 of the concatenation of everything fed to the hasher.
    hash: bytes -> Bytes32,
    // Strict Ed25519 verification under an encoded key.
    verifies: (Bytes32, bytes, Bytes64) -> bool,
    // The 32 bytes decompress to a curve point that is not of small order.
    point: Bytes32 -> bool)

  /** No two of these byte strings hash alike. */
  ghost predicate HashInjective(c: Crypto, xs: set<bytes>) {
    forall x, y :: x in xs && y in xs && c.hash(x) == c.hash(y) ==> x == y
  }

  /** Nor do the first 16 bytes of their hashes agree. */
  ghost predicate TruncationInjective(c: Crypto, xs: set<bytes>) {
    forall x, y :: x in xs && y in xs && c.hash(x)[..16] == c.hash(y)[..16] ==> x == y
  }

  /** The keys that may sign: reduced below the modulus, and a point `point` admits. */
  predicate UsableKey(c: Crypto, b: Bytes32) {
    CanonicalKey(b) && c.point(b)
  }
}
