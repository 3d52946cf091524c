/** Ideal cryptography.

Keys and signatures are symbolic terms.  A signature verifies exactly when it was made with
the matching key over the same message; messages are the signed values themselves, because
their encodings are injective.
*/
module Crypto {
  /** An Ed25519 secret key. */
  datatype SigningKey = SigningKey(seed: nat)

  /** Public key bytes: a point the library accepts, 32 bytes that are not one, or bytes of
      another length. */
  datatype PublicKey = Ed25519(seed: nat) | OffCurve(tag: nat) | WrongLength(tag: nat)

  datatype Signature<+M> = SignedBy(signer: SigningKey, message: M) | Junk(tag: nat)

  function VerifyingKey(key: SigningKey): PublicKey {
    Ed25519(key.seed)
  }

  function Sign<M>(key: SigningKey, message: M): Signature<M> {
    SignedBy(key, message)
  }

  predicate Verifies<M(==)>(key: PublicKey, message: M, signature: Signature<M>) {
    key.Ed25519? && signature == SignedBy(SigningKey(key.seed), message)
  }
}
