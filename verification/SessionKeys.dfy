/** The directional traffic keys of a pairwise session. */
module SessionKeys {
  import opened Bytes

  /** An X25519 public value: a point with a known scalar, or a point of low order, with
      which every exchange yields the all-zero secret. */
  datatype EphemeralKey = Point(scalar: nat) | LowOrder(tag: nat)

  /** A Diffie-Hellman result.  A shared secret is an unordered pair of scalars. */
  datatype SharedSecret = AllZero | Shared(low: nat, high: nat)

  function DiffieHellman(secret: nat, remote: EphemeralKey): SharedSecret {
    match remote
    case LowOrder(_) => AllZero
    case Point(scalar) => if secret <= scalar then Shared(secret, scalar) else Shared(scalar, secret)
  }

  datatype Direction = InitiatorToResponder | ResponderToInitiator

  /** The fields whose fixed-size encodings are concatenated into the key-derivation input. */
  datatype KdfInfo = KdfInfo(
    network: Uuid,
    initiator: Uuid,
    responder: Uuid,
    sessionId: Bytes16,
    initiatorEphemeral: EphemeralKey,
    responderEphemeral: EphemeralKey)

  /** An ideal key-derivation output: one half of the expansion per direction. */
  datatype TrafficKey = TrafficKey(networkKey: nat, secret: SharedSecret, info: KdfInfo, direction: Direction)

  datatype PairwiseSessionKeys = PairwiseSessionKeys(sessionId: Bytes16, sendKey: TrafficKey, receiveKey: TrafficKey)

  /** What one side sends under, the other receives under, in one session. */
  predicate Mirrored(a: PairwiseSessionKeys, b: PairwiseSessionKeys) {
    a.sessionId == b.sessionId && a.sendKey == b.receiveKey && a.receiveKey == b.sendKey
  }
}
