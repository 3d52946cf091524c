/** Relay registration acknowledgements, the clients of a rotating service identity. */
module RelayAck {
  import opened Wrappers
  import opened Bytes
  import opened Cidr
  import opened Crypto
  import opened Authorization
  import opened Registration
  import opened ServiceIdentity

  const RELAY_ACK_PROTOCOL_VERSION := 2
  const MAX_RELAY_ACK_LIFETIME := 30

  datatype AckPayload = AckPayload(
    version: nat, networkId: Uuid, deviceId: Uuid, relayId: Uuid, requestNonce: Bytes16, receiver: Endpoint,
    issuedAt: U64, expiresAt: U64, hint: Option<EpochHint>)

  datatype RelayAck = RelayAck(payload: AckPayload, signatures: seq<ServiceSignature<AckPayload>>)

  datatype RelayError =
    | UnsupportedAck | TransactionMismatch | InvalidLifetime | InvalidReceiver
    | InvalidIdentity(error: ServiceIdentityError)

  /** A port, and an address that is neither unspecified nor multicast. */
  predicate UsableReceiver(e: Endpoint) {
    && e.port != 0 && e.address.bits != 0
    && match e.address.family
       case V4 => e.address.bits / 0x1000_0000 != 0xE
       case V6 => e.address.bits / 0x100_0000_0000_0000_0000_0000_0000_0000 != 0xFF
  }

  /** Which receivers are refused: port 0, the unspecified addresses, 224.0.0.0/4 and what begins
      with ff in IPv6. */
  lemma UnusableReceivers(e: Endpoint)
    ensures UsableReceiver(e) <==>
              && e.port != 0 && e.address.bits != 0
              && (e.address.family == V4 ==> !(0xE000_0000 <= e.address.bits <= 0xEFFF_FFFF))
              && (e.address.family == V6 ==> !(0xFF00_0000_0000_0000_0000_0000_0000_0000 <= e.address.bits <=
                                               0xFFFF_FFFF_FFFF_FFFF_FFFF_FFFF_FFFF_FFFF))
  {
  }

  function SignAck(networkId: Uuid, deviceId: Uuid, relayId: Uuid, nonce: Bytes16, source: Endpoint, issuedAt: U64,
                   expiresAt: U64, hint: Option<EpochHint>, keys: seq<SigningKey>): RelayAck
  {
    var payload := AckPayload(RELAY_ACK_PROTOCOL_VERSION, networkId, deviceId, relayId, nonce, source, issuedAt,
        expiresAt, hint);
    RelayAck(payload, SignedByAll(keys, payload))
  }

  function VerifyAck(a: RelayAck, identity: IdentityPolicy, networkId: Uuid, deviceId: Uuid, nonce: Bytes16,
                     now: U64, skew: U64)
    : Outcome<RelayError>
  {
    var p := a.payload;
    if p.version != RELAY_ACK_PROTOCOL_VERSION then Fail(UnsupportedAck)
    else if || p.networkId != networkId || p.deviceId != deviceId || p.relayId != identity.serviceId
            || p.requestNonce != nonce
    then Fail(TransactionMismatch)
    else if || p.expiresAt < p.issuedAt || p.expiresAt - p.issuedAt > MAX_RELAY_ACK_LIFETIME
            || p.issuedAt > SaturatingAdd(now, skew) || now > p.expiresAt
    then Fail(InvalidLifetime)
    else if !UsableReceiver(p.receiver) then Fail(InvalidReceiver)
    else
      match VerifySignatures(identity, p, a.signatures, now)
      case Fail(e) => Fail(InvalidIdentity(e))
      case Pass => Pass
  }

  predicate InLifetime(issuedAt: U64, expiresAt: U64, now: U64, skew: U64) {
    issuedAt <= expiresAt <= issuedAt + 30 && issuedAt <= now + skew && now <= expiresAt
  }

  /** Acceptance exactly, for any acknowledgement and any identity: this version, this transaction
      and relay, its lifetime, a usable receiver, and the required keys' signatures over the whole
      payload, one each, in order. */
  lemma AckIsExact(a: RelayAck, identity: IdentityPolicy, networkId: Uuid, deviceId: Uuid, nonce: Bytes16, now: U64,
                   skew: U64)
    ensures VerifyAck(a, identity, networkId, deviceId, nonce, now, skew).Pass? <==>
              && a.payload.version == 2
              && a.payload.networkId == networkId && a.payload.deviceId == deviceId && a.payload.requestNonce == nonce
              && a.payload.relayId == identity.serviceId
              && InLifetime(a.payload.issuedAt, a.payload.expiresAt, now, skew)
              && UsableReceiver(a.payload.receiver)
              && exists keys :: RequiredKeys(identity, now) == Ok(PublicKeys(keys))
                                && a.signatures == SignedByAll(keys, a.payload)
  {
    OnlyTheRequiredListVerifies(identity, a.payload, a.signatures, now);
    hide VerifySignatures, UsableReceiver, RequiredKeys;
  }

  /** Through a rotation, an acknowledgement signed with the keys of `signedAt` is accepted by
      the device and for the request it answers, at exactly the instants of its lifetime up to
      the end of the window that lie on the same side of the window's start as `signedAt`. */
  lemma AckVerifiesIff(networkId: Uuid, deviceId: Uuid, relayId: Uuid, nonce: Bytes16,
                       source: Endpoint,
                       issuedAt: U64, expiresAt: U64, hint: Option<EpochHint>,
                       current: SigningKey, next: SigningKey, notBefore: U64, notAfter: U64,
                       revoked: seq<PublicKey>, signedAt: U64,
                       networkId': Uuid, deviceId': Uuid, nonce': Bytes16, now: U64, skew: U64)
    requires ProperRotation(current, next, notBefore, notAfter, revoked)
    ensures var identity := Rotation(relayId, current, next, notBefore, notAfter, revoked);
            var ack := SignAck(networkId, deviceId, relayId, nonce, source, issuedAt, expiresAt, hint,
                               KeysAt(current, next, notBefore, signedAt));
            VerifyAck(ack, identity, networkId', deviceId', nonce', now, skew).Pass? <==>
              && networkId' == networkId && deviceId' == deviceId && nonce' == nonce
              && InLifetime(issuedAt, expiresAt, now, skew) && UsableReceiver(source)
              && now <= notAfter && (signedAt < notBefore <==> now < notBefore)
  {
    var identity := Rotation(relayId, current, next, notBefore, notAfter, revoked);
    var ack := SignAck(networkId, deviceId, relayId, nonce, source, issuedAt, expiresAt, hint,
                       KeysAt(current, next, notBefore, signedAt));
    RotationVerifiesIff(relayId, current, next, notBefore, notAfter, revoked, ack.payload, signedAt, now);
    hide VerifySignatures, UsableReceiver;
  }

  /** Hence an acknowledgement signed one second before the window, with the only key required
      then, is refused one second later although it is fresh and the window is open. */
  lemma RefusedAcrossTheWindowStart(networkId: Uuid, deviceId: Uuid, relayId: Uuid,
                                    nonce: Bytes16, source: Endpoint)
    requires UsableReceiver(source)
    ensures var (current, next) := (SigningKey(1), SigningKey(2));
            var identity := Rotation(relayId, current, next, 1000, 2000, []);
            var ack := SignAck(networkId, deviceId, relayId, nonce, source, 999, 1020, None, [current]);
            && RequiredKeys(identity, 999) == Ok([VerifyingKey(current)])
            && VerifyAck(ack, identity, networkId, deviceId, nonce, 999, 0).Pass?
            && VerifyAck(ack, identity, networkId, deviceId, nonce, 1000, 0).Fail?
  {
    var (current, next) := (SigningKey(1), SigningKey(2));
    AckVerifiesIff(networkId, deviceId, relayId, nonce, source, 999, 1020, None, current, next, 1000, 2000, [], 999,
                   networkId, deviceId, nonce, 999, 0);
    AckVerifiesIff(networkId, deviceId, relayId, nonce, source, 999, 1020, None, current, next, 1000, 2000, [], 999,
                   networkId, deviceId, nonce, 1000, 0);
    hide VerifyAck;
    assert KeysAt(current, next, 1000, 999) == [current];
  }

  /** Nothing that carries a revoked key is ever accepted. */
  lemma RevokedKeyNeverAccepted(a: RelayAck, identity: IdentityPolicy, networkId: Uuid,
                                deviceId: Uuid,
                                nonce: Bytes16, now: U64, skew: U64, i: nat)
    requires i < |a.signatures| && a.signatures[i].publicKey in identity.revoked
    ensures VerifyAck(a, identity, networkId, deviceId, nonce, now, skew).Fail?
  {
    RevokedKeyNeverVerifies(identity, a.payload, a.signatures, now, i);
  }
}
