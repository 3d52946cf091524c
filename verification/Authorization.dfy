/** Controller-signed online authorization state, and membership refresh requests. */
module Authorization {
  import opened Wrappers
  import opened Bytes
  import opened Crypto
  import opened Membership
  import opened Sorting

  const AUTHORIZATION_MANIFEST_VERSION := 1
  const AUTHORIZATION_EPOCH_HINT_VERSION := 1

  datatype HintPayload = HintPayload(
    version: nat, networkId: Uuid, authorizationEpoch: U64, networkKeyEpoch: U64,
    issuedAt: U64, expiresAt: U64, controllerKey: PublicKey)

  datatype EpochHint = EpochHint(payload: HintPayload, signature: Signature<HintPayload>)

  datatype AuthorizedMembership = AuthorizedMembership(
    deviceId: Uuid, certificateId: Uuid, devicePublicKey: PublicKey, networkKeyEpoch: U64)

  datatype ManifestPayload = ManifestPayload(
    version: nat,
    networkId: Uuid,
    authorizationEpoch: U64,
    networkKeyEpoch: U64,
    activeMembers: seq<AuthorizedMembership>,
    revokedCertificateIds: seq<Uuid>,
    issuedAt: U64,
    expiresAt: U64,
    controllerKey: PublicKey)

  /** Every manifest field but the signature is part of what is signed. */
  datatype AuthorizationManifest = AuthorizationManifest(
    payload: ManifestPayload, signature: Signature<ManifestPayload>, epochHint: Option<EpochHint>)

  predicate MemberLe(a: AuthorizedMembership, b: AuthorizedMembership) {
    a.deviceId < b.deviceId || (a.deviceId == b.deviceId && a.certificateId <= b.certificateId)
  }

  predicate UuidLe(a: Uuid, b: Uuid) {
    a <= b
  }

  function SignHint(networkId: Uuid, authorizationEpoch: U64, networkKeyEpoch: U64, issuedAt: U64,
                    expiresAt: U64, key: SigningKey): EpochHint
  {
    var payload := HintPayload(AUTHORIZATION_EPOCH_HINT_VERSION, networkId, authorizationEpoch,
                               networkKeyEpoch, issuedAt, expiresAt, VerifyingKey(key));
    EpochHint(payload, Sign(key, payload))
  }

  function VerifyHint(h: EpochHint, trusted: PublicKey, now: U64): Outcome<CryptoError> {
    if || h.payload.version != AUTHORIZATION_EPOCH_HINT_VERSION
       || h.payload.controllerKey != trusted
       || now > h.payload.expiresAt
       || h.payload.issuedAt > SaturatingAdd(now, 120)
    then Fail(UntrustedController)
    else if !Verifies(h.payload.controllerKey, h.payload, h.signature) then Fail(InvalidCertificate)
    else Pass
  }

  function SignManifest(networkId: Uuid, authorizationEpoch: U64, networkKeyEpoch: U64,
                        activeMembers: seq<AuthorizedMembership>, revoked: seq<Uuid>,
                        issuedAt: U64, expiresAt: U64, key: SigningKey): AuthorizationManifest
  {
    var payload := ManifestPayload(
      AUTHORIZATION_MANIFEST_VERSION, networkId, authorizationEpoch, networkKeyEpoch,
      Sort(MemberLe, activeMembers), Dedup(Sort(UuidLe, revoked)), issuedAt, expiresAt, VerifyingKey(key));
    AuthorizationManifest(payload, Sign(key, payload),
      Some(SignHint(networkId, authorizationEpoch, networkKeyEpoch, issuedAt, expiresAt, key)))
  }

  function VerifyManifest(m: AuthorizationManifest, trusted: PublicKey, now: U64): Outcome<CryptoError> {
    if m.payload.version != AUTHORIZATION_MANIFEST_VERSION || m.payload.controllerKey != trusted then
      Fail(UntrustedController)
    else if now > m.payload.expiresAt || m.payload.issuedAt > SaturatingAdd(now, 120) then
      Fail(AuthorizationManifestExpired)
    else if !Verifies(m.payload.controllerKey, m.payload, m.signature) then
      Fail(InvalidCertificate)
    else if m.epochHint.None? then
      Pass
    else
      match VerifyHint(m.epochHint.value, trusted, now)
      case Fail(e) => Fail(e)
      case Pass =>
        var h := m.epochHint.value.payload;
        if || h.networkId != m.payload.networkId
           || h.authorizationEpoch != m.payload.authorizationEpoch
           || h.networkKeyEpoch != m.payload.networkKeyEpoch
        then Fail(InvalidCertificate)
        else Pass
  }

  function MembershipOf(c: MembershipCertificate): AuthorizedMembership {
    AuthorizedMembership(c.claims.deviceId, c.certificateId, c.claims.devicePublicKey, c.networkKeyEpoch)
  }

  predicate Authorizes(m: AuthorizationManifest, c: MembershipCertificate) {
    && c.claims.networkId == m.payload.networkId
    && c.networkKeyEpoch == m.payload.networkKeyEpoch
    && c.certificateId !in m.payload.revokedCertificateIds
    && exists i :: 0 <= i < |m.payload.activeMembers| && m.payload.activeMembers[i] == MembershipOf(c)
  }

  /** Sorting and deduplication change neither who is listed nor what is revoked. */
  lemma SignedManifestLists(networkId: Uuid, authorizationEpoch: U64, networkKeyEpoch: U64,
                            activeMembers: seq<AuthorizedMembership>, revoked: seq<Uuid>,
                            issuedAt: U64, expiresAt: U64, key: SigningKey, c: MembershipCertificate)
    ensures Authorizes(SignManifest(networkId, authorizationEpoch, networkKeyEpoch, activeMembers, revoked,
                                    issuedAt, expiresAt, key), c) <==>
              && c.claims.networkId == networkId && c.networkKeyEpoch == networkKeyEpoch
              && c.certificateId !in revoked && MembershipOf(c) in activeMembers
  {
    SortFacts(MemberLe, activeMembers);
    SortFacts(UuidLe, revoked);
    DedupFacts(Sort(UuidLe, revoked));
    var m := SignManifest(networkId, authorizationEpoch, networkKeyEpoch, activeMembers, revoked,
                          issuedAt, expiresAt, key);
    assert MembershipOf(c) in m.payload.activeMembers <==> MembershipOf(c) in activeMembers;
  }

  /** Members are listed by device and certificate, revoked identifiers in order and once. */
  lemma SignedManifestIsOrdered(networkId: Uuid, authorizationEpoch: U64, networkKeyEpoch: U64,
                                activeMembers: seq<AuthorizedMembership>, revoked: seq<Uuid>,
                                issuedAt: U64, expiresAt: U64, key: SigningKey)
    ensures var p := SignManifest(networkId, authorizationEpoch, networkKeyEpoch, activeMembers, revoked,
                                  issuedAt, expiresAt, key).payload;
            && multiset(p.activeMembers) == multiset(activeMembers) && Sorted(MemberLe, p.activeMembers)
            && Sorted(UuidLe, p.revokedCertificateIds) && Distinct(p.revokedCertificateIds)
            && forall c :: c in p.revokedCertificateIds <==> c in revoked
  {
    SortPermutes(MemberLe, activeMembers);
    SortSorts(MemberLe, activeMembers);
    SortFacts(UuidLe, revoked);
    SortSorts(UuidLe, revoked);
    DedupFacts(Sort(UuidLe, revoked));
    DedupDistinct(UuidLe, Sort(UuidLe, revoked));
  }

  /** A signed manifest verifies from 120 seconds before it was issued until it expires. */
  lemma SignedManifestVerifies(networkId: Uuid, authorizationEpoch: U64, networkKeyEpoch: U64,
                               activeMembers: seq<AuthorizedMembership>, revoked: seq<Uuid>,
                               issuedAt: U64, expiresAt: U64, key: SigningKey, now: U64)
    ensures VerifyManifest(SignManifest(networkId, authorizationEpoch, networkKeyEpoch, activeMembers, revoked,
                                        issuedAt, expiresAt, key), VerifyingKey(key), now).Pass? <==>
              issuedAt <= now + 120 && now <= expiresAt
  {
  }

  datatype RefreshPayload = RefreshPayload(
    version: nat, networkId: Uuid, deviceId: Uuid, certificateId: Uuid, issuedAt: U64, nonce: Bytes16)

  datatype RefreshRequest = RefreshRequest(payload: RefreshPayload, signature: Signature<RefreshPayload>)

  function VerifyRefresh(r: RefreshRequest, deviceKey: PublicKey, now: U64, skew: U64): Outcome<CryptoError> {
    if r.payload.version != 1 || AbsDiff(now, r.payload.issuedAt) > skew then Fail(StaleRequest)
    else if !deviceKey.Ed25519? then Fail(InvalidIdentityKey)
    else if !Verifies(deviceKey, r.payload, r.signature) then Fail(InvalidRequestSignature)
    else Pass
  }

  /** What a refresh request must be: this version, issued within the skew, signed over all its
      fields by the holder of the device key. */
  lemma RefreshVerifiesExactly(r: RefreshRequest, deviceKey: PublicKey, now: U64, skew: U64)
    ensures VerifyRefresh(r, deviceKey, now, skew).Pass? <==>
              && r.payload.version == 1
              && now <= r.payload.issuedAt + skew && r.payload.issuedAt <= now + skew
              && deviceKey.Ed25519? && r.signature == SignedBy(SigningKey(deviceKey.seed), r.payload)
  {
  }

  // ----- What verification means

  ghost predicate HintSigned(h: EpochHint, m: ManifestPayload, trusted: PublicKey) {
    && trusted.Ed25519? && h.signature == SignedBy(SigningKey(trusted.seed), h.payload)
    && h.payload.version == 1 && h.payload.controllerKey == trusted
    && h.payload.networkId == m.networkId
    && h.payload.authorizationEpoch == m.authorizationEpoch && h.payload.networkKeyEpoch == m.networkKeyEpoch
  }

  predicate Live(issuedAt: U64, expiresAt: U64, now: U64) {
    issuedAt <= now + 120 && now <= expiresAt
  }

  /** Acceptance exactly: the trusted controller signed the whole payload, the payload is live,
      and a hint, if there is one, is live, signed by the same controller and agrees with the
      payload on the network and both epochs. */
  lemma ManifestAcceptedIffSigned(m: AuthorizationManifest, trusted: PublicKey, now: U64)
    ensures VerifyManifest(m, trusted, now).Pass? <==>
              && trusted.Ed25519? && m.signature == SignedBy(SigningKey(trusted.seed), m.payload)
              && m.payload.version == 1 && m.payload.controllerKey == trusted
              && Live(m.payload.issuedAt, m.payload.expiresAt, now)
              && (m.epochHint.Some? ==>
                    var h := m.epochHint.value;
                    HintSigned(h, m.payload, trusted) && Live(h.payload.issuedAt, h.payload.expiresAt, now))
  {
  }

  /** The payload lists the certificate as active in its network and epoch, and not as revoked. */
  ghost predicate Lists(p: ManifestPayload, c: MembershipCertificate) {
    && p.networkId == c.claims.networkId && p.networkKeyEpoch == c.networkKeyEpoch
    && c.certificateId !in p.revokedCertificateIds
    && exists a :: a in p.activeMembers && a.deviceId == c.claims.deviceId && a.certificateId == c.certificateId
                   && a.devicePublicKey == c.claims.devicePublicKey && a.networkKeyEpoch == c.networkKeyEpoch
  }

  lemma AuthorizesIffListed(m: AuthorizationManifest, c: MembershipCertificate)
    ensures Authorizes(m, c) <==> Lists(m.payload, c)
  {
    if Lists(m.payload, c) {
      var a :| a in m.payload.activeMembers && a.deviceId == c.claims.deviceId && a.certificateId == c.certificateId
               && a.devicePublicKey == c.claims.devicePublicKey && a.networkKeyEpoch == c.networkKeyEpoch;
      assert a == MembershipOf(c);
    }
  }
}
