/** Controller-signed membership certificates. */
module Membership {
  import opened Wrappers
  import opened Bytes
  import opened Cidr
  import opened Crypto

  datatype CryptoError =
    | UntrustedController
    | InvalidCertificate
    | CertificateExpired
    | AuthorizationManifestExpired
    | StaleRequest
    | InvalidIdentityKey
    | InvalidRequestSignature

  datatype MembershipClaims = MembershipClaims(
    networkId: Uuid,
    deviceId: Uuid,
    devicePublicKey: PublicKey,
    assignedAddresses: seq<IpAddr>,
    allowedRoutes: seq<PrefixText>,
    issuedAt: U64,
    expiresAt: Option<U64>)

  /** What the controller signs: bare claims in version 0, claims with a certificate
      identifier and a key epoch in version 1. */
  datatype CertificateMessage =
    | LegacyPayload(claims: MembershipClaims)
    | CertificatePayload(version: nat, certificateId: Uuid, networkKeyEpoch: U64, claims: MembershipClaims)

  datatype MembershipCertificate = MembershipCertificate(
    version: nat,
    certificateId: Uuid,
    networkKeyEpoch: U64,
    claims: MembershipClaims,
    controllerKey: PublicKey,
    signature: Signature<CertificateMessage>)

  function SignCertificate(claims: MembershipClaims, certificateId: Uuid, networkKeyEpoch: U64, key: SigningKey)
    : MembershipCertificate
  {
    MembershipCertificate(1, certificateId, networkKeyEpoch, claims, VerifyingKey(key),
                          Sign(key, CertificatePayload(1, certificateId, networkKeyEpoch, claims)))
  }

  function VerifyCertificate(c: MembershipCertificate, now: U64): Outcome<CryptoError> {
    if c.controllerKey.WrongLength? then Fail(InvalidCertificate)
    else if c.claims.expiresAt.Some? && now > c.claims.expiresAt.value then Fail(CertificateExpired)
    else if !c.controllerKey.Ed25519? then Fail(InvalidCertificate)
    else if c.version == 0 then
      if Verifies(c.controllerKey, LegacyPayload(c.claims), c.signature) then Pass else Fail(InvalidCertificate)
    else if c.version == 1 && c.certificateId != NIL_UUID && c.networkKeyEpoch > 0 then
      if Verifies(c.controllerKey,
                  CertificatePayload(c.version, c.certificateId, c.networkKeyEpoch, c.claims), c.signature)
      then Pass else Fail(InvalidCertificate)
    else Fail(InvalidCertificate)
  }

  function VerifyCertificateFrom(c: MembershipCertificate, trusted: PublicKey, now: U64): Outcome<CryptoError> {
    if c.controllerKey != trusted then Fail(UntrustedController) else VerifyCertificate(c, now)
  }

  /** An issued certificate verifies at exactly the instants up to its expiry, provided its
      identifier and epoch are set. */
  lemma SignedCertificateVerifies(claims: MembershipClaims, id: Uuid, epoch: U64, key: SigningKey,
                                  trusted: PublicKey, now: U64)
    ensures VerifyCertificateFrom(SignCertificate(claims, id, epoch, key), trusted, now).Pass? <==>
              && trusted == VerifyingKey(key) && id != NIL_UUID && epoch > 0
              && (claims.expiresAt.None? || now <= claims.expiresAt.value)
  {
  }

  /** The trusted controller signed this certificate: in version 1 over the identifier, the epoch
      and the claims, in version 0 over the bare claims. */
  predicate ControllerSigned(c: MembershipCertificate, trusted: PublicKey) {
    && trusted.Ed25519? && c.controllerKey == trusted
    && c.signature == SignedBy(SigningKey(trusted.seed),
                               if c.version == 0 then LegacyPayload(c.claims)
                               else CertificatePayload(1, c.certificateId, c.networkKeyEpoch, c.claims))
  }

  predicate Unexpired(c: MembershipCertificate, now: U64) {
    c.claims.expiresAt.None? || now <= c.claims.expiresAt.value
  }

  /** Acceptance exactly: the trusted controller signed it, it has not expired, and a version 1
      certificate names itself and its epoch; no other version is accepted. */
  lemma AcceptedIffSigned(c: MembershipCertificate, trusted: PublicKey, now: U64)
    ensures VerifyCertificateFrom(c, trusted, now).Pass? <==>
              && ControllerSigned(c, trusted) && Unexpired(c, now)
              && (c.version == 0 || (c.version == 1 && c.certificateId != NIL_UUID && c.networkKeyEpoch > 0))
  {
  }

  /** A certificate of a version other than 0 is accepted if and only if the holder of the
      controller key issued it, with an identifier and an epoch, and it has not expired. */
  lemma AcceptedIffIssued(c: MembershipCertificate, key: SigningKey, now: U64)
    requires c.version != 0
    ensures VerifyCertificateFrom(c, VerifyingKey(key), now).Pass? <==>
              && c == SignCertificate(c.claims, c.certificateId, c.networkKeyEpoch, key)
              && c.certificateId != NIL_UUID && c.networkKeyEpoch > 0 && Unexpired(c, now)
  {
    AcceptedIffSigned(c, VerifyingKey(key), now);
  }

  /** A refusal names its cause: another controller, an expired certificate of 32-byte key, or
      anything else. */
  lemma RefusalNamesItsCause(c: MembershipCertificate, trusted: PublicKey, now: U64)
    ensures VerifyCertificateFrom(c, trusted, now) == Fail(UntrustedController) <==> c.controllerKey != trusted
    ensures VerifyCertificateFrom(c, trusted, now) == Fail(CertificateExpired) <==>
              c.controllerKey == trusted && !trusted.WrongLength? && !Unexpired(c, now)
  {
  }
}
