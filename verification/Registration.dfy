/** A device's registration at a root or relay: its memberships, their authorization and the
    service it is meant for. */
module Registration {
  import opened Wrappers
  import opened Bytes
  import opened Cidr
  import opened Crypto
  import opened Membership
  import opened Authorization
  import opened Sorting

  const LEGACY_VERSION := 1
  const TARGET_BOUND_VERSION := 2

  datatype ServiceKind = Root | Relay

  datatype Target = Target(kind: ServiceKind, serviceId: Uuid)

  datatype Endpoint = Endpoint(address: IpAddr, port: nat)

  datatype RegistrationPayload = RegistrationPayload(
    version: nat,
    deviceId: Uuid,
    devicePublicKey: PublicKey,
    certificates: seq<MembershipCertificate>,
    manifests: seq<AuthorizationManifest>,
    candidates: seq<Endpoint>,
    issuedAt: U64,
    nonce: Bytes16,
    target: Option<Target>)

  /** What a device signs: a bare payload, or one under the domain of target-bound ones. */
  datatype RegistrationMessage = Bare(payload: RegistrationPayload) | TargetBound(payload: RegistrationPayload)

  datatype RootRegistration = RootRegistration(payload: RegistrationPayload, signature: Signature<RegistrationMessage>)

  datatype RegistrationError =
    | UnsupportedVersion | BadIdentityKey | BadSignature | StaleRegistration | MissingMembership
    | IdentityMismatch | UntrustedMembership | MissingAuthorization | InvalidAuthorizationSet
    | DuplicateMembership | RevokedMembership | TargetMismatch

  function SignatureMessage(p: RegistrationPayload): Result<RegistrationMessage, RegistrationError> {
    if p.version == LEGACY_VERSION && p.target.None? then Ok(Bare(p))
    else if p.version == TARGET_BOUND_VERSION && p.target.Some? then Ok(TargetBound(p))
    else Err(UnsupportedVersion)
  }

  /** Whether a payload of this version and target may be presented to this service. */
  function TargetVerdict(p: RegistrationPayload, expected: Option<Target>): Outcome<RegistrationError> {
    if p.version == LEGACY_VERSION && p.target.None? && expected.None? then Pass
    else if p.version == TARGET_BOUND_VERSION && p.target.Some? && p.target == expected then Pass
    else if p.version == LEGACY_VERSION || p.version == TARGET_BOUND_VERSION then Fail(TargetMismatch)
    else Fail(UnsupportedVersion)
  }

  predicate TrustedCertificate(c: MembershipCertificate, trusted: seq<PublicKey>, now: U64) {
    exists i :: 0 <= i < |trusted| && VerifyCertificateFrom(c, trusted[i], now).Pass?
  }

  predicate TrustedManifest(m: AuthorizationManifest, trusted: seq<PublicKey>, now: U64) {
    exists i :: 0 <= i < |trusted| && VerifyManifest(m, trusted[i], now).Pass?
  }

  predicate OwnMembership(p: RegistrationPayload, c: MembershipCertificate, trusted: seq<PublicKey>, now: U64) {
    && c.claims.deviceId == p.deviceId && c.claims.devicePublicKey == p.devicePublicKey
    && TrustedCertificate(c, trusted, now)
  }

  /** The device made this registration, recently, for this service, and every certificate in
      it is its own and trusted. */
  ghost predicate MembershipHolds(r: RootRegistration, trusted: seq<PublicKey>, now: U64, skew: U64,
                                  expected: Option<Target>) {
    var p := r.payload;
    && p.target == expected
    && p.version == (if expected.None? then LEGACY_VERSION else TARGET_BOUND_VERSION)
    && AbsDiff(now, p.issuedAt) <= skew
    && p.devicePublicKey.Ed25519?
    && r.signature == SignedBy(SigningKey(p.devicePublicKey.seed), if expected.None? then Bare(p) else TargetBound(p))
    && p.certificates != []
    && forall i :: 0 <= i < |p.certificates| ==> OwnMembership(p, p.certificates[i], trusted, now)
  }

  /** `verify_membership` */
  method VerifyMembership(r: RootRegistration, trusted: seq<PublicKey>, now: U64, skew: U64, expected: Option<Target>)
    returns (verdict: Outcome<RegistrationError>)
    ensures verdict.Pass? <==> MembershipHolds(r, trusted, now, skew, expected)
    ensures verdict == Fail(TargetMismatch) <==>
              (r.payload.version == LEGACY_VERSION || r.payload.version == TARGET_BOUND_VERSION)
              && TargetVerdict(r.payload, expected).Fail?
  {
    var p := r.payload;
    if TargetVerdict(p, expected).Fail? {
      return TargetVerdict(p, expected);
    }
    if AbsDiff(now, p.issuedAt) > skew {
      return Fail(StaleRegistration);
    }
    if p.devicePublicKey.WrongLength? {
      return Fail(BadIdentityKey);
    }
    var message := SignatureMessage(p);
    if message.Err? {
      return Fail(message.error);
    }
    if !p.devicePublicKey.Ed25519? {
      return Fail(BadIdentityKey);
    }
    if !Verifies(p.devicePublicKey, message.value, r.signature) {
      return Fail(BadSignature);
    }
    if p.certificates == [] {
      return Fail(MissingMembership);
    }
    for k := 0 to |p.certificates|
      invariant forall i :: 0 <= i < k ==> OwnMembership(p, p.certificates[i], trusted, now)
    {
      var c := p.certificates[k];
      if c.claims.deviceId != p.deviceId || c.claims.devicePublicKey != p.devicePublicKey {
        return Fail(IdentityMismatch);
      }
      if !TrustedCertificate(c, trusted, now) {
        return Fail(UntrustedMembership);
      }
    }
    return Pass;
  }

  // ----- Certificates and manifests

  /** The manifest is this certificate's: same network, same controller, trusted and current,
      and it authorizes the certificate. */
  predicate Covers(m: AuthorizationManifest, c: MembershipCertificate, trusted: seq<PublicKey>, now: U64) {
    && m.payload.networkId == c.claims.networkId
    && m.payload.controllerKey == c.controllerKey
    && TrustedManifest(m, trusted, now)
    && Authorizes(m, c)
  }

  ghost predicate OnePerNetwork(p: RegistrationPayload) {
    forall i, j :: 0 <= i < j < |p.certificates| ==>
      p.certificates[i].claims.networkId != p.certificates[j].claims.networkId
  }

  ghost predicate OneManifestPerNetwork(p: RegistrationPayload) {
    forall i, j :: 0 <= i < j < |p.manifests| ==> p.manifests[i].payload.networkId != p.manifests[j].payload.networkId
  }

  ghost predicate CoversOne(m: AuthorizationManifest, p: RegistrationPayload, trusted: seq<PublicKey>, now: U64) {
    exists i :: 0 <= i < |p.certificates| && Covers(m, p.certificates[i], trusted, now)
  }

  /** Every manifest covers a certificate. */
  ghost predicate ManifestsCover(p: RegistrationPayload, trusted: seq<PublicKey>, now: U64) {
    forall j :: 0 <= j < |p.manifests| ==> CoversOne(p.manifests[j], p, trusted, now)
  }

  /** Every certificate is covered by a manifest. */
  ghost predicate CertificatesCovered(p: RegistrationPayload, trusted: seq<PublicKey>, now: U64) {
    forall i :: 0 <= i < |p.certificates| ==> CoveredByOne(p, p.certificates[i], trusted, now)
  }

  ghost predicate CoveredByOne(p: RegistrationPayload, c: MembershipCertificate, trusted: seq<PublicKey>, now: U64) {
    exists j :: 0 <= j < |p.manifests| && Covers(p.manifests[j], c, trusted, now)
  }

  ghost predicate AuthorizationSetHolds(p: RegistrationPayload, trusted: seq<PublicKey>, now: U64, requireEvery: bool) {
    && OnePerNetwork(p) && OneManifestPerNetwork(p) && ManifestsCover(p, trusted, now)
    && (requireEvery ==> CertificatesCovered(p, trusted, now))
  }

  ghost function CertificateNetworks(p: RegistrationPayload): set<Uuid> {
    set i | 0 <= i < |p.certificates| :: p.certificates[i].claims.networkId
  }

  ghost function ManifestNetworks(p: RegistrationPayload): set<Uuid> {
    set j | 0 <= j < |p.manifests| :: p.manifests[j].payload.networkId
  }

  /** The first loop: certificates by network. */
  method IndexCertificates(p: RegistrationPayload) returns (byNetwork: Option<map<Uuid, MembershipCertificate>>)
    ensures byNetwork.Some? <==> OnePerNetwork(p)
    ensures byNetwork.Some? ==>
              && byNetwork.value.Keys == CertificateNetworks(p)
              && forall i :: 0 <= i < |p.certificates| ==>
                   && p.certificates[i].claims.networkId in byNetwork.value
                   && byNetwork.value[p.certificates[i].claims.networkId] == p.certificates[i]
  {
    var found: map<Uuid, MembershipCertificate> := map[];
    for k := 0 to |p.certificates|
      invariant found.Keys == set i | 0 <= i < k :: p.certificates[i].claims.networkId
      invariant forall i :: 0 <= i < k ==>
                  && p.certificates[i].claims.networkId in found
                  && found[p.certificates[i].claims.networkId] == p.certificates[i]
      invariant forall i, j :: 0 <= i < j < k ==>
                  p.certificates[i].claims.networkId != p.certificates[j].claims.networkId
    {
      var c := p.certificates[k];
      if c.claims.networkId in found {
        return None;
      }
      found := found[c.claims.networkId := c];
    }
    return Some(found);
  }

  lemma SubsetOfEqualSize(a: set<Uuid>, b: set<Uuid>)
    requires a <= b
    ensures |a| == |b| <==> a == b
  {
    assert b == a + (b - a);
    assert |b| == |a| + |b - a|;
    if |a| == |b| {
      assert b - a == {};
    }
  }

  /** A manifest that covers some certificate covers the one of its network. */
  lemma CoversItsOwn(p: RegistrationPayload, trusted: seq<PublicKey>, now: U64, i: nat, j: nat)
    requires OnePerNetwork(p) && ManifestsCover(p, trusted, now)
    requires i < |p.certificates| && j < |p.manifests|
    requires p.manifests[j].payload.networkId == p.certificates[i].claims.networkId
    ensures Covers(p.manifests[j], p.certificates[i], trusted, now)
  {
    hide TrustedManifest, Authorizes;
    assert CoversOne(p.manifests[j], p, trusted, now);
    var i' :| 0 <= i' < |p.certificates| && Covers(p.manifests[j], p.certificates[i'], trusted, now);
    assert i' == i;
  }

  lemma ManifestNetworksKnown(p: RegistrationPayload, trusted: seq<PublicKey>, now: U64)
    requires ManifestsCover(p, trusted, now)
    ensures ManifestNetworks(p) <= CertificateNetworks(p)
  {
    hide TrustedManifest, Authorizes;
    forall j | 0 <= j < |p.manifests| ensures p.manifests[j].payload.networkId in CertificateNetworks(p) {
      assert CoversOne(p.manifests[j], p, trusted, now);
    }
  }

  /** Counting: manifests are sent one-to-one into certificates by their network, so there are
      as many networks on both sides exactly when every certificate is covered. */
  lemma CountingCovers(p: RegistrationPayload, trusted: seq<PublicKey>, now: U64)
    requires OnePerNetwork(p) && ManifestsCover(p, trusted, now)
    ensures |ManifestNetworks(p)| == |CertificateNetworks(p)| <==> CertificatesCovered(p, trusted, now)
  {
    ManifestNetworksKnown(p, trusted, now);
    SubsetOfEqualSize(ManifestNetworks(p), CertificateNetworks(p));
    hide Covers;
    if ManifestNetworks(p) == CertificateNetworks(p) {
      forall i | 0 <= i < |p.certificates| ensures CoveredByOne(p, p.certificates[i], trusted, now) {
        assert p.certificates[i].claims.networkId in ManifestNetworks(p);
        var j :| 0 <= j < |p.manifests| && p.manifests[j].payload.networkId == p.certificates[i].claims.networkId;
        CoversItsOwn(p, trusted, now, i, j);
      }
    }
    if CertificatesCovered(p, trusted, now) {
      forall i | 0 <= i < |p.certificates| ensures p.certificates[i].claims.networkId in ManifestNetworks(p) {
        assert CoveredByOne(p, p.certificates[i], trusted, now);
        var j :| 0 <= j < |p.manifests| && Covers(p.manifests[j], p.certificates[i], trusted, now);
        CoversSameNetwork(p.manifests[j], p.certificates[i], trusted, now);
      }
      assert CertificateNetworks(p) <= ManifestNetworks(p);
    }
  }

  lemma CoversSameNetwork(m: AuthorizationManifest, c: MembershipCertificate,
                          trusted: seq<PublicKey>, now: U64)
    requires Covers(m, c, trusted, now)
    ensures m.payload.networkId == c.claims.networkId
  {
  }

  /** The `j`-th manifest is of no certificate's network, repeats a network, or is not from the
      trusted controller of its certificate. */
  ghost predicate Unusable(p: RegistrationPayload, trusted: seq<PublicKey>, now: U64, j: nat)
    requires j < |p.manifests|
  {
    var m := p.manifests[j];
    || (forall i :: 0 <= i < |p.certificates| ==> p.certificates[i].claims.networkId != m.payload.networkId)
    || (exists i :: 0 <= i < j && p.manifests[i].payload.networkId == m.payload.networkId)
    || (exists i :: 0 <= i < |p.certificates| && p.certificates[i].claims.networkId == m.payload.networkId
                    && (p.certificates[i].controllerKey != m.payload.controllerKey || !TrustedManifest(m, trusted,
                        now)))
  }

  /** The `j`-th manifest does not authorize the certificate of its network. */
  ghost predicate Revokes(p: RegistrationPayload, j: nat)
    requires j < |p.manifests|
  {
    exists i :: 0 <= i < |p.certificates|
      && p.certificates[i].claims.networkId == p.manifests[j].payload.networkId && !Authorizes(p.manifests[j],
          p.certificates[i])
  }

  /** `verify_authorization_set` */
  method VerifyAuthorizationSet(p: RegistrationPayload, trusted: seq<PublicKey>, now: U64, requireEvery: bool)
    returns (verdict: Outcome<RegistrationError>)
    ensures verdict.Pass? <==> AuthorizationSetHolds(p, trusted, now, requireEvery)
    ensures verdict == Fail(DuplicateMembership) <==> !OnePerNetwork(p)
    ensures verdict == Fail(MissingAuthorization) <==>
              && AuthorizationSetHolds(p, trusted, now, false)
              && requireEvery && !CertificatesCovered(p, trusted, now)
    ensures verdict == Fail(InvalidAuthorizationSet) ==> exists j: nat :: j < |p.manifests| && Unusable(p, trusted,
        now, j)
    ensures verdict == Fail(RevokedMembership) ==>
              exists j: nat :: j < |p.manifests| && !Unusable(p, trusted, now, j) && Revokes(p, j)
  {
    hide TrustedManifest, Authorizes;
    var indexed := IndexCertificates(p);
    if indexed.None? {
      return Fail(DuplicateMembership);
    }
    var certificates := indexed.value;
    var manifests: map<Uuid, AuthorizationManifest> := map[];
    for k := 0 to |p.manifests|
      invariant manifests.Keys == set j | 0 <= j < k :: p.manifests[j].payload.networkId
      invariant forall i, j :: 0 <= i < j < k ==> p.manifests[i].payload.networkId != p.manifests[j].payload.networkId
      invariant forall j :: 0 <= j < k ==> CoversOne(p.manifests[j], p, trusted, now)
    {
      var m := p.manifests[k];
      if m.payload.networkId !in certificates {
        assert Unusable(p, trusted, now, k);
        return Fail(InvalidAuthorizationSet);
      }
      var c := certificates[m.payload.networkId];
      if m.payload.networkId in manifests || m.payload.controllerKey != c.controllerKey || !TrustedManifest(m,
          trusted, now) {
        assert Unusable(p, trusted, now, k);
        return Fail(InvalidAuthorizationSet);
      }
      if !Authorizes(m, c) {
        assert Revokes(p, k) && !Unusable(p, trusted, now, k);
        return Fail(RevokedMembership);
      }
      manifests := manifests[m.payload.networkId := m];
    }
    assert manifests.Keys == ManifestNetworks(p);
    CountingCovers(p, trusted, now);
    if requireEvery && |manifests| != |certificates| {
      return Fail(MissingAuthorization);
    }
    return Pass;
  }

  // ----- Whole registrations

  ghost predicate AuthorizedRegistration(r: RootRegistration, trusted: seq<PublicKey>, now: U64, skew: U64,
                                         expected: Option<Target>)
  {
    MembershipHolds(r, trusted, now, skew, expected) && AuthorizationSetHolds(r.payload, trusted, now, true)
  }

  /** `verify_authorized` */
  method VerifyAuthorized(r: RootRegistration, trusted: seq<PublicKey>, now: U64, skew: U64)
    returns (verdict: Outcome<RegistrationError>)
    ensures verdict.Pass? <==> AuthorizedRegistration(r, trusted, now, skew, None)
  {
    verdict := VerifyMembership(r, trusted, now, skew, None);
    if verdict.Pass? {
      verdict := VerifyAuthorizationSet(r.payload, trusted, now, true);
    }
  }

  /** `verify_authorized_for_service` */
  method VerifyAuthorizedForService(r: RootRegistration, trusted: seq<PublicKey>, now: U64, skew: U64,
                                    kind: ServiceKind,
                                    serviceId: Uuid) returns (verdict: Outcome<RegistrationError>)
    ensures verdict.Pass? <==> AuthorizedRegistration(r, trusted, now, skew, Some(Target(kind, serviceId)))
    ensures verdict.Pass? ==> r.payload.target == Some(Target(kind, serviceId))
  {
    verdict := VerifyMembership(r, trusted, now, skew, Some(Target(kind, serviceId)));
    if verdict.Pass? {
      verdict := VerifyAuthorizationSet(r.payload, trusted, now, true);
    }
  }

  /** The manifest of a certificate. */
  ghost function ManifestFor(p: RegistrationPayload, trusted: seq<PublicKey>, now: U64, i: nat): (j: nat)
    requires AuthorizationSetHolds(p, trusted, now, true) && i < |p.certificates|
    ensures j < |p.manifests| && Covers(p.manifests[j], p.certificates[i], trusted, now)
  {
    assert CoveredByOne(p, p.certificates[i], trusted, now);
    var j :| 0 <= j < |p.manifests| && Covers(p.manifests[j], p.certificates[i], trusted, now);
    j
  }

  /** In an accepted registration certificates and manifests are in one-to-one correspondence:
      there are equally many, each certificate has exactly one manifest of its network, that
      manifest covers it, and no manifest serves two certificates. */
  lemma OneToOne(p: RegistrationPayload, trusted: seq<PublicKey>, now: U64)
    requires AuthorizationSetHolds(p, trusted, now, true)
    ensures |p.manifests| == |p.certificates|
    ensures forall i: nat, j: nat :: i < |p.certificates| && j < |p.manifests| ==>
              (p.manifests[j].payload.networkId == p.certificates[i].claims.networkId <==>
               j == ManifestFor(p, trusted, now, i))
    ensures forall i: nat, i': nat :: i < |p.certificates| && i' < |p.certificates| && i != i' ==>
              ManifestFor(p, trusted, now, i) != ManifestFor(p, trusted, now, i')
  {
    hide TrustedManifest, Authorizes;
    CountingCovers(p, trusted, now);
    CertificateCount(p);
    ManifestCount(p);
  }

  /** What trust rests on: the controller key of an accepted certificate is one of the trusted
      ones and signed the certificate, and it signed the payload of the certificate's own manifest,
      which is live and lists the certificate as active and unrevoked. */
  lemma AcceptedIsSigned(r: RootRegistration, trusted: seq<PublicKey>, now: U64, skew: U64, expected: Option<Target>,
                         i: nat)
    requires AuthorizedRegistration(r, trusted, now, skew, expected) && i < |r.payload.certificates|
    ensures var c := r.payload.certificates[i];
            var m := r.payload.manifests[ManifestFor(r.payload, trusted, now, i)];
            && c.controllerKey in trusted && ControllerSigned(c, c.controllerKey) && Unexpired(c, now)
            && c.claims.deviceId == r.payload.deviceId && c.claims.devicePublicKey == r.payload.devicePublicKey
            && m.payload.controllerKey == c.controllerKey
            && m.signature == SignedBy(SigningKey(c.controllerKey.seed), m.payload)
            && Authorization.Live(m.payload.issuedAt, m.payload.expiresAt, now)
            && Lists(m.payload, c)
  {
    var (p, c) := (r.payload, r.payload.certificates[i]);
    var m := p.manifests[ManifestFor(p, trusted, now, i)];
    hide VerifyCertificateFrom, VerifyManifest, Authorizes, AuthorizationSetHolds;
    assert OwnMembership(p, c, trusted, now) && Covers(m, c, trusted, now);
    var k :| 0 <= k < |trusted| && VerifyCertificateFrom(c, trusted[k], now).Pass?;
    AcceptedIffSigned(c, trusted[k], now);
    var l :| 0 <= l < |trusted| && VerifyManifest(m, trusted[l], now).Pass?;
    ManifestAcceptedIffSigned(m, trusted[l], now);
    AuthorizesIffListed(m, c);
  }

  function CertificateNetwork(c: MembershipCertificate): Uuid { c.claims.networkId }

  function ManifestNetwork(m: AuthorizationManifest): Uuid { m.payload.networkId }

  lemma CertificateCount(p: RegistrationPayload)
    requires OnePerNetwork(p)
    ensures |CertificateNetworks(p)| == |p.certificates|
  {
    var networks := Map(CertificateNetwork, p.certificates);
    assert forall i :: 0 <= i < |networks| ==> networks[i] == p.certificates[i].claims.networkId;
    DistinctIffAsMany(networks);
    assert CertificateNetworks(p) == Elements(networks);
  }

  lemma ManifestCount(p: RegistrationPayload)
    requires OneManifestPerNetwork(p)
    ensures |ManifestNetworks(p)| == |p.manifests|
  {
    var networks := Map(ManifestNetwork, p.manifests);
    assert forall i :: 0 <= i < |networks| ==> networks[i] == p.manifests[i].payload.networkId;
    DistinctIffAsMany(networks);
    assert ManifestNetworks(p) == Elements(networks);
  }

  // ----- Target binding

  /** `sign_authorized_for_service` and, without a target, `sign_authorized` */
  function SignRegistration(deviceId: Uuid, certificates: seq<MembershipCertificate>,
                            manifests: seq<AuthorizationManifest>,
                            candidates: seq<Endpoint>, issuedAt: U64, nonce: Bytes16, target: Option<Target>,
                                key: SigningKey)
    : RootRegistration
  {
    var p := RegistrationPayload(if target.None? then LEGACY_VERSION else TARGET_BOUND_VERSION, deviceId,
        VerifyingKey(key),
                                 certificates, manifests, candidates, issuedAt, nonce, target);
    RootRegistration(p, Sign(key, SignatureMessage(p).value))
  }

  /** A registration signed for one service is accepted by no other and not as a legacy one,
      and whatever its contents are worth at its own service they are worth under any name. */
  lemma AcceptedOnlyByItsTarget(deviceId: Uuid, certificates: seq<MembershipCertificate>,
                                manifests: seq<AuthorizationManifest>, candidates: seq<Endpoint>,
                                issuedAt: U64, nonce: Bytes16, target: Option<Target>,
                                     key: SigningKey,
                                trusted: seq<PublicKey>, now: U64, skew: U64,
                                     service: Option<Target>)
    ensures var r := SignRegistration(deviceId, certificates, manifests, candidates, issuedAt, nonce, target, key);
            AuthorizedRegistration(r, trusted, now, skew, service) <==>
              && service == target
              && AbsDiff(now, issuedAt) <= skew && certificates != []
              && (forall i :: 0 <= i < |certificates| ==> OwnMembership(r.payload, certificates[i], trusted, now))
              && AuthorizationSetHolds(r.payload, trusted, now, true)
  {
  }

  /** No forging of targets: what a service accepts is what the holder of the device key
      signed for that very service. */
  lemma TargetIsSigned(r: RootRegistration, trusted: seq<PublicKey>, now: U64, skew: U64,
                       service: Target)
    requires AuthorizedRegistration(r, trusted, now, skew, Some(service))
    ensures r.signature.SignedBy? && VerifyingKey(r.signature.signer) == r.payload.devicePublicKey
    ensures r.signature.message.TargetBound? && r.signature.message.payload.target == Some(service)
    ensures forall i :: 0 <= i < |r.payload.certificates| ==>
              r.payload.certificates[i].claims.devicePublicKey == VerifyingKey(r.signature.signer)
  {
    assert forall i :: 0 <= i < |r.payload.certificates| ==> OwnMembership(r.payload, r.payload.certificates[i],
        trusted, now);
  }
}
