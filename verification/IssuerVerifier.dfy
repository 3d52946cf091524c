/** What the controller signs is what a member accepts. */
module IssuerVerifier {
  import opened Wrappers
  import opened Bytes
  import opened Crypto
  import opened Membership
  import opened Authorization
  import opened Policy
  import opened ControllerModel
  import opened Signability
  import opened NormalPolicies
  import opened NetworkInvariants
  import opened ControllerRuns
  import opened Revocation

  /** When a member may still use what was signed at `signedAt`: from two minutes before, for
      its own clock may be slow, until it expires. */
  predicate InLifetime(signedAt: Clock, now: U64) {
    signedAt <= now + 120 && now <= signedAt + 90
  }

  lemma AuthorizationVerifies(n: ManagedNetwork, key: SigningKey, signedAt: Clock, now: U64)
    ensures VerifyManifest(SignAuthorization(n, key, signedAt), VerifyingKey(key), now).Pass? <==>
        InLifetime(signedAt, now)
    ensures SignAuthorization(n, key, signedAt).payload.networkId == n.network.id
  {
    hide ActiveMembers, Enumerate;
    SignedManifestVerifies(n.network.id, n.authorizationEpoch, n.networkKeyEpoch, ActiveMembers(n),
                           Enumerate(n.revoked.Keys), signedAt, signedAt + MANIFEST_LIFETIME, key, now);
  }

  /** The certificate a member is given at an instant, field by field. */
  lemma CertificateIsExact(n: ManagedNetwork, d: Uuid, key: SigningKey, now: Clock)
    requires HasCertificate(n, d)
    ensures var c := CertificateFor(n, d, key, now);
            && c.version == 1 && c.certificateId == n.certificateIds[d] && c.networkKeyEpoch == n.networkKeyEpoch
            && c.claims == n.members[d].(issuedAt := now, expiresAt := Some(now + 86_400))
            && ControllerSigned(c, VerifyingKey(key))
  {
  }

  /** A current member's certificate passes every check on a gateway for exactly a day. */
  lemma CurrentGatewayOk(n: ManagedNetwork, id: Uuid, issued: set<Uuid>, d: Uuid, key: SigningKey,
                         policyAt: Clock, authorizedAt: Clock, now: U64)
    requires NetworkInv(n, id, issued) && HasCertificate(n, d)
    ensures GatewayOk(CertificateFor(n, d, key, policyAt), id, VerifyingKey(key),
                      SignAuthorization(n, key, authorizedAt), now) <==>
            now <= policyAt + 86_400
  {
    hide IsNormal, AddressInv, SignAuthorization, Authorizes, VerifyCertificateFrom;
    var c := CertificateFor(n, d, key, policyAt);
    SignedCertificateVerifies(c.claims, c.certificateId, c.networkKeyEpoch, key, VerifyingKey(key), now);
    AuthorizedIffCurrent(n, key, authorizedAt, c);
  }

  /** The payload of a signed policy passes every check that looks at its form. */
  lemma SignedPolicyForm(n: ManagedNetwork, key: SigningKey, policyAt: Clock)
    requires SignPolicy(n, key, policyAt).Ok?
    ensures var m := SignPolicy(n, key, policyAt).value;
            && WellFormedFor(m, n.network.id, VerifyingKey(key))
            && m.payload.version == (if m.payload.exitNodes == [] then 1 else 2)
            && m.payload.policyEpoch == n.policyEpoch
            && m.payload.issuedAt == policyAt && m.payload.expiresAt == policyAt + MANIFEST_LIFETIME
  {
    hide ValidateNormalized, BuildRoutes, BuildExits, PrintedRoutes;
  }

  /** Issuer and verifier agree: a policy and an authorization manifest signed from the same
      network state are accepted together at exactly the instants in both lifetimes, and
      against exactly the smaller previous epochs. */
  lemma AcceptedExactly(n: ManagedNetwork, id: Uuid, issued: set<Uuid>, key: SigningKey,
                        policyAt: Clock, authorizedAt: Clock, now: U64, previous: Option<U64>)
    requires NetworkInv(n, id, issued) && SignPolicy(n, key, policyAt).Ok?
    ensures VerifyForNetwork(SignPolicy(n, key, policyAt).value, id, VerifyingKey(key),
                             SignAuthorization(n, key, authorizedAt), now, previous).Pass? <==>
              && InLifetime(policyAt, now) && InLifetime(authorizedAt, now)
              && (previous.Some? ==> previous.value < n.policyEpoch)
  {
    SignedPolicyForm(n, key, policyAt);
    AuthorizationVerifies(n, key, authorizedAt, now);
    NetworkIdOf(n, id, issued);
    var (m, a) := (SignPolicy(n, key, policyAt).value, SignAuthorization(n, key, authorizedAt));
    hide SignPolicy, SignAuthorization, NetworkInv, VerifyManifest, WellFormedFor, GatewaysOk, VerifyForNetwork;
    VerifyIsExact(m, id, VerifyingKey(key), a, now, previous);
    if InLifetime(policyAt, now) {
      SignedGatewaysOk(n, id, issued, key, policyAt, authorizedAt, now);
    }
  }

  lemma SignedGatewaysOk(n: ManagedNetwork, id: Uuid, issued: set<Uuid>, key: SigningKey,
                         policyAt: Clock, authorizedAt: Clock, now: U64)
    requires NetworkInv(n, id, issued) && SignPolicy(n, key, policyAt).Ok? && now <= policyAt + DAY
    ensures GatewaysOk(SignPolicy(n, key, policyAt).value.payload, id, VerifyingKey(key),
                       SignAuthorization(n, key, authorizedAt), now)
  {
    SignedPolicyContents(n, key, policyAt);
    hide SignPolicy, SignAuthorization, NetworkInv, CompactPolicy, NormalForm, GatewayOk, CertificateFor, RouteCovered;
    var (m, a) := (SignPolicy(n, key, policyAt).value, SignAuthorization(n, key, authorizedAt));
    forall i | 0 <= i < |m.payload.routes|
      ensures GatewayOk(m.payload.routes[i].gateway, id, VerifyingKey(key), a, now)
      ensures RouteCovered(m.payload.routes[i])
    {
      assert CurrentGateway(n, m.payload.routes[i], key, policyAt);
      CurrentGatewayOk(n, id, issued, m.payload.routes[i].gateway.claims.deviceId, key, policyAt, authorizedAt, now);
    }
    forall i | 0 <= i < |m.payload.exitNodes|
      ensures GatewayOk(m.payload.exitNodes[i].gateway, id, VerifyingKey(key), a, now)
    {
      CurrentGatewayOk(n, id, issued, m.payload.exitNodes[i].gateway.claims.deviceId, key, policyAt, authorizedAt, now);
    }
  }

  lemma NetworkIdOf(n: ManagedNetwork, id: Uuid, issued: set<Uuid>)
    requires NetworkInv(n, id, issued)
    ensures n.network.id == id
  {
  }

  /** The same for every network of every reachable controller. */
  lemma ReachableManifestsAreAccepted(key: SigningKey, adminToken: string, events: seq<Event>,
                                      id: Uuid,
                                      policyAt: Clock, authorizedAt: Clock, now: U64,
                                           previous: Option<U64>)
    requires Runs(Initial(key, adminToken), events)
    requires var s := Run(Initial(key, adminToken), events).state;
             id in s.networks && SignPolicy(s.networks[id], s.signingKey, policyAt).Ok?
    ensures var s := Run(Initial(key, adminToken), events).state;
            VerifyForNetwork(SignPolicy(s.networks[id], s.signingKey, policyAt).value, id, VerifyingKey(s.signingKey),
                             SignAuthorization(s.networks[id], s.signingKey, authorizedAt), now, previous).Pass? <==>
              && InLifetime(policyAt, now) && InLifetime(authorizedAt, now)
              && (previous.Some? ==> previous.value < s.networks[id].policyEpoch)
  {
    RunKeepsNetworks(Initial(key, adminToken), events);
    var w := Run(Initial(key, adminToken), events);
    hide Run, Runs, SignPolicy, SignAuthorization, VerifyForNetwork, NetworkInv, InLifetime;
    AcceptedExactly(w.state.networks[id], id, w.issuedIds, w.state.signingKey, policyAt, authorizedAt, now, previous);
  }

  /** The certificate is the gateway of a route or of an exit candidate. */
  ghost predicate Names(m: PolicyManifest, c: MembershipCertificate) {
    || (exists i :: 0 <= i < |m.payload.routes| && m.payload.routes[i].gateway == c)
    || (exists i :: 0 <= i < |m.payload.exitNodes| && m.payload.exitNodes[i].gateway == c)
  }

  lemma UnauthorizedGatewayIsRefused(m: PolicyManifest, c: MembershipCertificate, id: Uuid, trusted: PublicKey,
                                     a: AuthorizationManifest, now: U64, previous: Option<U64>)
    requires Names(m, c) && !Authorizes(a, c)
    ensures VerifyForNetwork(m, id, trusted, a, now, previous).Fail?
  {
    VerifyIsExact(m, id, trusted, a, now, previous);
    hide VerifyForNetwork, VerifyManifest, WellFormedFor, Authorizes, VerifyCertificateFrom, RouteCovered;
    assert forall i :: 0 <= i < |m.payload.routes| && m.payload.routes[i].gateway == c ==>
        !GatewayOk(m.payload.routes[i].gateway, id, trusted, a, now);
    assert forall i :: 0 <= i < |m.payload.exitNodes| && m.payload.exitNodes[i].gateway == c ==>
        !GatewayOk(m.payload.exitNodes[i].gateway, id, trusted, a, now);
  }

  /** A policy that names a certificate handed out before a removal that reaches it, be it of
      the removed member or of another, is refused by whoever holds any authorization manifest
      signed after the removal, in every continuation of the run. */
  lemma StalePolicyIsRefused(key: SigningKey, adminToken: string, before: seq<Event>, e: Event,
                             after: seq<Event>, id: Uuid, device: Uuid, m: PolicyManifest,
                             c: MembershipCertificate, authorizedAt: Clock, now: U64,
                             previous: Option<U64>, trusted: PublicKey)
    requires Runs(Initial(key, adminToken), before) && Names(m, c)
    requires var w := Run(Initial(key, adminToken), before);
             && CanHappen(w, e) && Removes(w, e, id, device) && Runs(Next(w, e), after)
             && c in w.certificates && c.claims.networkId == id && Reached(w.state.networks[id], device, c)
    ensures var w' := Run(Next(Run(Initial(key, adminToken), before), e), after);
            id in w'.state.networks ==>
              VerifyForNetwork(m, id, trusted,
                               SignAuthorization(w'.state.networks[id], w'.state.signingKey, authorizedAt),
                               now, previous).Fail?
  {
    RevocationIsForever(key, adminToken, before, e, after, id, device, c, authorizedAt);
    var w' := Run(Next(Run(Initial(key, adminToken), before), e), after);
    hide Run, Runs, Next, Initial, SignAuthorization, Authorizes, VerifyForNetwork, Removes, Reached, Names;
    if id in w'.state.networks {
      var a := SignAuthorization(w'.state.networks[id], w'.state.signingKey, authorizedAt);
      UnauthorizedGatewayIsRefused(m, c, id, trusted, a, now, previous);
    }
  }

  /** The certificate is of this device of the network, with its key, its addresses and the
      network's epoch, dated now; it is good for exactly a day, and the manifest with it is of the
      network's current epochs and in force for exactly its lifetime. */
  ghost predicate InOrder(n: ManagedNetwork, id: Uuid, device: Uuid, key: SigningKey, signedAt: Clock,
                          c: MembershipCertificate, a: AuthorizationManifest, now: U64)
  {
    && HasCertificate(n, device)
    && c.claims == n.members[device].(issuedAt := signedAt, expiresAt := Some(signedAt + 86_400))
    && c.claims.deviceId == device && c.claims.networkId == id && OwnAddresses(n.network, c.claims.assignedAddresses)
    && c.networkKeyEpoch == n.networkKeyEpoch && c.certificateId == n.certificateIds[device]
    && (GatewayOk(c, id, VerifyingKey(key), a, now) <==> now <= signedAt + 86_400)
    && a.payload.networkId == id && a.payload.authorizationEpoch == n.authorizationEpoch
    && a.payload.networkKeyEpoch == n.networkKeyEpoch
    && (VerifyManifest(a, VerifyingKey(key), now).Pass? <==> InLifetime(signedAt, now))
  }

  lemma IssuedIsInOrder(n: ManagedNetwork, id: Uuid, issued: set<Uuid>, device: Uuid, key: SigningKey,
                        signedAt: Clock, now: U64)
    requires NetworkInv(n, id, issued) && HasCertificate(n, device)
    ensures InOrder(n, id, device, key, signedAt, CertificateFor(n, device, key, signedAt),
                    SignAuthorization(n, key, signedAt), now)
  {
    CertificateIsExact(n, device, key, signedAt);
    CurrentGatewayOk(n, id, issued, device, key, signedAt, signedAt, now);
    AuthorizationVerifies(n, key, signedAt, now);
    SignedEpochs(n, key, signedAt);
    hide CertificateFor, SignAuthorization, GatewayOk, VerifyManifest, OwnAddresses, IsNormal;
  }

  /** A signed authorization manifest carries the network's epochs, in its payload and its hint. */
  lemma SignedEpochs(n: ManagedNetwork, key: SigningKey, now: Clock)
    ensures var a := SignAuthorization(n, key, now);
            && a.payload.networkId == n.network.id
            && a.payload.authorizationEpoch == n.authorizationEpoch && a.payload.networkKeyEpoch == n.networkKeyEpoch
            && a.payload.issuedAt == now && a.payload.expiresAt == now + 90
            && a.epochHint.Some? && HintSigned(a.epochHint.value, a.payload, VerifyingKey(key))
            && a.epochHint.value.payload.expiresAt == now + 90
  {
    hide ActiveMembers, Enumerate;
  }

  /** What a member is given on enrollment is in order. */
  lemma EnrollmentIsUsable(w: World, e: Event, now: U64)
    requires NetworksInv(w.state, w.issuedIds) && CanHappen(w, e) && e.step.Join?
    requires Enroll(w.state, e.step.enrollment, e.now, e.freshId).1.Ok?
    ensures var r := e.step.enrollment;
            var (s', given) := Enroll(w.state, r, e.now, e.freshId);
            && r.networkId in s'.networks && given.value.certificate.claims.devicePublicKey == r.devicePublicKey
            && InOrder(s'.networks[r.networkId], r.networkId, r.deviceId, w.state.signingKey, e.now,
                       given.value.certificate, given.value.authorization, now)
  {
    hide AssignedAddresses, SignAuthorization, InOrder, NetworkInv, Released;
    NextKeepsNetworks(w, e);
    var r := e.step.enrollment;
    var n' := Next(w, e).state.networks[r.networkId];
    assert NetworkInv(n', r.networkId, Next(w, e).issuedIds);
    IssuedIsInOrder(n', r.networkId, Next(w, e).issuedIds, r.deviceId, w.state.signingKey, e.now, now);
  }

  /** What a member is given on a refresh is in order, and so is its traffic key. */
  lemma RefreshIsUsable(s: ControllerState, issued: set<Uuid>, r: RefreshRequest, answeredAt: Clock, now: U64)
    requires NetworksInv(s, issued)
    requires r.payload.networkId in s.networks && HasCertificate(s.networks[r.payload.networkId], r.payload.deviceId)
    ensures var (n, given) := (s.networks[r.payload.networkId], RefreshAnswer(s, r, answeredAt));
            && given.networkKey == n.networkKey
            && InOrder(n, r.payload.networkId, r.payload.deviceId, s.signingKey, answeredAt, given.certificate,
                       given.authorization, now)
  {
    hide SignAuthorization, CertificateFor, InOrder, NetworkInv;
    var n := s.networks[r.payload.networkId];
    assert NetworkInv(n, r.payload.networkId, issued);
    IssuedIsInOrder(n, r.payload.networkId, issued, r.payload.deviceId, s.signingKey, answeredAt, now);
  }
}
