/** Removing a member revokes, for good, every certificate issued before. */
module Revocation {
  import opened Wrappers
  import opened Bytes
  import opened Crypto
  import opened Membership
  import opened Authorization
  import opened ControllerModel
  import opened Signability
  import opened NormalPolicies
  import opened NetworkInvariants
  import opened ControllerRuns
  import opened ExampleNetworks
  import opened Cidr

  /** Some member of the network currently holds this certificate identifier. */
  ghost predicate Active(n: ManagedNetwork, certificateId: Uuid) {
    exists d :: d in n.certificateIds && n.certificateIds[d] == certificateId
  }

  /** Every certificate the controller handed out carries an identifier it drew, and while
      that identifier is active, an epoch the network has reached. */
  ghost predicate CertificatesInv(w: World) {
    forall c :: c in w.certificates ==>
      && c.certificateId in w.issuedIds
      && var id := c.claims.networkId;
      id in w.state.networks && Active(w.state.networks[id], c.certificateId) ==>
        c.networkKeyEpoch <= w.state.networks[id].networkKeyEpoch
  }

  ghost predicate WorldInv(w: World) {
    NetworksInv(w.state, w.issuedIds) && CertificatesInv(w)
  }

  // ----- Who may be authorized

  /** A manifest authorizes exactly the certificates of current members: right network, key,
      identifier and epoch, and not revoked. */
  lemma AuthorizedIffCurrent(n: ManagedNetwork, key: SigningKey, now: Clock,
                             c: MembershipCertificate)
    ensures Authorizes(SignAuthorization(n, key, now), c) <==>
              && c.claims.networkId == n.network.id
              && c.networkKeyEpoch == n.networkKeyEpoch
              && c.certificateId !in n.revoked
              && HasCertificate(n, c.claims.deviceId)
              && c.certificateId == n.certificateIds[c.claims.deviceId]
              && c.claims.devicePublicKey == n.members[c.claims.deviceId].devicePublicKey
  {
    SignedManifestLists(n.network.id, n.authorizationEpoch, n.networkKeyEpoch, ActiveMembers(n),
                        Enumerate(n.revoked.Keys), now, now + MANIFEST_LIFETIME, key, c);
    assert c.certificateId in Enumerate(n.revoked.Keys) <==> c.certificateId in n.revoked;
    if MembershipOf(c) in ActiveMembers(n) {
      var d :| d in n.members && d in n.certificateIds && MembershipOf(c) == ActiveMember(n, d);
    }
    if HasCertificate(n, c.claims.deviceId) && c.certificateId == n.certificateIds[c.claims.deviceId]
       && c.claims.devicePublicKey == n.members[c.claims.deviceId].devicePublicKey
       && c.networkKeyEpoch == n.networkKeyEpoch {
      assert MembershipOf(c) == ActiveMember(n, c.claims.deviceId);
    }
  }

  // ----- What is handed out

  /** A certificate of a current member at the current epoch. */
  ghost predicate Current(s: ControllerState, c: MembershipCertificate) {
    var id := c.claims.networkId;
    && id in s.networks
    && Active(s.networks[id], c.certificateId)
    && c.networkKeyEpoch == s.networks[id].networkKeyEpoch
  }

  lemma CertificateIsCurrent(s: ControllerState, id: Uuid, n: ManagedNetwork, d: Uuid,
                             key: SigningKey, now: Clock)
    requires id in s.networks && WellKeyed(n) && n.network.id == id && HasCertificate(n, d)
    requires s.networks[id].certificateIds == n.certificateIds && s.networks[id].networkKeyEpoch == n.networkKeyEpoch
    ensures Current(s, CertificateFor(n, d, key, now))
  {
    assert Active(s.networks[id], n.certificateIds[d]);
  }

  lemma ManifestIsCurrent(s: ControllerState, id: Uuid, n: ManagedNetwork, key: SigningKey,
                          now: Clock,
                          c: MembershipCertificate)
    requires id in s.networks && WellKeyed(n) && n.network.id == id && SignPolicy(n, key, now).Ok?
    requires s.networks[id].certificateIds == n.certificateIds && s.networks[id].networkKeyEpoch == n.networkKeyEpoch
    requires c in ManifestCertificates(Ok(SignPolicy(n, key, now).value))
    ensures Current(s, c)
  {
    SignedPolicyContents(n, key, now);
    CertificateIsCurrent(s, id, n, c.claims.deviceId, key, now);
  }

  lemma ReleasedIsCurrent(w: World, e: Event, c: MembershipCertificate)
    requires NetworksInv(w.state, w.issuedIds) && CanHappen(w, e)
    requires c in Released(w.state, e)
    ensures Current(NextState(w.state, e), c)
  {
    hide SignPolicy, AssignedAddresses, SignAuthorization, CompactPolicy, CertificateFor, Current;
    var s := w.state;
    match e.step
    case Join(r) =>
      NextKeepsNetworks(w, e);
      var id := r.networkId;
      assert NetworkInv(s.networks[id], id, w.issuedIds);
      var n' := NextState(s, e).networks[id];
      assert NetworkInv(n', id, Next(w, e).issuedIds);
      CertificateIsCurrent(NextState(s, e), id, n', r.deviceId, s.signingKey, e.now);
    case ChangePolicy(supplied, id, policy) =>
      assert NetworkInv(s.networks[id], id, w.issuedIds);
      var candidate := Candidate(s.networks[id], policy);
      ManifestIsCurrent(NextState(s, e), id, candidate, s.signingKey, e.now, c);
    case ReadPolicy(id) =>
      assert NetworkInv(s.networks[id], id, w.issuedIds);
      ManifestIsCurrent(s, id, s.networks[id], s.signingKey, e.now, c);
    case Refresh(refresh, _, answeredAt) =>
      var id := refresh.payload.networkId;
      assert NetworkInv(s.networks[id], id, w.issuedIds);
      CertificateIsCurrent(s, id, s.networks[id], refresh.payload.deviceId, s.signingKey, answeredAt);
    case _ =>
  }

  // ----- Identifiers do not come back

  /** An identifier drawn earlier is active after a request only if it was active before. */
  lemma NothingReactivates(w: World, e: Event, id: Uuid, certificateId: Uuid)
    requires NetworksInv(w.state, w.issuedIds) && CanHappen(w, e) && certificateId in w.issuedIds
    requires id in NextState(w.state, e).networks && Active(NextState(w.state, e).networks[id], certificateId)
    ensures id in w.state.networks && Active(w.state.networks[id], certificateId)
    ensures w.state.networks[id].networkKeyEpoch <= NextState(w.state, e).networks[id].networkKeyEpoch
  {
    var s := w.state;
    var n' := NextState(s, e).networks[id];
    var d :| d in n'.certificateIds && n'.certificateIds[d] == certificateId;
    if id !in s.networks {
      NextNew(s, e, id);
      assert false;
    } else if Spares(id, e) {
      NextChange(s, e, id);
      NextEvolves(s, e, id);
      ChangedIds(s.networks[id], n', id, e, s.signingKey, d);
    } else {
      NextDeleted(s, e, id);
    }
  }

  lemma ChangedIds(n: ManagedNetwork, n': ManagedNetwork, id: Uuid, e: Event, key: SigningKey,
                   d: Uuid)
    requires Change(n, n', id, e, key) && d in n'.certificateIds
    ensures n'.certificateIds[d] == e.freshId || (d in n.certificateIds && n.certificateIds[d] == n'.certificateIds[d])
  {
    hide SignPolicy, AssignedAddresses, CompactPolicy, Without, AllowedWith, RequestedRoutes;
  }

  lemma NextKeepsWorld(w: World, e: Event)
    requires WorldInv(w) && CanHappen(w, e)
    ensures WorldInv(Next(w, e))
  {
    NextKeepsNetworks(w, e);
    var w' := Next(w, e);
    hide NextState, NetworksInv, Released;
    forall c | c in w'.certificates
      ensures c.certificateId in w'.issuedIds
      ensures c.claims.networkId in w'.state.networks && Active(w'.state.networks[c.claims.networkId],
          c.certificateId) ==>
                c.networkKeyEpoch <= w'.state.networks[c.claims.networkId].networkKeyEpoch
    {
      var id := c.claims.networkId;
      if c in w.certificates {
        if id in w'.state.networks && Active(w'.state.networks[id], c.certificateId) {
          NothingReactivates(w, e, id, c.certificateId);
        }
      } else {
        ReleasedIsCurrent(w, e, c);
        ActiveWasIssued(w', id, c.certificateId);
      }
    }
  }

  lemma ActiveWasIssued(w: World, id: Uuid, certificateId: Uuid)
    requires NetworksInv(w.state, w.issuedIds)
    requires id in w.state.networks && Active(w.state.networks[id], certificateId)
    ensures certificateId in w.issuedIds
  {
    assert NetworkInv(w.state.networks[id], id, w.issuedIds);
  }

  lemma {:induction false} RunKeepsWorld(w: World, events: seq<Event>)
    requires WorldInv(w) && Runs(w, events)
    ensures WorldInv(Run(w, events))
    decreases events
  {
    hide Next, WorldInv, CanHappen;
    if events == [] {
    } else {
      NextKeepsWorld(w, events[0]);
      RunKeepsWorld(Next(w, events[0]), events[1..]);
    }
  }

  // ----- Revocation

  /** Nothing that can still happen will make this certificate authorized in its network. */
  ghost predicate Barred(w: World, c: MembershipCertificate) {
    && c.certificateId in w.issuedIds
    && var id := c.claims.networkId;
    id in w.state.networks && Active(w.state.networks[id], c.certificateId) ==>
      c.networkKeyEpoch < w.state.networks[id].networkKeyEpoch
  }

  lemma BarredIsNotAuthorized(w: World, c: MembershipCertificate, now: Clock)
    requires NetworksInv(w.state, w.issuedIds) && Barred(w, c) && c.claims.networkId in w.state.networks
    ensures !Authorizes(SignAuthorization(w.state.networks[c.claims.networkId], w.state.signingKey, now), c)
  {
    var n := w.state.networks[c.claims.networkId];
    AuthorizedIffCurrent(n, w.state.signingKey, now, c);
    if HasCertificate(n, c.claims.deviceId) && c.certificateId == n.certificateIds[c.claims.deviceId] {
      assert Active(n, c.certificateId);
    }
  }

  lemma {:induction false} BarredStays(w: World, events: seq<Event>, c: MembershipCertificate)
    requires WorldInv(w) && Runs(w, events) && Barred(w, c)
    ensures Barred(Run(w, events), c)
    decreases events
  {
    hide NextState, NetworksInv, Released, CertificatesInv, Active;
    if events == [] {
    } else {
      var (e, id) := (events[0], c.claims.networkId);
      NextKeepsWorld(w, e);
      if id in NextState(w.state, e).networks && Active(NextState(w.state, e).networks[id], c.certificateId) {
        NothingReactivates(w, e, id, c.certificateId);
      }
      BarredStays(Next(w, e), events[1..], c);
    }
  }

  ghost predicate Removes(w: World, e: Event, id: Uuid, device: Uuid) {
    && e.step.Remove? && e.step.networkId == id && e.step.device == device
    && IsAdmin(w.state, e.step.supplied)
    && id in w.state.networks && device in w.state.networks[id].members
  }

  /** A certificate is out of reach of a removal only at the last key epoch, and then only if
      it is another member's. */
  ghost predicate Reached(n: ManagedNetwork, device: Uuid, c: MembershipCertificate) {
    n.networkKeyEpoch < U64_MAX || (device in n.certificateIds && n.certificateIds[device] == c.certificateId)
  }

  lemma RemovedIds(n: ManagedNetwork, issued: set<Uuid>, device: Uuid, now: Clock, networkKey: NetworkKey,
                   c: MembershipCertificate)
    requires IdentityInv(n, issued) && Reached(n, device, c)
    requires Active(n, c.certificateId) ==> c.networkKeyEpoch <= n.networkKeyEpoch
    requires Active(Removed(n, device, now, networkKey), c.certificateId)
    ensures c.networkKeyEpoch < Removed(n, device, now, networkKey).networkKeyEpoch
  {
    hide Without;
    var n' := Removed(n, device, now, networkKey);
    var d :| d in n'.certificateIds && n'.certificateIds[d] == c.certificateId;
    assert d in n.certificateIds && n.certificateIds[d] == c.certificateId;
  }

  lemma RemovalBars(w: World, e: Event, id: Uuid, device: Uuid, c: MembershipCertificate)
    requires WorldInv(w) && CanHappen(w, e) && Removes(w, e, id, device)
    requires c in w.certificates && c.claims.networkId == id && Reached(w.state.networks[id], device, c)
    ensures Barred(Next(w, e), c)
  {
    hide Removed, Released, NetworkInv, IdentityInv, Active, Reached, NextState;
    var n := w.state.networks[id];
    assert NetworkInv(n, id, w.issuedIds);
    IdentityHolds(n, id, w.issuedIds);
    RemovalStep(w.state, e, id, device);
    if Active(NextState(w.state, e).networks[id], c.certificateId) {
      RemovedIds(n, w.issuedIds, device, e.now, e.step.networkKey, c);
    }
  }

  lemma RemovalStep(s: ControllerState, e: Event, id: Uuid, device: Uuid)
    requires e.step.Remove? && e.step.networkId == id && e.step.device == device && IsAdmin(s, e.step.supplied)
    requires id in s.networks && device in s.networks[id].members
    ensures id in NextState(s, e).networks
    ensures NextState(s, e).networks[id] == Removed(s.networks[id], device, e.now, e.step.networkKey)
  {
    hide Removed;
  }

  lemma IdentityHolds(n: ManagedNetwork, id: Uuid, issued: set<Uuid>)
    requires NetworkInv(n, id, issued)
    ensures IdentityInv(n, issued)
  {
  }

  /** Revocation is forever: a certificate of the network handed out before a removal that
      reaches it is authorized by no manifest signed after it, whatever happens in between,
      including new enrollments of the device and deletion and re-creation of the network. */
  lemma RevocationIsForever(key: SigningKey, adminToken: string, before: seq<Event>, e: Event,
                            after: seq<Event>, id: Uuid, device: Uuid,
                            c: MembershipCertificate, now: Clock)
    requires Runs(Initial(key, adminToken), before)
    requires var w := Run(Initial(key, adminToken), before);
             && CanHappen(w, e) && Removes(w, e, id, device) && Runs(Next(w, e), after)
             && c in w.certificates && c.claims.networkId == id
             && Reached(w.state.networks[id], device, c)
    ensures var w' := Run(Next(Run(Initial(key, adminToken), before), e), after);
            id in w'.state.networks ==>
              !Authorizes(SignAuthorization(w'.state.networks[id], w'.state.signingKey, now), c)
  {
    var w0 := Initial(key, adminToken);
    assert WorldInv(w0);
    RunKeepsWorld(w0, before);
    var w := Run(w0, before);
    hide Initial, Run, Runs, NextState, Released, SignAuthorization, Reached;
    RemovalBars(w, e, id, device, c);
    NextKeepsWorld(w, e);
    BarredStays(Next(w, e), after, c);
    RunKeepsWorld(Next(w, e), after);
    var w' := Run(Next(w, e), after);
    if id in w'.state.networks {
      BarredIsNotAuthorized(w', c, now);
    }
  }

  /** The condition is exact: a certificate authorized before a removal stops being authorized
      right after it if and only if the removal reaches it. */
  lemma RemovalRevokesIffReached(n: ManagedNetwork, id: Uuid, issued: set<Uuid>, device: Uuid,
                                 key: SigningKey, t: Clock, t': Clock, networkKey: NetworkKey,
                                 c: MembershipCertificate)
    requires NetworkInv(n, id, issued) && device in n.members
    requires Authorizes(SignAuthorization(n, key, t), c)
    ensures !Authorizes(SignAuthorization(Removed(n, device, t, networkKey), key, t'), c) <==> Reached(n, device, c)
  {
    AuthorizedIffCurrent(n, key, t, c);
    var n' := Removed(n, device, t, networkKey);
    AuthorizedIffCurrent(n', key, t', c);
    hide SignAuthorization, Without, Authorizes, IsNormal;
    var d := c.claims.deviceId;
    assert d in n.certificateIds && n.certificateIds[d] == c.certificateId;
    if n.networkKeyEpoch == U64_MAX && d != device {
      assert n.certificateIds[device] != n.certificateIds[d];
    }
  }

  /** At the last key epoch the expectation fails: whatever the addresses and keys, the other
      member's certificate from before the removal is still authorized after it. */
  lemma SaturatedRemovalMissesOthers(home: IpNet, first: IpAddr, second: IpAddr, deviceKey: PublicKey,
                                     key: SigningKey, t: Clock, t': Clock, networkKey: NetworkKey)
    requires V4Host(home, first) && V4Host(home, second) && first != second
    ensures var n := Saturated(home, first, second, deviceKey);
            var c := CertificateFor(n, 2, key, t);
            && NetworkInv(n, NETWORK, {3, 4})
            && Authorizes(SignAuthorization(n, key, t), c)
            && Authorizes(SignAuthorization(Removed(n, 1, t, networkKey), key, t'), c)
  {
    var n := Saturated(home, first, second, deviceKey);
    var c := CertificateFor(n, 2, key, t);
    SaturatedInv(home, first, second, deviceKey, {3, 4});
    AuthorizedIffCurrent(n, key, t, c);
    assert !Reached(n, 1, c);
    hide SignAuthorization, Authorizes, Removed, NetworkInv, V4Host;
    RemovalRevokesIffReached(n, NETWORK, {3, 4}, 1, key, t, t', networkKey, c);
  }

  /** In particular for 10.0.0.1 and 10.0.0.2 in 10.0.0.0/24. */
  lemma SaturatedHomeNetwork(key: SigningKey, t: Clock, t': Clock, networkKey: NetworkKey)
    ensures var n := Saturated(Home(), HomeAddress(1), HomeAddress(2), Ed25519(1));
            var c := CertificateFor(n, 2, key, t);
            && NetworkInv(n, NETWORK, {3, 4})
            && Authorizes(SignAuthorization(n, key, t), c)
            && Authorizes(SignAuthorization(Removed(n, 1, t, networkKey), key, t'), c)
  {
    hide SignAuthorization, Authorizes, Removed, NetworkInv, V4Host, Home;
    SaturatedRemovalMissesOthers(Home(), HomeAddress(1), HomeAddress(2), Ed25519(1), key, t, t', networkKey);
  }
}
