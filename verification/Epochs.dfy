/** What equal epochs mean.

A member compares the epoch of a manifest with the one it holds.  Equal authorization epochs mean
the same authorized certificates.  Equal policy epochs mean the same routes, exit candidates and
DNS settings, but not the same gateway certificates: a removal raises their key epoch, and route
authorization changes their allowed routes, without the policy epoch.
*/
module Epochs {
  import opened Wrappers
  import opened Bytes
  import opened Cidr
  import opened Crypto
  import opened Membership
  import opened Authorization
  import opened ControllerModel
  import opened NetworkInvariants
  import opened ControllerRuns
  import PolicyEditing
  import IssuerVerifier
  import opened Revocation
  import opened Sorting

  ghost predicate SameDeviceKeys(n: ManagedNetwork, n': ManagedNetwork) {
    && n'.members.Keys == n.members.Keys
    && forall d :: d in n.members ==> n'.members[d].devicePublicKey == n.members[d].devicePublicKey
  }

  /** Short of saturation, a policy changes only with its epoch, the traffic key with the key
      epoch, and who is authorized with the authorization epoch. */
  ghost predicate Tracked(n: ManagedNetwork, n': ManagedNetwork) {
    && (n'.policyEpoch == n.policyEpoch < U64_MAX ==> n'.policy == n.policy)
    && (n'.networkKeyEpoch == n.networkKeyEpoch < U64_MAX ==> n'.networkKey == n.networkKey && n'.revoked == n.revoked)
    && (n'.authorizationEpoch == n.authorizationEpoch < U64_MAX ==>
          && n'.certificateIds == n.certificateIds && n'.revoked == n.revoked
          && n'.networkKeyEpoch == n.networkKeyEpoch && SameDeviceKeys(n, n'))
  }

  lemma RemovedTracked(n: ManagedNetwork, device: Uuid, now: Clock, networkKey: NetworkKey)
    ensures Tracked(n, Removed(n, device, now, networkKey))
  {
    FilterFacts((r: ManagedPolicyRoute) => RoutedElsewhere(device, r), n.policy.routes);
    FilterFacts((x: ManagedExitNode) => ExitElsewhere(device, x), n.policy.exitNodes);
  }

  lemma OthersTracked(n: ManagedNetwork, r: EnrollmentRequest, a: seq<IpAddr>, now: Clock,
                      freshId: Uuid, device: Uuid, allowed: seq<PrefixText>,
                      request: ManagedPolicy, policy: ManagedPolicy)
    ensures Tracked(n, Enrolled(n, r, a, now, freshId))
    ensures device in n.members ==> Tracked(n, Reauthorized(n, device, allowed, now))
    ensures Tracked(n, Candidate(n, request).(policy := policy))
  {
    hide NetworkPrefixes;
    if device in n.members {
      assert Reauthorized(n, device, allowed, now).members.Keys == n.members.Keys;
    }
  }

  lemma ChangeTracked(n: ManagedNetwork, n': ManagedNetwork, id: Uuid, e: Event, key: SigningKey)
    requires Change(n, n', id, e, key)
    ensures Tracked(n, n')
  {
    if n' != n {
      hide Tracked, SignPolicy, AssignedAddresses, CompactPolicy, Removed, Enrolled, Reauthorized, Candidate, AllowedWith,
           RequestedRoutes;
      var (none, p) := (EnrollmentRequest(0, 0, WrongLength(0), None), n.policy);
      match e.step
      case Join(r) =>
        OthersTracked(n, r, AssignedAddresses(n.network, n.members, r.deviceId).value, e.now, e.freshId, 0, [], p, p);
      case AllowRoutes(_, _, device, requested) =>
        OthersTracked(n, none, [], e.now, 0, device, AllowedWith(n, RequestedRoutes(requested).value), p, p);
      case ChangePolicy(_, _, policy) =>
        OthersTracked(n, none, [], e.now, 0, 0, [], policy,
                      CompactPolicy(SignPolicy(Candidate(n, policy), key, e.now).value));
      case Remove(_, _, device, networkKey) =>
        RemovedTracked(n, device, e.now, networkKey);
      case _ =>
    }
  }

  lemma TrackedThrough(a: ManagedNetwork, b: ManagedNetwork, c: ManagedNetwork)
    requires Tracked(a, b) && Evolves(a, b) && Tracked(b, c) && Evolves(b, c)
    ensures Tracked(a, c)
  {
  }

  /** Over every run that does not delete a network, its epochs track what its manifests say. */
  lemma {:induction false} EpochsTrack(w: World, events: seq<Event>, id: Uuid)
    requires id in w.state.networks
    requires forall i :: 0 <= i < |events| ==> Spares(id, events[i])
    ensures id in Run(w, events).state.networks
    ensures Tracked(w.state.networks[id], Run(w, events).state.networks[id])
    decreases events
  {
    EpochsNeverDecrease(w, events, id);
    if events == [] {
    } else {
      var (e, rest) := (events[0], events[1..]);
      assert Spares(id, e);
      NextChange(w.state, e, id);
      NextEvolves(w.state, e, id);
      hide NextState, Released, Tracked, Evolves, Change;
      var (n, n') := (w.state.networks[id], NextState(w.state, e).networks[id]);
      ChangeTracked(n, n', id, e, w.state.signingKey);
      forall i | 0 <= i < |rest| ensures Spares(id, rest[i]) {
        assert rest[i] == events[i + 1];
      }
      EpochsTrack(Next(w, e), rest, id);
      EpochsNeverDecrease(Next(w, e), rest, id);
      TrackedThrough(n, n', Run(Next(w, e), rest).state.networks[id]);
    }
  }

  /** Manifests signed later in a run that does not delete the network never carry a smaller
      epoch of either kind. */
  lemma ManifestEpochsNeverDecrease(w: World, events: seq<Event>, id: Uuid, t: Clock, t': Clock, key: SigningKey)
    requires id in w.state.networks
    requires forall i :: 0 <= i < |events| ==> Spares(id, events[i])
    ensures id in Run(w, events).state.networks
    ensures var (a, a') := (SignAuthorization(w.state.networks[id], key, t).payload,
                            SignAuthorization(Run(w, events).state.networks[id], key, t').payload);
            && a.authorizationEpoch <= a'.authorizationEpoch && a.networkKeyEpoch <= a'.networkKeyEpoch
            && forall c :: c in a.revokedCertificateIds ==> c in a'.revokedCertificateIds
  {
    hide Run, SignAuthorization, Spares;
    EpochsNeverDecrease(w, events, id);
    var (n, n') := (w.state.networks[id], Run(w, events).state.networks[id]);
    IssuerVerifier.SignedEpochs(n, key, t);
    IssuerVerifier.SignedEpochs(n', key, t');
    forall c | c in SignAuthorization(n, key, t).payload.revokedCertificateIds
      ensures c in SignAuthorization(n', key, t').payload.revokedCertificateIds
    {
      ListedIffRevoked(n, key, t, c);
      ListedIffRevoked(n', key, t', c);
    }
  }

  /** Two authorization manifests of one network that carry equal epochs, signed anywhere in a run
      that does not delete it, authorize the same certificates. */
  lemma EqualEpochsAuthorizeAlike(w: World, events: seq<Event>, id: Uuid, t: Clock, t': Clock, key: SigningKey,
                                  c: MembershipCertificate)
    requires id in w.state.networks
    requires forall i :: 0 <= i < |events| ==> Spares(id, events[i])
    requires id in Run(w, events).state.networks
    requires SignAuthorization(w.state.networks[id], key, t).payload.authorizationEpoch ==
             SignAuthorization(Run(w, events).state.networks[id], key, t').payload.authorizationEpoch < U64_MAX
    ensures Authorizes(SignAuthorization(w.state.networks[id], key, t), c) <==>
            Authorizes(SignAuthorization(Run(w, events).state.networks[id], key, t'), c)
  {
    hide Run, SignAuthorization, Authorizes, Spares;
    var (n, n') := (w.state.networks[id], Run(w, events).state.networks[id]);
    IssuerVerifier.SignedEpochs(n, key, t);
    IssuerVerifier.SignedEpochs(n', key, t');
    EpochsTrack(w, events, id);
    EpochsNeverDecrease(w, events, id);
    AuthorizedIffCurrent(n, key, t, c);
    AuthorizedIffCurrent(n', key, t', c);
  }

  /** Two policy manifests of one network that carry equal epochs, signed anywhere in a run that
      does not delete it, say the same: same prefixes through the same devices, same exit
      candidates, same DNS settings. */
  lemma EqualEpochsRouteAlike(w: World, events: seq<Event>, id: Uuid, t: Clock, t': Clock, key: SigningKey)
    requires NetworksInv(w.state, w.issuedIds) && Runs(w, events) && id in w.state.networks
    requires forall i :: 0 <= i < |events| ==> Spares(id, events[i])
    requires id in Run(w, events).state.networks
    requires var (p, p') := (SignPolicy(w.state.networks[id], key, t),
                             SignPolicy(Run(w, events).state.networks[id], key, t'));
             p.Ok? && p'.Ok? && p.value.payload.policyEpoch == p'.value.payload.policyEpoch < U64_MAX
    ensures CompactPolicy(SignPolicy(w.state.networks[id], key, t).value) ==
            CompactPolicy(SignPolicy(Run(w, events).state.networks[id], key, t').value)
  {
    hide Run, Runs, Next, SignPolicy, CompactPolicy, NetworkInv, Spares;
    var w' := Run(w, events);
    var (n, n') := (w.state.networks[id], w'.state.networks[id]);
    IssuerVerifier.SignedPolicyForm(n, key, t);
    IssuerVerifier.SignedPolicyForm(n', key, t');
    EpochsTrack(w, events, id);
    RunKeepsNetworks(w, events);
    assert n'.policy == n.policy;
    hide Tracked;
    PolicyEditing.EditableIsStored(n, id, w.issuedIds, key, t);
    PolicyEditing.EditableIsStored(n', id, w'.issuedIds, key, t');
  }

  // ----- Revoked identifiers stay listed

  lemma ListedIffRevoked(n: ManagedNetwork, key: SigningKey, now: Clock, certificateId: Uuid)
    ensures certificateId in SignAuthorization(n, key, now).payload.revokedCertificateIds <==> certificateId in n.revoked
  {
    var ids := Enumerate(n.revoked.Keys);
    hide Enumerate;
    SortFacts(UuidLe, ids);
    DedupFacts(Sort(UuidLe, ids));
    assert certificateId in ids <==> certificateId in n.revoked;
  }

  /** After a removal, every manifest of the network lists the removed member's certificate as
      revoked, for as long as the network exists. */
  lemma RemovedStaysListed(w: World, e: Event, events: seq<Event>, id: Uuid, device: Uuid, now: Clock)
    requires Removes(w, e, id, device) && device in w.state.networks[id].certificateIds
    requires forall i :: 0 <= i < |events| ==> Spares(id, events[i])
    ensures var w' := Run(Next(w, e), events);
            && id in w'.state.networks
            && w.state.networks[id].certificateIds[device] in
                 SignAuthorization(w'.state.networks[id], w'.state.signingKey, now).payload.revokedCertificateIds
  {
    var certificateId := w.state.networks[id].certificateIds[device];
    RemovalStep(w.state, e, id, device);
    assert certificateId in Removed(w.state.networks[id], device, e.now, e.step.networkKey).revoked;
    hide Removed, NextState, Released;
    EpochsNeverDecrease(Next(w, e), events, id);
    var w' := Run(Next(w, e), events);
    hide Run, SignAuthorization;
    ListedIffRevoked(w'.state.networks[id], w'.state.signingKey, now, certificateId);
  }
}
