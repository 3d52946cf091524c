/** The controller object.

Each method changes the maps step by step, as its handler does, and is tied to the function of
`ControllerModel` that the theorems about whole runs are about: the new state and the response
are exactly the model's.  A ghost field records the run so far: everything drawn and handed out.
*/
module Controllers {
  import opened Wrappers
  import opened Bytes
  import opened Cidr
  import opened Crypto
  import opened Membership
  import opened Authorization
  import opened AddressPool
  import opened Policy
  import opened PolicyMethods
  import opened ControllerModel
  import opened ControllerRuns
  import opened Revocation
  import opened RefreshCache
  import opened Sorting

  // ----- Signing

  lemma {:induction false} BuildRoutesSticks(n: ManagedNetwork, routes: seq<ManagedPolicyRoute>, key: SigningKey,
                                             now: Clock, k: nat)
    requires k <= |routes| && BuildRoutes(n, routes[..k], key, now).Err?
    ensures BuildRoutes(n, routes, key, now) == BuildRoutes(n, routes[..k], key, now)
    decreases |routes| - k
  {
    if k == |routes| {
      assert routes[..k] == routes;
    } else {
      assert routes[..k + 1][..k] == routes[..k];
      BuildRoutesSticks(n, routes, key, now, k + 1);
    }
  }

  lemma {:induction false} BuildExitsSticks(n: ManagedNetwork, exits: seq<ManagedExitNode>, key: SigningKey,
                                            now: Clock, k: nat)
    requires k <= |exits| && BuildExits(n, exits[..k], key, now).Err?
    ensures BuildExits(n, exits, key, now) == BuildExits(n, exits[..k], key, now)
    decreases |exits| - k
  {
    if k == |exits| {
      assert exits[..k] == exits;
    } else {
      assert exits[..k + 1][..k] == exits[..k];
      BuildExitsSticks(n, exits, key, now, k + 1);
    }
  }

  method BuildPolicyRoutes(n: ManagedNetwork, key: SigningKey, now: Clock) returns (r: Result<seq<PolicyRoute>,
                           SigningError>)
    ensures r == BuildRoutes(n, n.policy.routes, key, now)
  {
    hide CertificateFor, AllowedRoute;
    var entries := n.policy.routes;
    var routes: seq<PolicyRoute> := [];
    for k := 0 to |entries|
      invariant BuildRoutes(n, entries[..k], key, now) == Ok(routes)
    {
      assert entries[..k + 1][..k] == entries[..k];
      var d := entries[k].gatewayDeviceId;
      if d !in n.members {
        BuildRoutesSticks(n, entries, key, now, k + 1);
        return Err(NotAMember);
      }
      if d !in n.certificateIds {
        BuildRoutesSticks(n, entries, key, now, k + 1);
        return Err(NoCertificate);
      }
      if !AllowedRoute(n, entries[k]) {
        BuildRoutesSticks(n, entries, key, now, k + 1);
        return Err(NotAuthorized);
      }
      routes := routes + [PolicyRoute(entries[k].prefix, CertificateFor(n, d, key, now))];
    }
    assert entries[..|entries|] == entries;
    return Ok(routes);
  }

  method BuildPolicyExits(n: ManagedNetwork, key: SigningKey, now: Clock) returns (r: Result<seq<ExitNode>,
                          SigningError>)
    ensures r == BuildExits(n, n.policy.exitNodes, key, now)
  {
    hide CertificateFor;
    var entries := n.policy.exitNodes;
    var exits: seq<ExitNode> := [];
    for k := 0 to |entries|
      invariant BuildExits(n, entries[..k], key, now) == Ok(exits)
    {
      assert entries[..k + 1][..k] == entries[..k];
      var d := entries[k].gatewayDeviceId;
      if d !in n.members {
        BuildExitsSticks(n, entries, key, now, k + 1);
        return Err(NotAMember);
      }
      if d !in n.certificateIds {
        BuildExitsSticks(n, entries, key, now, k + 1);
        return Err(NoCertificate);
      }
      exits := exits + [ExitNode(CertificateFor(n, d, key, now), entries[k].supportsIpv4, entries[k].supportsIpv6)];
    }
    assert entries[..|entries|] == entries;
    return Ok(exits);
  }

  /** `sign_policy` and `sign_with_exit_nodes` */
  method SignNetworkPolicy(n: ManagedNetwork, key: SigningKey, now: Clock) returns (r: Result<PolicyManifest,
                           SigningError>)
    ensures r == SignPolicy(n, key, now)
  {
    hide BuildRoutes, BuildExits, Normalize, Sort;
    var routes := BuildPolicyRoutes(n, key, now);
    if routes.Err? {
      return Err(routes.error);
    }
    var exits := BuildPolicyExits(n, key, now);
    if exits.Err? {
      return Err(exits.error);
    }
    if n.policyEpoch == 0 {
      return Err(Rejected(Rollback));
    }
    var normalized := NormalizePolicy(routes.value, n.policy.dns);
    if normalized.Err? {
      return Err(Rejected(normalized.error));
    }
    var sorted := Sort(ExitLe, exits.value);
    var verdict := ValidateExitNodes(sorted);
    if verdict.Fail? {
      return Err(Rejected(verdict.error));
    }
    var payload := PolicyPayload(if sorted == [] then 1 else 2, n.network.id, n.policyEpoch, normalized.value.0, sorted,
                                 normalized.value.1, now, now + MANIFEST_LIFETIME, VerifyingKey(key));
    return Ok(PolicyManifest(payload, Sign(key, payload)));
  }

  /** `assigned_addresses_for_device` */
  method AssignAddresses(v: VirtualNetwork, members: Members, device: Uuid) returns (r: Result<seq<IpAddr>, PoolError>)
    ensures r == AssignedAddresses(v, members, device)
  {
    hide Ipv4Choice, Ipv6Choice, UsedBits;
    var addresses := if device in members then members[device].assignedAddresses else [];
    if !HasFamily(addresses, V4) {
      var choice := AllocateIpv4(v.ipv4Prefix, UsedBits(members, V4));
      if choice.Err? {
        return Err(choice.error);
      }
      addresses := addresses + [choice.value];
    }
    if v.ipv6Prefix.Some? && !HasFamily(addresses, V6) {
      var choice := AllocateIpv6(v.ipv6Prefix.value, UsedBits(members, V6));
      if choice.Err? {
        return Err(choice.error);
      }
      addresses := addresses + [choice.value];
    }
    return Ok(addresses);
  }

  // ----- The object

  class Controller {
    const signingKey: SigningKey
    const adminToken: string
    var networks: map<Uuid, ManagedNetwork>
    var tokens: map<Uuid, EnrollmentToken>
    var nonces: Cache
    ghost var world: World

    /** The object is in the state its run has led to, and the run's invariant holds: addresses,
        identities, epochs and policies of every network, and every certificate handed out. */
    ghost predicate Valid()
      reads this
    {
      world.state == State() && WorldInv(world)
    }

    /** A random identifier nobody has drawn before. */
    ghost predicate Unused(id: Uuid)
      reads this
    {
      id !in world.issuedIds && id != NIL_UUID
    }

    function State(): ControllerState
      reads this
    {
      ControllerState(signingKey, adminToken, networks, tokens)
    }

    constructor (signingKey: SigningKey, adminToken: string)
      ensures State() == ControllerState(signingKey, adminToken, map[], map[]) && nonces == map[]
      ensures Valid() && world == Initial(signingKey, adminToken)
    {
      this.signingKey := signingKey;
      this.adminToken := adminToken;
      networks := map[];
      tokens := map[];
      nonces := map[];
      world := Initial(signingKey, adminToken);
    }

    /** One more request in the run. */
    ghost method Record(e: Event)
      requires Valid() && CanHappen(world, e)
      modifies this`world
      ensures world == Next(old(world), e) && WorldInv(world)
    {
      NextKeepsWorld(world, e);
      world := Next(world, e);
    }

    method CreateNetwork(supplied: string, r: UpsertRequest, freshId: Uuid, networkKey: NetworkKey)
      returns (answer: Result<VirtualNetwork, ApiError>)
      requires Valid() && Unused(freshId)
      modifies this`networks, this`world
      ensures (State(), answer) == old(ControllerModel.CreateNetwork(State(), supplied, r, freshId, networkKey))
      ensures Valid() && world == Next(old(world), Event(Create(supplied, r, networkKey), 0, freshId))
    {
      hide WorldInv, Released;
      Record(Event(Create(supplied, r, networkKey), 0, freshId));
      if !ValidRequest(r) {
        return Err(BadRequest);
      }
      if supplied != adminToken {
        return Err(Unauthorized);
      }
      var id := if r.id.Some? then r.id.value else freshId;
      if id in networks {
        return Err(Conflict);
      }
      var network := VirtualNetwork(id, r.name, r.ipv4Prefix, r.ipv6Prefix, r.relayPolicy);
      networks := networks[id := NewNetwork(network, networkKey)];
      return Ok(network);
    }

    method IssueToken(supplied: string, networkId: Uuid, lifetime: Option<U64>, now: Clock, freshId: Uuid)
      returns (answer: Result<(Uuid, U64), ApiError>)
      requires Valid() && Unused(freshId)
      modifies this`tokens, this`world
      ensures (State(), answer) == old(ControllerModel.IssueToken(State(), supplied, networkId, lifetime, now, freshId))
      ensures Valid() && world == Next(old(world), Event(Issue(supplied, networkId, lifetime), now, freshId))
    {
      hide WorldInv, Released;
      Record(Event(Issue(supplied, networkId, lifetime), now, freshId));
      if supplied != adminToken {
        return Err(Unauthorized);
      }
      if networkId !in networks {
        return Err(NotFound);
      }
      var expiresAt := now + Clamp(if lifetime.Some? then lifetime.value else 900, 60, DAY);
      tokens := tokens[freshId := EnrollmentToken(networkId, expiresAt, None)];
      return Ok((freshId, expiresAt));
    }

    method Enroll(r: EnrollmentRequest, now: Clock, freshId: Uuid)
      returns (answer: Result<EnrollmentResponse, ApiError>)
      requires Valid() && Unused(freshId)
      modifies this`networks, this`tokens, this`world
      ensures (State(), answer) == old(ControllerModel.Enroll(State(), r, now, freshId))
      ensures Valid() && world == Next(old(world), Event(Join(r), now, freshId))
    {
      hide AssignedAddresses, SignAuthorization, SignCertificate, WorldInv, Released;
      Record(Event(Join(r), now, freshId));
      if r.devicePublicKey.WrongLength? || r.token.None? {
        return Err(BadRequest);
      }
      if r.token.value !in tokens {
        return Err(Unauthorized);
      }
      var token := tokens[r.token.value];
      if token.networkId != r.networkId || now > token.expiresAt {
        return Err(Unauthorized);
      }
      if token.usedBy.Some? && token.usedBy.value != r.deviceId {
        return Err(Unauthorized);
      }
      tokens := tokens[r.token.value := token.(usedBy := Some(r.deviceId))];
      if r.networkId !in networks {
        return Err(NotFound);
      }
      var managed := networks[r.networkId];
      var addresses := AssignAddresses(managed.network, managed.members, r.deviceId);
      if addresses.Err? {
        return Err(BadRequest);
      }
      if r.deviceId !in managed.certificateIds {
        managed := managed.(certificateIds := managed.certificateIds[r.deviceId := freshId]);
      }
      var claims := MembershipClaims(r.networkId, r.deviceId, r.devicePublicKey, addresses.value,
                                     NetworkPrefixes(managed.network), now, Some(now + DAY));
      var certificate := SignCertificate(claims, managed.certificateIds[r.deviceId], managed.networkKeyEpoch,
          signingKey);
      managed := managed.(members := managed.members[r.deviceId := claims]);
      managed := managed.(authorizationEpoch := SaturatingAdd(managed.authorizationEpoch, 1));
      networks := networks[r.networkId := managed];
      return Ok(EnrollmentResponse(managed.network, certificate, managed.networkKey,
                                   SignAuthorization(managed, signingKey, now)));
    }

    method DeleteNetwork(supplied: string, networkId: Uuid, ghost freshId: Uuid) returns (answer: Outcome<ApiError>)
      requires Valid() && Unused(freshId)
      modifies this`networks, this`tokens, this`world
      ensures (State(), answer) == old(ControllerModel.DeleteNetwork(State(), supplied, networkId))
      ensures Valid() && world == Next(old(world), Event(Delete(supplied, networkId), 0, freshId))
    {
      hide WorldInv, Released;
      Record(Event(Delete(supplied, networkId), 0, freshId));
      if supplied != adminToken {
        return Fail(Unauthorized);
      }
      if networkId !in networks {
        return Fail(NotFound);
      }
      networks := networks - {networkId};
      tokens := map t | t in tokens && tokens[t].networkId != networkId :: tokens[t];
      return Pass;
    }

    method AuthorizeMemberRoutes(supplied: string, networkId: Uuid, device: Uuid, requested: seq<PrefixText>,
                                 now: Clock,
                                 ghost freshId: Uuid)
      returns (answer: Result<MembershipClaims, ApiError>)
      requires Valid() && Unused(freshId)
      modifies this`networks, this`world
      ensures (State(), answer) ==
              old(ControllerModel.AuthorizeMemberRoutes(State(), supplied, networkId, device, requested, now))
      ensures Valid()
      ensures world == Next(old(world), Event(AllowRoutes(supplied, networkId, device, requested), now, freshId))
    {
      hide SignPolicy, Sort, Dedup, WorldInv, Released;
      Record(Event(AllowRoutes(supplied, networkId, device, requested), now, freshId));
      if supplied != adminToken {
        return Err(Unauthorized);
      }
      if networkId !in networks {
        return Err(NotFound);
      }
      var candidate := networks[networkId];
      var printed: seq<PrefixText> := [];
      for k := 0 to |requested|
        invariant |printed| == k
        invariant forall i :: 0 <= i < k ==>
                    ParseRoute(requested[i]).Ok? && printed[i] == Print(ParseRoute(requested[i]).value)
      {
        var net := ParseRoute(requested[k]);
        if net.Err? {
          return Err(BadRequest);
        }
        printed := printed + [Print(net.value)];
      }
      assert RequestedRoutes(requested) == Some(printed) by {
        assert RequestedRoutes(requested).value == printed;
      }
      var allowed := Dedup(Sort(TextLe, NetworkPrefixes(candidate.network) + printed));
      if |allowed| > MAX_ALLOWED_ROUTES {
        return Err(BadRequest);
      }
      if device !in candidate.members {
        return Err(NotFound);
      }
      var claims := candidate.members[device].(allowedRoutes := allowed, issuedAt := now, expiresAt := Some(now + DAY));
      candidate := candidate.(members := candidate.members[device := claims]);
      var signed := SignNetworkPolicy(candidate, signingKey, now);
      if signed.Err? {
        return Err(BadRequest);
      }
      networks := networks[networkId := candidate];
      return Ok(claims);
    }

    method RemoveMember(supplied: string, networkId: Uuid, device: Uuid, now: Clock, networkKey: NetworkKey,
                        ghost freshId: Uuid)
      returns (answer: Outcome<ApiError>)
      requires Valid() && Unused(freshId)
      modifies this`networks, this`world
      ensures (State(), answer) == old(ControllerModel.RemoveMember(State(), supplied, networkId, device, now,
          networkKey))
      ensures Valid() && world == Next(old(world), Event(Remove(supplied, networkId, device, networkKey), now, freshId))
    {
      hide Filter, WorldInv, Released;
      Record(Event(Remove(supplied, networkId, device, networkKey), now, freshId));
      if supplied != adminToken {
        return Fail(Unauthorized);
      }
      if networkId !in networks {
        return Fail(NotFound);
      }
      var network := networks[networkId];
      if device !in network.members {
        return Fail(NotFound);
      }
      network := network.(members := network.members - {device});
      if device in network.certificateIds {
        network := network.(revoked := network.revoked[network.certificateIds[device] := now]);
      }
      network := network.(certificateIds := network.certificateIds - {device});
      var previous := (|network.policy.routes|, |network.policy.exitNodes|);
      network := network.(policy := Without(network.policy, device));
      if |network.policy.routes| != previous.0 || |network.policy.exitNodes| != previous.1 {
        network := network.(policyEpoch := SaturatingAdd(network.policyEpoch, 1));
      }
      network := network.(networkKey := networkKey, networkKeyEpoch := SaturatingAdd(network.networkKeyEpoch, 1),
                          authorizationEpoch := SaturatingAdd(network.authorizationEpoch, 1));
      assert network == Removed(networks[networkId], device, now, networkKey);
      networks := networks[networkId := network];
      return Pass;
    }

    method UpdatePolicy(supplied: string, networkId: Uuid, request: ManagedPolicy, now: Clock, ghost freshId: Uuid)
      returns (answer: Result<PolicyManifest, ApiError>)
      requires Valid() && Unused(freshId)
      modifies this`networks, this`world
      ensures (State(), answer) == old(ControllerModel.UpdatePolicy(State(), supplied, networkId, request, now))
      ensures Valid() && world == Next(old(world), Event(ChangePolicy(supplied, networkId, request), now, freshId))
    {
      hide SignPolicy, WorldInv, Released;
      Record(Event(ChangePolicy(supplied, networkId, request), now, freshId));
      if supplied != adminToken {
        return Err(Unauthorized);
      }
      if networkId !in networks {
        return Err(NotFound);
      }
      var candidate := networks[networkId].(policy := request);
      candidate := candidate.(policyEpoch := SaturatingAdd(candidate.policyEpoch, 1));
      var signed := SignNetworkPolicy(candidate, signingKey, now);
      if signed.Err? {
        return Err(BadRequest);
      }
      candidate := candidate.(policy := CompactPolicy(signed.value));
      networks := networks[networkId := candidate];
      return Ok(signed.value);
    }

    method ReadPolicy(networkId: Uuid, now: Clock, ghost freshId: Uuid) returns (answer: Result<PolicyManifest, ApiError>)
      requires Valid() && Unused(freshId)
      modifies this`world
      ensures answer == GetPolicy(State(), networkId, now)
      ensures Valid() && world == Next(old(world), Event(Step.ReadPolicy(networkId), now, freshId))
    {
      hide WorldInv, Released;
      Record(Event(Step.ReadPolicy(networkId), now, freshId));
      if networkId !in networks {
        return Err(NotFound);
      }
      var signed := SignNetworkPolicy(networks[networkId], signingKey, now);
      return if signed.Ok? then Ok(signed.value) else Err(Internal);
    }

    method ReadAuthorization(networkId: Uuid, now: Clock) returns (answer: Result<AuthorizationManifest, ApiError>)
      ensures answer == GetAuthorization(State(), networkId, now)
    {
      if networkId !in networks {
        return Err(NotFound);
      }
      return Ok(SignAuthorization(networks[networkId], signingKey, now));
    }

    /** `refresh_membership`: the request is checked at one instant, its nonce looked up and
        stamped at later ones, and the answer signed at yet another. */
    method RefreshMembership(r: RefreshRequest, checkedAt: Instant, purgedAt: nat, stampedAt: nat, answeredAt: Clock,
                             ghost freshId: Uuid) returns (answer: Result<RefreshResponse, ApiError>)
      requires Valid() && Unused(freshId)
      modifies this`nonces, this`world
      ensures var a := Attempt(State(), r, checkedAt, purgedAt, stampedAt);
              && nonces == old(Stamped(nonces, a))
              && (answer.Ok? <==> old(Answered(nonces, a)))
              && (answer.Ok? ==> r.payload.networkId in networks
                                 && HasCertificate(networks[r.payload.networkId], r.payload.deviceId)
                                 && answer.value == RefreshAnswer(State(), r, answeredAt))
      ensures var isNew := r.payload.nonce !in Purged(old(nonces), purgedAt);
              Valid() && world == Next(old(world), Event(Refresh(r, isNew, answeredAt), checkedAt / SECOND, freshId))
    {
      hide VerifyRefresh, SignAuthorization, WorldInv, Released;
      Record(Event(Refresh(r, r.payload.nonce !in Purged(nonces, purgedAt), answeredAt), checkedAt / SECOND, freshId));
      var p := r.payload;
      if p.networkId !in networks {
        return Err(NotFound);
      }
      var n := networks[p.networkId];
      if p.deviceId !in n.members || p.deviceId !in n.certificateIds {
        return Err(Unauthorized);
      }
      if p.certificateId != n.certificateIds[p.deviceId] {
        return Err(Unauthorized);
      }
      if VerifyRefresh(r, n.members[p.deviceId].devicePublicKey, checkedAt / SECOND, 120).Fail? {
        return Err(Unauthorized);
      }
      nonces := Purged(nonces, purgedAt);
      var seen := p.nonce in nonces;
      nonces := nonces[p.nonce := stampedAt];
      if seen {
        return Err(Unauthorized);
      }
      return Ok(RefreshResponse(SignAuthorization(n, signingKey, answeredAt),
                                CertificateFor(n, p.deviceId, signingKey, answeredAt), n.networkKey));
    }
  }
}
