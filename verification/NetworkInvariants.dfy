/** What every reachable managed network satisfies, and that each request keeps it. */
module NetworkInvariants {
  import opened Wrappers
  import opened Bytes
  import opened Cidr
  import opened Crypto
  import opened AddressPool
  import opened Policy
  import opened ControllerModel
  import opened Signability
  import opened NormalPolicies

  // ----- Addresses

  /** An address a network may hand out: inside its prefix, not the first address, and for
      IPv4 not the last either. */
  predicate HostAddress(prefix: PrefixText, a: IpAddr) {
    && Parse(prefix).Some?
    && var net := Parse(prefix).value;
    && Contains(net, a) && Network(net) < a.bits
    && (net.family == V4 ==> a.bits < Broadcast(net))
  }

  /** Exactly one IPv4 host address, and exactly one IPv6 host address if and only if the
      network has an IPv6 prefix. */
  predicate OwnAddresses(v: VirtualNetwork, a: seq<IpAddr>) {
    && |a| == (if v.ipv6Prefix.Some? then 2 else 1)
    && a[0].family == V4 && HostAddress(v.ipv4Prefix, a[0])
    && (v.ipv6Prefix.Some? ==> a[1].family == V6 && HostAddress(v.ipv6Prefix.value, a[1]))
  }

  ghost predicate Disjoint(a: seq<IpAddr>, b: seq<IpAddr>) {
    forall x :: x in a ==> x !in b
  }

  ghost predicate AddressInv(n: ManagedNetwork) {
    && (forall d :: d in n.members ==> OwnAddresses(n.network, n.members[d].assignedAddresses))
    && (forall d, e :: d in n.members && e in n.members && d != e ==>
          Disjoint(n.members[d].assignedAddresses, n.members[e].assignedAddresses))
  }

  // ----- Identities, epochs and policy

  ghost predicate IdentityInv(n: ManagedNetwork, issued: set<Uuid>) {
    && n.members.Keys == n.certificateIds.Keys
    && (forall d :: d in n.certificateIds ==>
          n.certificateIds[d] in issued && n.certificateIds[d] != NIL_UUID && n.certificateIds[d] !in n.revoked)
    && (forall d, e :: d in n.certificateIds && e in n.certificateIds && d != e ==>
          n.certificateIds[d] != n.certificateIds[e])
    && n.revoked.Keys <= issued
  }

  ghost predicate NetworkInv(n: ManagedNetwork, id: Uuid, issued: set<Uuid>) {
    && n.network.id == id
    && WellKeyed(n)
    && |n.networkKey| == 32
    && ParsesAs(n.network.ipv4Prefix, V4)
    && (n.network.ipv6Prefix.Some? ==> ParsesAs(n.network.ipv6Prefix.value, V6))
    && n.networkKeyEpoch >= 1 && n.authorizationEpoch >= 1 && n.policyEpoch >= 1
    && IdentityInv(n, issued)
    && AddressInv(n)
    && IsNormal(n.policy)
  }

  // ----- Enrollment

  lemma UsedContains(members: Members, d: Uuid, a: IpAddr)
    requires d in members && a in members[d].assignedAddresses
    ensures a.bits in UsedBits(members, a.family)
  {
    var i :| 0 <= i < |members[d].assignedAddresses| && members[d].assignedAddresses[i] == a;
  }

  /** A member of a network keeps what it holds. */
  lemma MemberKeepsAddresses(n: ManagedNetwork, d: Uuid)
    requires AddressInv(n) && d in n.members
    ensures AssignedAddresses(n.network, n.members, d) == Ok(n.members[d].assignedAddresses)
  {
    var held := n.members[d].assignedAddresses;
    assert OwnAddresses(n.network, held);
    assert HasFamily(held, V4) by { assert held[0].family == V4; }
    if n.network.ipv6Prefix.Some? {
      assert HasFamily(held, V6) by { assert held[1].family == V6; }
    }
  }

  /** A newcomer gets addresses of the right kind that nobody holds. */
  lemma NewcomerAddresses(n: ManagedNetwork, d: Uuid)
    requires d !in n.members && AssignedAddresses(n.network, n.members, d).Ok?
    ensures var a := AssignedAddresses(n.network, n.members, d).value;
            && OwnAddresses(n.network, a)
            && forall e :: e in n.members ==> Disjoint(a, n.members[e].assignedAddresses)
  {
    var a := AssignedAddresses(n.network, n.members, d).value;
    assert !HasFamily([], V4);
    var a4 := Ipv4Choice(n.network.ipv4Prefix, UsedBits(n.members, V4)).value;
    assert a4.family == V4 && a4.bits !in UsedBits(n.members, V4);
    assert a[0] == a4;
    if n.network.ipv6Prefix.Some? {
      assert !HasFamily([a4], V6);
      var a6 := Ipv6Choice(n.network.ipv6Prefix.value, UsedBits(n.members, V6)).value;
      assert a6.family == V6 && a6.bits !in UsedBits(n.members, V6);
      assert a == [a4, a6];
    } else {
      assert a == [a4];
    }
    forall e, x | e in n.members && x in a ensures x !in n.members[e].assignedAddresses {
      if x in n.members[e].assignedAddresses {
        UsedContains(n.members, e, x);
        assert false;
      }
    }
  }

  lemma EnrolledAddresses(n: ManagedNetwork, r: EnrollmentRequest, now: Clock, freshId: Uuid)
    requires AddressInv(n)
    requires AssignedAddresses(n.network, n.members, r.deviceId).Ok?
    ensures var a := AssignedAddresses(n.network, n.members, r.deviceId).value;
            AddressInv(Enrolled(n, r, a, now, freshId))
  {
    var a := AssignedAddresses(n.network, n.members, r.deviceId).value;
    var n' := Enrolled(n, r, a, now, freshId);
    if r.deviceId in n.members {
      MemberKeepsAddresses(n, r.deviceId);
    } else {
      NewcomerAddresses(n, r.deviceId);
    }
    forall d, e | d in n'.members && e in n'.members && d != e
      ensures Disjoint(n'.members[d].assignedAddresses, n'.members[e].assignedAddresses)
    {
      if e == r.deviceId && d in n.members {
        assert Disjoint(a, n.members[d].assignedAddresses);
      }
    }
  }

  lemma EnrolledIdentities(n: ManagedNetwork, issued: set<Uuid>, r: EnrollmentRequest,
                           a: seq<IpAddr>, now: Clock, freshId: Uuid)
    requires IdentityInv(n, issued) && freshId !in issued && freshId != NIL_UUID
    ensures IdentityInv(Enrolled(n, r, a, now, freshId), issued + {freshId})
  {
    var n' := Enrolled(n, r, a, now, freshId);
    assert n'.members.Keys == n.members.Keys + {r.deviceId};
    assert n'.certificateIds.Keys == n.certificateIds.Keys + {r.deviceId};
  }

  lemma EnrolledInv(n: ManagedNetwork, id: Uuid, issued: set<Uuid>, r: EnrollmentRequest,
                    now: Clock, freshId: Uuid)
    requires NetworkInv(n, id, issued) && r.networkId == id
    requires freshId !in issued && freshId != NIL_UUID
    requires AssignedAddresses(n.network, n.members, r.deviceId).Ok?
    ensures var a := AssignedAddresses(n.network, n.members, r.deviceId).value;
            NetworkInv(Enrolled(n, r, a, now, freshId), id, issued + {freshId})
  {
    EnrolledAddresses(n, r, now, freshId);
    EnrolledIdentities(n, issued, r, AssignedAddresses(n.network, n.members, r.deviceId).value, now, freshId);
    hide AddressInv, IdentityInv, IsNormal, AssignedAddresses;
  }

  // ----- The other requests

  lemma NewNetworkInv(r: UpsertRequest, id: Uuid, networkKey: NetworkKey, issued: set<Uuid>)
    requires ValidRequest(r)
    ensures NetworkInv(NewNetwork(Requested(r, id), networkKey), id, issued)
  {
    EmptyIsNormal();
  }

  lemma RemovedIdentities(n: ManagedNetwork, issued: set<Uuid>, device: Uuid, now: Clock,
                          networkKey: NetworkKey)
    requires IdentityInv(n, issued) && AddressInv(n) && device in n.members
    ensures IdentityInv(Removed(n, device, now, networkKey), issued)
    ensures AddressInv(Removed(n, device, now, networkKey))
  {
    hide OwnAddresses, Without, Disjoint;
    var n' := Removed(n, device, now, networkKey);
    assert n'.members.Keys == n.members.Keys - {device};
    assert n'.certificateIds.Keys == n.certificateIds.Keys - {device};
  }

  lemma RemovedInv(n: ManagedNetwork, id: Uuid, issued: set<Uuid>, device: Uuid, now: Clock,
                   networkKey: NetworkKey)
    requires NetworkInv(n, id, issued) && device in n.members
    ensures NetworkInv(Removed(n, device, now, networkKey), id, issued)
  {
    WithoutIsNormal(n.policy, device);
    RemovedIdentities(n, issued, device, now, networkKey);
    hide AddressInv, IdentityInv, IsNormal, Without;
  }

  lemma AllowedInv(n: ManagedNetwork, id: Uuid, issued: set<Uuid>, device: Uuid,
                   allowed: seq<PrefixText>, now: Clock)
    requires NetworkInv(n, id, issued) && device in n.members
    ensures NetworkInv(Reauthorized(n, device, allowed, now), id, issued)
  {
    hide OwnAddresses, IsNormal, Disjoint;
    var n' := Reauthorized(n, device, allowed, now);
    assert n'.members.Keys == n.members.Keys;
    assert forall d :: d in n'.members ==> n'.members[d].assignedAddresses == n.members[d].assignedAddresses;
  }

  lemma PolicyReplacedInv(n: ManagedNetwork, id: Uuid, issued: set<Uuid>, policy: ManagedPolicy)
    requires NetworkInv(n, id, issued) && IsNormal(policy)
    ensures NetworkInv(n.(policyEpoch := Bump(n.policyEpoch), policy := policy), id, issued)
  {
    hide AddressInv, IdentityInv, IsNormal;
    var n' := n.(policyEpoch := Bump(n.policyEpoch), policy := policy);
    SameIdentities(n, n', issued);
  }

  lemma SameIdentities(n: ManagedNetwork, n': ManagedNetwork, issued: set<Uuid>)
    requires IdentityInv(n, issued) && AddressInv(n)
    requires n'.members == n.members && n'.certificateIds == n.certificateIds && n'.revoked == n.revoked
    requires n'.network == n.network
    ensures IdentityInv(n', issued) && AddressInv(n')
  {
  }

  /** A policy update stores the normal form of what was submitted. */
  lemma UpdatedPolicy(n: ManagedNetwork, request: ManagedPolicy, key: SigningKey, now: Clock)
    requires WellKeyed(n)
    ensures var candidate := Candidate(n, request);
            && (SignPolicy(candidate, key, now).Ok? <==> Signable(candidate))
            && (SignPolicy(candidate, key, now).Ok? ==>
                  && CompactPolicy(SignPolicy(candidate, key, now).value) == NormalForm(request)
                  && IsNormal(NormalForm(request)))
  {
    var candidate := Candidate(n, request);
    assert WellKeyed(candidate);
    SignPolicyIsExact(candidate, key, now);
    if Signable(candidate) {
      SignedPolicyContents(candidate, key, now);
      NormalFormIsNormal(request);
    }
  }

  lemma UpdatedInv(n: ManagedNetwork, id: Uuid, issued: set<Uuid>, request: ManagedPolicy,
                   key: SigningKey, now: Clock)
    requires NetworkInv(n, id, issued)
    requires SignPolicy(Candidate(n, request), key, now).Ok?
    ensures var candidate := Candidate(n, request);
            NetworkInv(candidate.(policy := CompactPolicy(SignPolicy(candidate, key, now).value)), id, issued)
  {
    UpdatedPolicy(n, request, key, now);
    hide SignPolicy, CompactPolicy, NormalForm, NetworkInv, IsNormal;
    PolicyReplacedInv(n, id, issued, NormalForm(request));
    var candidate := Candidate(n, request);
    assert candidate.(policy := NormalForm(request)) ==
           n.(policyEpoch := Bump(n.policyEpoch), policy := NormalForm(request));
  }

  lemma MoreIssued(n: ManagedNetwork, id: Uuid, issued: set<Uuid>, more: set<Uuid>)
    requires NetworkInv(n, id, issued) && issued <= more
    ensures NetworkInv(n, id, more)
  {
  }
}
