/** Editing a policy by reading the signed manifest, changing it and submitting it again. */
module PolicyEditing {
  import opened Wrappers
  import opened Bytes
  import opened Crypto
  import opened Policy
  import opened ControllerModel
  import opened Signability
  import opened NormalPolicies
  import opened NetworkInvariants
  import opened Sorting

  /** What the exit candidate of a device is to become; nothing removes it. */
  type Capability = Option<(bool, bool)>

  function NewEntry(device: Uuid, capability: Capability): seq<ManagedExitNode> {
    if capability.None? then [] else [ManagedExitNode(device, capability.value.0, capability.value.1)]
  }

  /** The command line's edit: `retain` the other candidates, `push` the new one. */
  function CliEdit(p: ManagedPolicy, device: Uuid, capability: Capability): ManagedPolicy {
    p.(exitNodes := Without(p, device).exitNodes + NewEntry(device, capability))
  }

  /** The graphical editor's version of the same edit, which loops over the signed manifest and
      refuses a candidate for neither protocol. */
  method GuiPolicyUpdate(m: PolicyManifest, device: Uuid, capability: Capability) returns (r: Option<ManagedPolicy>)
    ensures r == if capability == Some((false, false)) then None else Some(CliEdit(CompactPolicy(m), device,
        capability))
  {
    var nodes := m.payload.exitNodes;
    var keep := (x: ManagedExitNode) => ExitElsewhere(device, x);
    ghost var compact := Map(ExitEntry, nodes);
    var exits: seq<ManagedExitNode> := [];
    for k := 0 to |nodes|
      invariant exits + Filter(keep, compact[k..]) == Filter(keep, compact)
    {
      assert compact[k..][0] == ExitEntry(nodes[k]) && compact[k..][1..] == compact[k + 1..];
      if nodes[k].gateway.claims.deviceId != device {
        exits := exits + [ExitEntry(nodes[k])];
      }
    }
    assert exits == Without(CompactPolicy(m), device).exitNodes;
    if capability.Some? {
      if !capability.value.0 && !capability.value.1 {
        return None;
      }
      exits := exits + [ManagedExitNode(device, capability.value.0, capability.value.1)];
    }
    return Some(ManagedPolicy(Map(RouteEntry, m.payload.routes), exits, m.payload.dns));
  }

  // ----- Resubmitting

  /** What an editor reads from a network is exactly what the network stores. */
  lemma EditableIsStored(n: ManagedNetwork, id: Uuid, issued: set<Uuid>, key: SigningKey, now: Clock)
    requires NetworkInv(n, id, issued) && SignPolicy(n, key, now).Ok?
    ensures CompactPolicy(SignPolicy(n, key, now).value) == n.policy
  {
    SignedPolicyContents(n, key, now);
  }

  /** The outcome of an update of a network in normal form. */
  lemma UpdateOutcome(s: ControllerState, supplied: string, id: Uuid, issued: set<Uuid>,
                      request: ManagedPolicy, now: Clock)
    requires IsAdmin(s, supplied) && id in s.networks && NetworkInv(s.networks[id], id, issued)
    ensures var n := s.networks[id];
            UpdatePolicy(s, supplied, id, request, now).0 ==
              if Signable(Candidate(n, request))
              then s.(networks := s.networks[id := n.(policyEpoch := Bump(n.policyEpoch),
                  policy := NormalForm(request))])
              else s
    ensures UpdatePolicy(s, supplied, id, request, now).1.Ok? <==> Signable(Candidate(s.networks[id], request))
  {
    UpdatedPolicy(s.networks[id], request, s.signingKey, now);
    hide SignPolicy, CompactPolicy, NormalForm, Signable;
  }

  /** Submitting an unmodified policy leaves routes, exits, DNS and members as they are and
      raises the policy epoch, nothing else. */
  lemma ResubmittingOnlyRaisesTheEpoch(s: ControllerState, supplied: string, id: Uuid,
                                       issued: set<Uuid>,
                                       readAt: Clock, now: Clock)
    requires IsAdmin(s, supplied) && id in s.networks && NetworkInv(s.networks[id], id, issued)
    requires GetPolicy(s, id, readAt).Ok?
    ensures var (n, m) := (s.networks[id], GetPolicy(s, id, readAt).value);
            && UpdatePolicy(s, supplied, id, CompactPolicy(m), now).1.Ok?
            && UpdatePolicy(s, supplied, id, CompactPolicy(m), now).0 ==
                 s.(networks := s.networks[id := n.(policyEpoch := Bump(n.policyEpoch))])
            && (n.policyEpoch < U64_MAX ==> Bump(n.policyEpoch) == n.policyEpoch + 1)
  {
    var n := s.networks[id];
    EditableIsStored(n, id, issued, s.signingKey, readAt);
    SignPolicyIsExact(n, s.signingKey, readAt);
    UpdateOutcome(s, supplied, id, issued, n.policy, now);
    CandidateOfStored(n);
    StoredIsNormal(n, id, issued);
    hide SignPolicy, CompactPolicy, NormalForm, Signable, UpdatePolicy, NetworkInv;
  }

  lemma StoredIsNormal(n: ManagedNetwork, id: Uuid, issued: set<Uuid>)
    requires NetworkInv(n, id, issued)
    ensures NormalForm(n.policy) == n.policy && IsNormal(n.policy) && WellKeyed(n)
  {
  }

  lemma CandidateOfStored(n: ManagedNetwork)
    requires Signable(n)
    ensures Signable(Candidate(n, n.policy))
  {
    hide ShapeOk, AllowedRoute;
    var c := Candidate(n, n.policy);
    forall r: ManagedPolicyRoute | r.gatewayDeviceId in n.members
      ensures AllowedRoute(c, r) <==> AllowedRoute(n, r)
    {
      AllowedByMembers(n, c, r);
    }
  }

  lemma AllowedByMembers(n: ManagedNetwork, c: ManagedNetwork, r: ManagedPolicyRoute)
    requires c.members == n.members && r.gatewayDeviceId in n.members
    ensures AllowedRoute(c, r) <==> AllowedRoute(n, r)
  {
  }

  // ----- Changing one candidate

  /** What the controller accepts as a candidate. */
  predicate Acceptable(n: ManagedNetwork, device: Uuid, capability: Capability) {
    capability.Some? ==>
      && HasCertificate(n, device) && (capability.value.0 || capability.value.1)
      && |Without(n.policy, device).exitNodes| < MAX_EXIT_NODES
  }

  lemma EditedExits(n: ManagedNetwork, exits: seq<ManagedExitNode>, device: Uuid,
                    capability: Capability)
    requires ExitsShape(exits) && ExitGatewaysOk(n, exits)
    ensures var others := Filter((x: ManagedExitNode) => ExitElsewhere(device, x), exits);
            (ExitsShape(others + NewEntry(device, capability)) && ExitGatewaysOk(n, others + NewEntry(device,
                capability)) <==>
             (capability.Some? ==>
                HasCertificate(n, device) && (capability.value.0 || capability.value.1) && |others| < MAX_EXIT_NODES))
  {
    var keep := (x: ManagedExitNode) => ExitElsewhere(device, x);
    var others := Filter(keep, exits);
    var edited := others + NewEntry(device, capability);
    FilteredExitsShape(keep, exits);
    forall i | 0 <= i < |others|
      ensures HasCertificate(n, others[i].gatewayDeviceId) && others[i].gatewayDeviceId != device
    {
      FilterMember(keep, exits, others[i]);
    }
    hide Filter;
    if capability.None? {
      assert edited == others;
    } else {
      assert edited[|others|] == ManagedExitNode(device, capability.value.0, capability.value.1);
      assert forall i :: 0 <= i < |others| ==> edited[i] == others[i];
    }
  }

  lemma EditSignable(n: ManagedNetwork, device: Uuid, capability: Capability)
    requires Signable(n)
    ensures Signable(Candidate(n, CliEdit(n.policy, device, capability))) <==> Acceptable(n, device, capability)
  {
    CandidateOfStored(n);
    EditedExits(n, n.policy.exitNodes, device, capability);
    hide RoutesShape, DnsShape, ExitsShape, AllowedRoute, Filter;
    var c := Candidate(n, CliEdit(n.policy, device, capability));
    assert RouteGatewaysOk(c, c.policy.routes) by {
      assert RouteGatewaysOk(Candidate(n, n.policy), n.policy.routes);
      SameGateways(Candidate(n, n.policy), c, n.policy.routes);
    }
  }

  lemma SameGateways(n: ManagedNetwork, c: ManagedNetwork, routes: seq<ManagedPolicyRoute>)
    requires c.members == n.members && c.certificateIds == n.certificateIds && RouteGatewaysOk(n, routes)
    ensures RouteGatewaysOk(c, routes)
  {
    forall i | 0 <= i < |routes| ensures HasCertificate(c, routes[i].gatewayDeviceId) && AllowedRoute(c, routes[i]) {
      AllowedByMembers(n, c, routes[i]);
    }
  }

  /** Editing one candidate changes exactly that device's entry. */
  ghost predicate ChangesOnly(p: ManagedPolicy, q: ManagedPolicy, device: Uuid, capability: Capability) {
    && q.routes == p.routes && q.dns == p.dns
    && Sorted(ExitEntryLe, q.exitNodes)
    && forall x :: x in q.exitNodes <==>
         if x.gatewayDeviceId == device then capability == Some((x.supportsIpv4, x.supportsIpv6)) else x in p.exitNodes
  }

  lemma EditChangesOnly(p: ManagedPolicy, device: Uuid, capability: Capability)
    requires IsNormal(p)
    ensures ChangesOnly(p, NormalForm(CliEdit(p, device, capability)), device, capability)
  {
    OrdersAreTotal();
    var keep := (x: ManagedExitNode) => ExitElsewhere(device, x);
    var edited := CliEdit(p, device, capability);
    SortFacts(ExitEntryLe, edited.exitNodes);
    SortSorts(ExitEntryLe, edited.exitNodes);
    FilterFacts(keep, p.exitNodes);
    var q := NormalForm(edited);
    assert q.routes == p.routes && q.dns == p.dns;
    hide Sort, Filter, NormalDns;
    forall x
      ensures x in q.exitNodes <==>
        if x.gatewayDeviceId == device then capability == Some((x.supportsIpv4, x.supportsIpv6)) else x in p.exitNodes
    {
      FilterMember(keep, p.exitNodes, x);
      assert x in edited.exitNodes <==> x in Filter(keep, p.exitNodes) || x in NewEntry(device, capability);
    }
  }

  /** Setting or clearing an exit candidate: it is accepted exactly for a member with a
      certificate, at least one protocol and room for it; accepted, it changes that device's
      entry and the epoch; refused, it changes nothing. */
  lemma EditOutcome(s: ControllerState, supplied: string, id: Uuid, issued: set<Uuid>,
                    readAt: Clock, now: Clock, device: Uuid, capability: Capability)
    requires IsAdmin(s, supplied) && id in s.networks && NetworkInv(s.networks[id], id, issued)
    requires GetPolicy(s, id, readAt).Ok?
    ensures var n := s.networks[id];
            var request := CliEdit(CompactPolicy(GetPolicy(s, id, readAt).value), device, capability);
            var (s', answer) := UpdatePolicy(s, supplied, id, request, now);
            && (answer.Ok? <==> Acceptable(n, device, capability))
            && (answer.Err? ==> s' == s)
            && (answer.Ok? ==>
                  && id in s'.networks && ChangesOnly(n.policy, s'.networks[id].policy, device, capability)
                  && s' == s.(networks := s.networks[id := n.(policyEpoch := Bump(n.policyEpoch),
                                                              policy := s'.networks[id].policy)]))
  {
    var n := s.networks[id];
    EditableIsStored(n, id, issued, s.signingKey, readAt);
    StoredIsNormal(n, id, issued);
    SignPolicyIsExact(n, s.signingKey, readAt);
    var request := CliEdit(n.policy, device, capability);
    hide SignPolicy, CompactPolicy, NormalForm, Signable, NetworkInv, CliEdit, ChangesOnly, Acceptable, IsNormal,
        WellKeyed;
    EditSignable(n, device, capability);
    EditChangesOnly(n.policy, device, capability);
    UpdateOutcome(s, supplied, id, issued, request, now);
    hide UpdatePolicy;
  }

  /** Both editors leave the controller in the same state, for every input: the graphical one
      refuses what the controller would refuse of the command line. */
  lemma EditorsAgree(s: ControllerState, supplied: string, id: Uuid, issued: set<Uuid>,
                     readAt: Clock, now: Clock, device: Uuid, capability: Capability,
                          gui: Option<ManagedPolicy>)
    requires IsAdmin(s, supplied) && id in s.networks && NetworkInv(s.networks[id], id, issued)
    requires GetPolicy(s, id, readAt).Ok?
    requires var m := GetPolicy(s, id, readAt).value;
             gui == if capability == Some((false, false)) then None else Some(CliEdit(CompactPolicy(m), device,
                 capability))
    ensures var m := GetPolicy(s, id, readAt).value;
            UpdatePolicy(s, supplied, id, CliEdit(CompactPolicy(m), device, capability), now).0 ==
              if gui.None? then s else UpdatePolicy(s, supplied, id, gui.value, now).0
  {
    EditOutcome(s, supplied, id, issued, readAt, now, device, capability);
    hide UpdatePolicy, CompactPolicy, CliEdit, GetPolicy;
  }
}
