/** What each request does, exactly: when it succeeds, what it answers, and what it leaves as it
    was; and who may change what over whole runs. */
module Requests {
  import opened Wrappers
  import opened Bytes
  import opened Cidr
  import opened Domains
  import opened Membership
  import opened Authorization
  import opened AddressPool
  import opened Policy
  import opened ControllerModel
  import opened Signability
  import opened NetworkInvariants
  import opened ControllerRuns
  import Sorting

  // ----- Creating and deleting

  lemma BlankTrimsToNothing(s: string)
    ensures Trim(s) != "" <==> exists i :: 0 <= i < |s| && !IsWhitespace(s[i])
  {
    var lead, trail := TrimSplits(s);
    if Trim(s) == "" {
      assert s == lead + trail;
    } else {
      assert s[|lead|] == Trim(s)[0];
    }
  }

  ghost predicate ProperRequest(r: UpsertRequest) {
    && (exists i :: 0 <= i < |r.name| && !IsWhitespace(r.name[i]))
    && Parse(r.ipv4Prefix).Some? && Parse(r.ipv4Prefix).value.family == V4
    && (r.ipv6Prefix.Some? ==> Parse(r.ipv6Prefix.value).Some? && Parse(r.ipv6Prefix.value).value.family == V6)
  }

  /** Creation succeeds exactly for a proper request of the administrator with an unused
      identifier; it adds one network, empty and at epoch 1, and changes nothing else. */
  lemma CreateIsExact(s: ControllerState, supplied: string, r: UpsertRequest, freshId: Uuid, networkKey: NetworkKey)
    ensures var (s', answer) := CreateNetwork(s, supplied, r, freshId, networkKey);
            var id := if r.id.Some? then r.id.value else freshId;
            && (answer == Err(BadRequest) <==> !ProperRequest(r))
            && (answer == Err(Unauthorized) <==> ProperRequest(r) && supplied != s.adminToken)
            && (answer == Err(Conflict) <==> ProperRequest(r) && supplied == s.adminToken && id in s.networks)
            && (answer.Ok? <==> ProperRequest(r) && supplied == s.adminToken && id !in s.networks)
            && (answer.Err? ==> s' == s)
            && (answer.Ok? ==>
                  && answer.value == VirtualNetwork(id, r.name, r.ipv4Prefix, r.ipv6Prefix, r.relayPolicy)
                  && s'.networks.Keys == s.networks.Keys + {id} && s' == s.(networks := s'.networks)
                  && (forall x :: x in s.networks ==> s'.networks[x] == s.networks[x])
                  && var n := s'.networks[id];
                  && n.network == answer.value && n.networkKey == networkKey
                  && n.members == map[] && n.certificateIds == map[] && n.revoked == map[]
                  && n.policy.routes == [] && n.policy.exitNodes == [] && n.policy.dns == DnsPolicy([], [])
                  && n.networkKeyEpoch == 1 && n.authorizationEpoch == 1 && n.policyEpoch == 1)
  {
    hide Trim, IsWhitespace;
    BlankTrimsToNothing(r.name);
  }

  /** Deletion succeeds exactly for the administrator and an existing network; it takes away that
      network and its tokens, and changes nothing else. */
  lemma DeleteIsExact(s: ControllerState, supplied: string, id: Uuid)
    ensures var (s', answer) := DeleteNetwork(s, supplied, id);
            && (answer == Fail(Unauthorized) <==> supplied != s.adminToken)
            && (answer == Fail(NotFound) <==> supplied == s.adminToken && id !in s.networks)
            && (answer.Pass? <==> supplied == s.adminToken && id in s.networks)
            && (answer.Fail? ==> s' == s)
            && (answer.Pass? ==>
                  && s' == s.(networks := s'.networks, tokens := s'.tokens)
                  && id !in s'.networks
                  && (forall x :: x in s'.networks <==> x in s.networks && x != id)
                  && (forall x :: x in s'.networks ==> s'.networks[x] == s.networks[x])
                  && (forall t :: t in s'.tokens <==> t in s.tokens && s.tokens[t].networkId != id)
                  && (forall t :: t in s'.tokens ==> s'.tokens[t] == s.tokens[t]))
  {
  }

  // ----- Tokens

  /** A token is issued exactly to the administrator for an existing network; it lasts as long as
      asked, 900 seconds if nothing is asked, but at least a minute and at most a day. */
  lemma IssueIsExact(s: ControllerState, supplied: string, id: Uuid, lifetime: Option<U64>, now: Clock, freshId: Uuid)
    ensures var (s', answer) := IssueToken(s, supplied, id, lifetime, now, freshId);
            var asked := if lifetime.Some? then lifetime.value else 900;
            && (answer == Err(Unauthorized) <==> supplied != s.adminToken)
            && (answer == Err(NotFound) <==> supplied == s.adminToken && id !in s.networks)
            && (answer.Ok? <==> supplied == s.adminToken && id in s.networks)
            && (answer.Err? ==> s' == s)
            && (answer.Ok? ==>
                  && s' == s.(tokens := s.tokens[freshId := EnrollmentToken(id, answer.value.1, None)])
                  && answer.value.0 == freshId && now + 60 <= answer.value.1 <= now + 86_400
                  && (60 <= asked <= 86_400 ==> answer.value.1 == now + asked)
                  && (asked < 60 ==> answer.value.1 == now + 60)
                  && (asked > 86_400 ==> answer.value.1 == now + 86_400))
  {
  }

  // ----- Enrollment

  /** The request presents a token of its network that has not expired and is free or its own. */
  predicate TokenGood(s: ControllerState, r: EnrollmentRequest, now: Clock) {
    && !r.devicePublicKey.WrongLength? && r.token.Some? && r.token.value in s.tokens
    && var token := s.tokens[r.token.value];
    && token.networkId == r.networkId && now <= token.expiresAt
    && (token.usedBy == None || token.usedBy == Some(r.deviceId))
  }

  /** An address strictly inside the prefix that no member holds; in IPv6 the last one will do. */
  ghost predicate HasRoom(prefix: PrefixText, members: Members, family: Family) {
    && Parse(prefix).Some? && Parse(prefix).value.family == family
    && var net := Parse(prefix).value;
    exists y :: Network(net) < y && (if family == V4 then y < Broadcast(net) else y <= Broadcast(net))
                && y !in UsedBits(members, family)
  }

  /** A member always keeps its addresses; a newcomer needs room for what the network requires. */
  lemma AddressesAvailableIff(n: ManagedNetwork, device: Uuid)
    requires AddressInv(n)
    ensures AssignedAddresses(n.network, n.members, device).Ok? <==>
              || device in n.members
              || (&& HasRoom(n.network.ipv4Prefix, n.members, V4)
                  && (n.network.ipv6Prefix.Some? ==> HasRoom(n.network.ipv6Prefix.value, n.members, V6)))
  {
    if device in n.members {
      MemberKeepsAddresses(n, device);
    } else {
      hide Ipv4Choice, Ipv6Choice, UsedBits, AddressInv;
      Ipv4ChoiceIsExact(n.network.ipv4Prefix, UsedBits(n.members, V4));
      assert !HasFamily([], V4);
      if n.network.ipv6Prefix.Some? {
        Ipv6ChoiceIsExact(n.network.ipv6Prefix.value, UsedBits(n.members, V6));
        if Ipv4Choice(n.network.ipv4Prefix, UsedBits(n.members, V4)).Ok? {
          assert !HasFamily([Ipv4Choice(n.network.ipv4Prefix, UsedBits(n.members, V4)).value], V6);
        }
      }
    }
  }

  /** What a device is assigned, in any state: all it holds, in order, then an address of a family it
      lacks and needs, which is the one the pool gives out next. */
  lemma AssignmentIsExact(v: VirtualNetwork, members: Members, device: Uuid)
    ensures var held := if device in members then members[device].assignedAddresses else [];
            var (need4, need6) := (!HasFamily(held, V4), v.ipv6Prefix.Some? && !HasFamily(held, V6));
            var (c4, c6) := (Ipv4Choice(v.ipv4Prefix, UsedBits(members, V4)),
                             if need6 then Ipv6Choice(v.ipv6Prefix.value, UsedBits(members, V6)) else Err(BadPrefix));
            && (AssignedAddresses(v, members, device).Ok? <==> (need4 ==> c4.Ok?) && (need6 ==> c6.Ok?))
            && (AssignedAddresses(v, members, device).Ok? ==>
                  AssignedAddresses(v, members, device).value ==
                    held + (if need4 then [c4.value] else []) + (if need6 then [c6.value] else []))
  {
    var held := if device in members then members[device].assignedAddresses else [];
    Ipv4ChoiceIsExact(v.ipv4Prefix, UsedBits(members, V4));
    hide Ipv4Choice, Ipv6Choice, UsedBits;
    if !HasFamily(held, V4) && Ipv4Choice(v.ipv4Prefix, UsedBits(members, V4)).Ok? {
      var a := Ipv4Choice(v.ipv4Prefix, UsedBits(members, V4)).value;
      var more := held + [a];
      assert forall i :: 0 <= i < |held| ==> more[i] == held[i];
      assert more[|held|] == a;
      assert HasFamily(more, V6) <==> HasFamily(held, V6);
    }
  }

  /** The claims a joining device gets. */
  function JoinClaims(n: ManagedNetwork, r: EnrollmentRequest, addresses: seq<IpAddr>, now: Clock): MembershipClaims {
    MembershipClaims(r.networkId, r.deviceId, r.devicePublicKey, addresses,
                     if n.network.ipv6Prefix.Some? then [n.network.ipv4Prefix, n.network.ipv6Prefix.value]
                     else [n.network.ipv4Prefix], now, Some(now + 86_400))
  }

  /** What a successful enrollment changes: the device's claims, its certificate id if it had none,
      and the authorization epoch. */
  ghost predicate Joins(n: ManagedNetwork, n': ManagedNetwork, r: EnrollmentRequest, addresses: seq<IpAddr>, now: Clock,
                        freshId: Uuid)
  {
    && n' == n.(members := n'.members, certificateIds := n'.certificateIds, authorizationEpoch := n'.authorizationEpoch)
    && n'.members == n.members[r.deviceId := JoinClaims(n, r, addresses, now)]
    && n'.certificateIds == n.certificateIds[r.deviceId :=
         if r.deviceId in n.certificateIds then n.certificateIds[r.deviceId] else freshId]
    && n'.authorizationEpoch == (if n.authorizationEpoch < U64_MAX then n.authorizationEpoch + 1 else U64_MAX)
  }

  lemma EnrolledJoins(n: ManagedNetwork, r: EnrollmentRequest, addresses: seq<IpAddr>, now: Clock, freshId: Uuid)
    ensures Joins(n, Enrolled(n, r, addresses, now, freshId), r, addresses, now, freshId)
  {
    assert NetworkPrefixes(n.network) ==
           if n.network.ipv6Prefix.Some? then [n.network.ipv4Prefix, n.network.ipv6Prefix.value]
           else [n.network.ipv4Prefix];
    if r.deviceId in n.certificateIds {
      assert n.certificateIds[r.deviceId := n.certificateIds[r.deviceId]] == n.certificateIds;
    }
  }

  /** Enrollment succeeds exactly with a good token, an existing network and addresses to be had.
      A good token is bound to the device even when the rest fails; otherwise a failure changes
      nothing. */
  lemma EnrollIsExact(s: ControllerState, r: EnrollmentRequest, now: Clock, freshId: Uuid)
    ensures var (s', answer) := Enroll(s, r, now, freshId);
            && (answer.Ok? <==>
                  && TokenGood(s, r, now) && r.networkId in s.networks
                  && AssignedAddresses(s.networks[r.networkId].network, s.networks[r.networkId].members, r.deviceId).Ok?)
            && s'.tokens == (if TokenGood(s, r, now)
                             then s.tokens[r.token.value := s.tokens[r.token.value].(usedBy := Some(r.deviceId))]
                             else s.tokens)
            && s' == s.(networks := s'.networks, tokens := s'.tokens)
            && (answer.Err? ==> s'.networks == s.networks)
            && (answer == Err(NotFound) <==> TokenGood(s, r, now) && r.networkId !in s.networks)
            && (answer == Err(Unauthorized) <==>
                  !r.devicePublicKey.WrongLength? && r.token.Some? && !TokenGood(s, r, now))
            && (answer.Ok? ==>
                  && s'.networks.Keys == s.networks.Keys
                  && (forall x :: x in s.networks && x != r.networkId ==> s'.networks[x] == s.networks[x])
                  && var (n, n') := (s.networks[r.networkId], s'.networks[r.networkId]);
                  && Joins(n, n', r, AssignedAddresses(n.network, n.members, r.deviceId).value, now, freshId)
                  && answer.value.network == n.network && answer.value.networkKey == n.networkKey)
  {
    hide AssignedAddresses, SignAuthorization, CertificateFor, Enrolled, Joins;
    if r.networkId in s.networks {
      var n := s.networks[r.networkId];
      var a := AssignedAddresses(n.network, n.members, r.deviceId);
      if a.Ok? {
        EnrolledJoins(n, r, a.value, now, freshId);
        EnrolledNetwork(n, r, a.value, now, freshId);
      }
    }
  }

  lemma EnrolledNetwork(n: ManagedNetwork, r: EnrollmentRequest, addresses: seq<IpAddr>, now: Clock, freshId: Uuid)
    ensures var n' := Enrolled(n, r, addresses, now, freshId);
            n'.network == n.network && n'.networkKey == n.networkKey
  {
  }

  // ----- Removal

  function PlusOne(epoch: U64): U64 {
    if epoch < U64_MAX then epoch + 1 else U64_MAX
  }

  /** Everything a removal changes: the member, its certificate, which is revoked as of now, its
      policy entries, the traffic key, and the epochs of what changed. */
  ghost predicate Leaves(n: ManagedNetwork, n': ManagedNetwork, device: Uuid, now: Clock, networkKey: NetworkKey) {
    && n'.network == n.network && n'.networkKey == networkKey
    && (forall d :: d in n'.members <==> d in n.members && d != device)
    && (forall d :: d in n'.members ==> n'.members[d] == n.members[d])
    && (forall d :: d in n'.certificateIds <==> d in n.certificateIds && d != device)
    && (forall d :: d in n'.certificateIds ==> n'.certificateIds[d] == n.certificateIds[d])
    && n'.revoked == (if device in n.certificateIds then n.revoked[n.certificateIds[device] := now] else n.revoked)
    && (forall x :: x in n'.policy.routes <==> x in n.policy.routes && x.gatewayDeviceId != device)
    && (forall x :: x in n'.policy.exitNodes <==> x in n.policy.exitNodes && x.gatewayDeviceId != device)
    && n'.policy.dns == n.policy.dns
    && n'.networkKeyEpoch == PlusOne(n.networkKeyEpoch) && n'.authorizationEpoch == PlusOne(n.authorizationEpoch)
    && n'.policyEpoch == (if n'.policy == n.policy then n.policyEpoch else PlusOne(n.policyEpoch))
  }

  /** Which entries a policy keeps without a device, and when it is unchanged. */
  lemma WithoutExactly(p: ManagedPolicy, device: Uuid)
    ensures var q := Without(p, device);
            && (forall x :: x in q.routes <==> x in p.routes && x.gatewayDeviceId != device)
            && (forall x :: x in q.exitNodes <==> x in p.exitNodes && x.gatewayDeviceId != device)
            && q.dns == p.dns
            && (q == p <==> |q.routes| == |p.routes| && |q.exitNodes| == |p.exitNodes|)
  {
    var keepRoute := (r: ManagedPolicyRoute) => RoutedElsewhere(device, r);
    var keepExit := (x: ManagedExitNode) => ExitElsewhere(device, x);
    Sorting.FilterFacts(keepRoute, p.routes);
    Sorting.FilterFacts(keepExit, p.exitNodes);
    forall x ensures x in Without(p, device).routes <==> x in p.routes && x.gatewayDeviceId != device {
      Sorting.FilterMember(keepRoute, p.routes, x);
    }
    forall x ensures x in Without(p, device).exitNodes <==> x in p.exitNodes && x.gatewayDeviceId != device {
      Sorting.FilterMember(keepExit, p.exitNodes, x);
    }
  }

  lemma RemovedLeaves(n: ManagedNetwork, device: Uuid, now: Clock, networkKey: NetworkKey)
    ensures Leaves(n, Removed(n, device, now, networkKey), device, now, networkKey)
  {
    hide Without;
    WithoutExactly(n.policy, device);
  }

  /** Removal succeeds exactly for the administrator and a member; it changes that network alone. */
  lemma RemoveIsExact(s: ControllerState, supplied: string, id: Uuid, device: Uuid, now: Clock, networkKey: NetworkKey)
    ensures var (s', answer) := RemoveMember(s, supplied, id, device, now, networkKey);
            && (answer == Fail(Unauthorized) <==> supplied != s.adminToken)
            && (answer.Pass? <==> supplied == s.adminToken && id in s.networks && device in s.networks[id].members)
            && (answer.Fail? ==> s' == s)
            && (answer.Pass? ==>
                  && s' == s.(networks := s'.networks) && s'.networks.Keys == s.networks.Keys
                  && (forall x :: x in s.networks && x != id ==> s'.networks[x] == s.networks[x])
                  && Leaves(s.networks[id], s'.networks[id], device, now, networkKey))
  {
    hide Removed, Leaves;
    if id in s.networks {
      RemovedLeaves(s.networks[id], device, now, networkKey);
    }
  }

  // ----- Route authorization

  /** Route authorization succeeds exactly for the administrator and a member, with parseable
      prefixes none of which is a default route, within the limit, when the stored policy can
      still be signed; it changes that member's allowed routes and the dates of its claims. */
  lemma AllowIsExact(s: ControllerState, supplied: string, id: Uuid, device: Uuid, requested: seq<PrefixText>, now: Clock)
    requires id in s.networks ==> WellKeyed(s.networks[id])
    ensures var (s', answer) := AuthorizeMemberRoutes(s, supplied, id, device, requested, now);
            var proper := forall i :: 0 <= i < |requested| ==>
                            Parse(requested[i]).Some? && Parse(requested[i]).value.length > 0;
            && (answer == Err(Unauthorized) <==> supplied != s.adminToken)
            && (answer.Ok? <==>
                  && supplied == s.adminToken && id in s.networks && device in s.networks[id].members && proper
                  && var allowed := AllowedWith(s.networks[id], RequestedRoutes(requested).value);
                  |allowed| <= 258 && Signable(Reauthorized(s.networks[id], device, allowed, now)))
            && (answer.Err? ==> s' == s)
            && (answer.Ok? ==>
                  && s' == s.(networks := s'.networks) && s'.networks.Keys == s.networks.Keys
                  && (forall x :: x in s.networks && x != id ==> s'.networks[x] == s.networks[x])
                  && var (n, n') := (s.networks[id], s'.networks[id]);
                  && n' == n.(members := n.members[device := answer.value])
                  && answer.value == n.members[device].(
                       allowedRoutes := AllowedWith(n, RequestedRoutes(requested).value), issuedAt := now,
                       expiresAt := Some(now + 86_400)))
  {
    hide SignPolicy, Signable, AllowedWith, WellKeyed;
    assert RequestedRoutes(requested).Some? <==> forall i :: 0 <= i < |requested| ==>
        Parse(requested[i]).Some? && Parse(requested[i]).value.length > 0;
    if id in s.networks && device in s.networks[id].members && RequestedRoutes(requested).Some? {
      var n' := Reauthorized(s.networks[id], device, AllowedWith(s.networks[id], RequestedRoutes(requested).value), now);
      ReauthorizedWellKeyed(s.networks[id], device, AllowedWith(s.networks[id], RequestedRoutes(requested).value), now);
      SignPolicyIsExact(n', s.signingKey, now);
    }
  }

  lemma ReauthorizedWellKeyed(n: ManagedNetwork, device: Uuid, allowed: seq<PrefixText>, now: Clock)
    requires WellKeyed(n) && device in n.members
    ensures WellKeyed(Reauthorized(n, device, allowed, now))
  {
  }

  // ----- Who may change what

  /** The administrator token a request presents, if it is of the kind that needs one. */
  function Presents(e: Event): Option<string> {
    match e.step
    case Create(supplied, _, _) => Some(supplied)
    case Issue(supplied, _, _) => Some(supplied)
    case AllowRoutes(supplied, _, _, _) => Some(supplied)
    case ChangePolicy(supplied, _, _) => Some(supplied)
    case Remove(supplied, _, _, _) => Some(supplied)
    case Delete(supplied, _) => Some(supplied)
    case _ => None
  }

  /** A request with a wrong administrator token changes nothing. */
  lemma WrongTokenChangesNothing(s: ControllerState, e: Event)
    requires Presents(e).Some? && Presents(e).value != s.adminToken
    ensures NextState(s, e) == s
  {
    hide SignPolicy, AssignedAddresses, SignAuthorization, CertificateFor, CompactPolicy, Removed, Enrolled, Reauthorized,
         Candidate, AllowedWith, RequestedRoutes, NewNetwork, ValidRequest;
  }

  /** What enrollments alone can do to a network: add members, and renew claims. */
  ghost predicate OnlyJoined(n: ManagedNetwork, n': ManagedNetwork) {
    && n'.network == n.network && n'.networkKey == n.networkKey && n'.policy == n.policy && n'.revoked == n.revoked
    && n'.networkKeyEpoch == n.networkKeyEpoch && n'.policyEpoch == n.policyEpoch
    && n.members.Keys <= n'.members.Keys
    && forall d :: d in n.certificateIds ==> d in n'.certificateIds && n'.certificateIds[d] == n.certificateIds[d]
  }

  /** What holds of a state reached from another without the administrator. */
  ghost predicate Untouched(s: ControllerState, s': ControllerState) {
    && s'.adminToken == s.adminToken && s'.signingKey == s.signingKey
    && s'.networks.Keys == s.networks.Keys
    && (forall id :: id in s.networks ==> OnlyJoined(s.networks[id], s'.networks[id]))
    && s'.tokens.Keys == s.tokens.Keys
    && forall t :: t in s.tokens ==>
         s'.tokens[t].networkId == s.tokens[t].networkId && s'.tokens[t].expiresAt == s.tokens[t].expiresAt
  }

  lemma JoinLeavesUntouched(s: ControllerState, r: EnrollmentRequest, now: Clock, freshId: Uuid)
    ensures Untouched(s, Enroll(s, r, now, freshId).0)
  {
    EnrollIsExact(s, r, now, freshId);
    hide Enroll, AssignedAddresses, JoinClaims;
    var s' := Enroll(s, r, now, freshId).0;
    forall id | id in s.networks ensures id in s'.networks && OnlyJoined(s.networks[id], s'.networks[id]) {
    }
  }

  lemma NextWithoutAdmin(s: ControllerState, e: Event)
    requires Presents(e) != Some(s.adminToken)
    ensures Untouched(s, NextState(s, e))
  {
    hide NextState, Enroll, AssignedAddresses;
    if Presents(e).Some? {
      WrongTokenChangesNothing(s, e);
    } else {
      OtherSteps(s, e);
      if e.step.Join? {
        JoinLeavesUntouched(s, e.step.enrollment, e.now, e.freshId);
      }
    }
  }

  lemma OtherSteps(s: ControllerState, e: Event)
    requires Presents(e).None?
    ensures e.step.Join? ==> NextState(s, e) == Enroll(s, e.step.enrollment, e.now, e.freshId).0
    ensures !e.step.Join? ==> NextState(s, e) == s
  {
    hide Enroll;
  }

  lemma UntouchedThrough(a: ControllerState, b: ControllerState, c: ControllerState)
    requires Untouched(a, b) && Untouched(b, c)
    ensures Untouched(a, c)
  {
    forall id | id in a.networks ensures OnlyJoined(a.networks[id], c.networks[id]) {
      assert OnlyJoined(a.networks[id], b.networks[id]) && OnlyJoined(b.networks[id], c.networks[id]);
    }
  }

  /** Without the administrator token no run creates or deletes a network, issues a token, changes a
      policy, removes a member or changes a traffic key: all that can happen is that devices join. */
  lemma {:induction false} OnlyTheAdministrator(w: World, events: seq<Event>)
    requires forall i :: 0 <= i < |events| ==> Presents(events[i]) != Some(w.state.adminToken)
    ensures Untouched(w.state, Run(w, events).state)
    decreases events
  {
    hide NextState, Released, Untouched, Presents;
    if events == [] {
      UntouchedItself(w.state);
    } else {
      var (e, rest) := (events[0], events[1..]);
      NextWithoutAdmin(w.state, e);
      UntouchedToken(w.state, NextState(w.state, e));
      forall i | 0 <= i < |rest| ensures Presents(rest[i]) != Some(w.state.adminToken) {
        assert rest[i] == events[i + 1];
      }
      OnlyTheAdministrator(Next(w, e), rest);
      UntouchedThrough(w.state, NextState(w.state, e), Run(w, events).state);
    }
  }

  lemma UntouchedItself(s: ControllerState)
    ensures Untouched(s, s)
  {
  }

  lemma UntouchedToken(s: ControllerState, s': ControllerState)
    requires Untouched(s, s')
    ensures s'.adminToken == s.adminToken
  {
  }

  // ----- What is handed out is recorded

  /** Every certificate in an answer is one the run records as handed out. */
  lemma AnswersAreRecorded(w: World, e: Event)
    ensures e.step.Join? && Enroll(w.state, e.step.enrollment, e.now, e.freshId).1.Ok? ==>
              Enroll(w.state, e.step.enrollment, e.now, e.freshId).1.value.certificate in Next(w, e).certificates
    ensures e.step.Refresh? && e.step.nonceIsNew && RefreshAdmissible(w.state, e.step.refresh, e.now).Pass? ==>
              RefreshAnswer(w.state, e.step.refresh, e.step.answeredAt).certificate in Next(w, e).certificates
    ensures e.step.ReadPolicy? && GetPolicy(w.state, e.step.networkId, e.now).Ok? ==>
              ManifestRecorded(w, e, GetPolicy(w.state, e.step.networkId, e.now).value)
    ensures e.step.ChangePolicy? ==>
              var answer := UpdatePolicy(w.state, e.step.supplied, e.step.networkId, e.step.policy, e.now).1;
              answer.Ok? ==> ManifestRecorded(w, e, answer.value)
    ensures w.certificates <= Next(w, e).certificates
  {
    hide NextState, SignPolicy, AssignedAddresses, SignAuthorization, CertificateFor, RefreshAdmissible;
  }

  ghost predicate ManifestRecorded(w: World, e: Event, m: PolicyManifest) {
    && (forall i :: 0 <= i < |m.payload.routes| ==> m.payload.routes[i].gateway in Next(w, e).certificates)
    && (forall i :: 0 <= i < |m.payload.exitNodes| ==> m.payload.exitNodes[i].gateway in Next(w, e).certificates)
  }
}
