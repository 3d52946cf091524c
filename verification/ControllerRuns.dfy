/** Whole runs of a controller: any sequence of requests, in any order, with any arguments. */
module ControllerRuns {
  import opened Wrappers
  import opened Bytes
  import opened Cidr
  import opened Crypto
  import opened Membership
  import opened Authorization
  import opened Policy
  import opened ControllerModel
  import opened NetworkInvariants

  datatype Step =
    | Create(supplied: string, request: UpsertRequest, networkKey: NetworkKey)
    | Issue(supplied: string, networkId: Uuid, lifetime: Option<U64>)
    | Join(enrollment: EnrollmentRequest)
    | AllowRoutes(supplied: string, networkId: Uuid, device: Uuid, requested: seq<PrefixText>)
    | ChangePolicy(supplied: string, networkId: Uuid, policy: ManagedPolicy)
    | Remove(supplied: string, networkId: Uuid, device: Uuid, networkKey: NetworkKey)
    | Delete(supplied: string, networkId: Uuid)
    | ReadPolicy(networkId: Uuid)
    | Refresh(refresh: RefreshRequest, nonceIsNew: bool, answeredAt: Clock)

  /** A request with the clock it reads and the random identifier it draws. */
  datatype Event = Event(step: Step, now: Clock, freshId: Uuid)

  /** The controller together with everything it has ever drawn and issued. */
  datatype World = World(
    state: ControllerState, issuedIds: set<Uuid>, certificates: set<MembershipCertificate>)

  function ManifestCertificates(r: Result<PolicyManifest, ApiError>): set<MembershipCertificate> {
    match r
    case Err(_) => {}
    case Ok(m) =>
      (set i | 0 <= i < |m.payload.routes| :: m.payload.routes[i].gateway) +
      (set i | 0 <= i < |m.payload.exitNodes| :: m.payload.exitNodes[i].gateway)
  }

  function NextState(s: ControllerState, e: Event): ControllerState {
    match e.step
    case Create(supplied, request, networkKey) => CreateNetwork(s, supplied, request, e.freshId, networkKey).0
    case Issue(supplied, networkId, lifetime) => IssueToken(s, supplied, networkId, lifetime, e.now, e.freshId).0
    case Join(enrollment) => Enroll(s, enrollment, e.now, e.freshId).0
    case AllowRoutes(supplied, networkId, device, requested) =>
      AuthorizeMemberRoutes(s, supplied, networkId, device, requested, e.now).0
    case ChangePolicy(supplied, networkId, policy) => UpdatePolicy(s, supplied, networkId, policy, e.now).0
    case Remove(supplied, networkId, device, networkKey) =>
      RemoveMember(s, supplied, networkId, device, e.now, networkKey).0
    case Delete(supplied, networkId) => DeleteNetwork(s, supplied, networkId).0
    case ReadPolicy(_) => s
    case Refresh(_, _, _) => s
  }

  /** The certificates a request hands out. */
  function Released(s: ControllerState, e: Event): set<MembershipCertificate> {
    match e.step
    case Join(enrollment) =>
      (match Enroll(s, enrollment, e.now, e.freshId).1
       case Err(_) => {}
       case Ok(response) => {response.certificate})
    case ChangePolicy(supplied, networkId, policy) =>
      ManifestCertificates(UpdatePolicy(s, supplied, networkId, policy, e.now).1)
    case ReadPolicy(networkId) => ManifestCertificates(GetPolicy(s, networkId, e.now))
    case Refresh(refresh, nonceIsNew, answeredAt) =>
      if nonceIsNew && RefreshAdmissible(s, refresh, e.now).Pass?
      then {RefreshAnswer(s, refresh, answeredAt).certificate} else {}
    case _ => {}
  }

  function Next(w: World, e: Event): World {
    World(NextState(w.state, e), w.issuedIds + {e.freshId}, w.certificates + Released(w.state, e))
  }

  /** A random identifier is one that was never drawn before.  The clock may show anything. */
  predicate CanHappen(w: World, e: Event) {
    e.freshId !in w.issuedIds && e.freshId != NIL_UUID
  }

  function Run(w: World, events: seq<Event>): World
    decreases events
  {
    if events == [] then w else Run(Next(w, events[0]), events[1..])
  }

  predicate Runs(w: World, events: seq<Event>)
    decreases events
  {
    events == [] || (CanHappen(w, events[0]) && Runs(Next(w, events[0]), events[1..]))
  }

  function Initial(key: SigningKey, adminToken: string): World {
    World(ControllerState(key, adminToken, map[], map[]), {}, {})
  }

  // ----- Networks

  ghost predicate NetworksInv(s: ControllerState, issued: set<Uuid>) {
    forall id :: id in s.networks ==> NetworkInv(s.networks[id], id, issued)
  }

  /** What one request does to one network it finds: nothing, or exactly one of these. */
  ghost predicate Change(n: ManagedNetwork, n': ManagedNetwork, id: Uuid, e: Event, key: SigningKey) {
    || n' == n
    || (&& e.step.Join? && e.step.enrollment.networkId == id
        && var r := e.step.enrollment;
        && var a := AssignedAddresses(n.network, n.members, r.deviceId);
        && a.Ok? && n' == Enrolled(n, r, a.value, e.now, e.freshId))
    || (&& e.step.AllowRoutes? && e.step.device in n.members
        && var requested := RequestedRoutes(e.step.requested);
        && requested.Some?
        && n' == Reauthorized(n, e.step.device, AllowedWith(n, requested.value), e.now)
        && SignPolicy(n', key, e.now).Ok?)
    || (&& e.step.ChangePolicy?
        && var signed := SignPolicy(Candidate(n, e.step.policy), key, e.now);
        && signed.Ok? && n' == Candidate(n, e.step.policy).(policy := CompactPolicy(signed.value)))
    || (&& e.step.Remove? && e.step.networkId == id && e.step.device in n.members
        && n' == Removed(n, e.step.device, e.now, e.step.networkKey))
  }

  lemma NextChange(s: ControllerState, e: Event, id: Uuid)
    requires id in s.networks && Spares(id, e)
    ensures id in NextState(s, e).networks
    ensures Change(s.networks[id], NextState(s, e).networks[id], id, e, s.signingKey)
  {
    hide SignPolicy, AssignedAddresses, SignAuthorization, CertificateFor, CompactPolicy, ValidRequest, Removed,
         Enrolled, Reauthorized, Candidate, AllowedWith, RequestedRoutes;
  }

  /** A network that was not there is a new one. */
  lemma NextNew(s: ControllerState, e: Event, id: Uuid)
    requires id !in s.networks && id in NextState(s, e).networks
    ensures e.step.Create? && ValidRequest(e.step.request)
    ensures var r := e.step.request;
            NextState(s, e).networks[id] == NewNetwork(Requested(r, id), e.step.networkKey)
  {
    hide SignPolicy, AssignedAddresses, SignAuthorization, CertificateFor, CompactPolicy, ValidRequest, Removed,
         Enrolled, Reauthorized, Candidate, AllowedWith, RequestedRoutes, NewNetwork;
  }

  lemma NextDeleted(s: ControllerState, e: Event, id: Uuid)
    requires id in NextState(s, e).networks && id in s.networks && !Spares(id, e)
    ensures NextState(s, e).networks[id] == s.networks[id]
  {
  }

  lemma ChangeKeepsInv(n: ManagedNetwork, n': ManagedNetwork, id: Uuid, e: Event, key: SigningKey,
                       issued: set<Uuid>)
    requires NetworkInv(n, id, issued) && Change(n, n', id, e, key)
    requires e.freshId !in issued && e.freshId != NIL_UUID
    ensures NetworkInv(n', id, issued + {e.freshId})
  {
    hide NetworkInv, SignPolicy, AssignedAddresses, Removed, Enrolled, CompactPolicy, Reauthorized, Candidate,
        AllowedWith;
    MoreIssued(n, id, issued, issued + {e.freshId});
    if n' != n {
      match e.step
      case Join(r) =>
        EnrolledInv(n, id, issued, r, e.now, e.freshId);
      case AllowRoutes(_, _, device, requested) =>
        AllowedInv(n, id, issued + {e.freshId}, device, AllowedWith(n, RequestedRoutes(requested).value), e.now);
      case ChangePolicy(_, _, policy) =>
        UpdatedInv(n, id, issued + {e.freshId}, policy, key, e.now);
      case Remove(_, _, device, networkKey) =>
        RemovedInv(n, id, issued + {e.freshId}, device, e.now, networkKey);
      case _ =>
    }
  }

  lemma NextKeepsNetworks(w: World, e: Event)
    requires NetworksInv(w.state, w.issuedIds) && CanHappen(w, e)
    ensures NetworksInv(Next(w, e).state, Next(w, e).issuedIds)
  {
    hide NetworkInv, NextState, Change, NewNetwork, ValidRequest;
    var (s, s') := (w.state, NextState(w.state, e));
    var issued' := w.issuedIds + {e.freshId};
    forall id | id in s'.networks ensures NetworkInv(s'.networks[id], id, issued') {
      if id !in s.networks {
        NextNew(s, e, id);
        NewNetworkInv(e.step.request, id, e.step.networkKey, issued');
      } else if Spares(id, e) {
        NextChange(s, e, id);
        ChangeKeepsInv(s.networks[id], s'.networks[id], id, e, s.signingKey, w.issuedIds);
      } else {
        NextDeleted(s, e, id);
        MoreIssued(s.networks[id], id, w.issuedIds, issued');
      }
    }
  }

  /** Over every run from an empty controller, every network satisfies its invariant: one
      address of each required kind per member, all distinct; one live certificate identifier
      per member, never a revoked one; a policy in normal form. */
  lemma {:induction false} RunKeepsNetworks(w: World, events: seq<Event>)
    requires NetworksInv(w.state, w.issuedIds) && Runs(w, events)
    ensures NetworksInv(Run(w, events).state, Run(w, events).issuedIds)
    decreases events
  {
    hide Next, NetworksInv, CanHappen;
    if events == [] {
    } else {
      NextKeepsNetworks(w, events[0]);
      RunKeepsNetworks(Next(w, events[0]), events[1..]);
    }
  }

  /** The address guarantee, spelled out for two members of a network in any reachable state. */
  lemma AddressesNeverCollide(key: SigningKey, adminToken: string, events: seq<Event>,
                              id: Uuid, d: Uuid, e: Uuid, i: nat, j: nat)
    requires Runs(Initial(key, adminToken), events)
    requires id in Run(Initial(key, adminToken), events).state.networks
    requires var n := Run(Initial(key, adminToken), events).state.networks[id];
             && d in n.members && e in n.members
             && i < |n.members[d].assignedAddresses| && j < |n.members[e].assignedAddresses|
    ensures var n := Run(Initial(key, adminToken), events).state.networks[id];
            && OwnAddresses(n.network, n.members[d].assignedAddresses)
            && (n.members[d].assignedAddresses[i] == n.members[e].assignedAddresses[j] <==> d == e && i == j)
  {
    RunKeepsNetworks(Initial(key, adminToken), events);
    var w := Run(Initial(key, adminToken), events);
    hide Run, Runs;
    var n := w.state.networks[id];
    assert NetworkInv(n, id, w.issuedIds);
    AddressesDistinct(n, d, e, i, j);
  }

  lemma AddressesDistinct(n: ManagedNetwork, d: Uuid, e: Uuid, i: nat, j: nat)
    requires AddressInv(n) && d in n.members && e in n.members
    requires i < |n.members[d].assignedAddresses| && j < |n.members[e].assignedAddresses|
    ensures OwnAddresses(n.network, n.members[d].assignedAddresses)
    ensures n.members[d].assignedAddresses[i] == n.members[e].assignedAddresses[j] <==> d == e && i == j
  {
    var (a, b) := (n.members[d].assignedAddresses, n.members[e].assignedAddresses);
    assert OwnAddresses(n.network, a);
    if d != e {
      assert Disjoint(a, b);
      assert a[i] in a && b[j] in b;
    }
  }

  // ----- One network through a run

  /** The request does not take the network away. */
  predicate Spares(id: Uuid, e: Event) {
    e.step.Delete? ==> e.step.networkId != id
  }

  /** How one network may change in one request that does not delete it. */
  ghost predicate Evolves(n: ManagedNetwork, n': ManagedNetwork) {
    && n'.network == n.network
    && n.networkKeyEpoch <= n'.networkKeyEpoch
    && n.authorizationEpoch <= n'.authorizationEpoch
    && n.policyEpoch <= n'.policyEpoch
    && n.revoked.Keys <= n'.revoked.Keys
  }

  lemma NextEvolves(s: ControllerState, e: Event, id: Uuid)
    requires id in s.networks && Spares(id, e)
    ensures id in NextState(s, e).networks
    ensures Evolves(s.networks[id], NextState(s, e).networks[id])
  {
    NextChange(s, e, id);
    hide NextState, SignPolicy, AssignedAddresses, CompactPolicy, Without;
  }

  /** Between creation and deletion, no epoch of a network ever goes down, its prefixes never
      change, and nothing leaves its revoked set. */
  lemma {:induction false} EpochsNeverDecrease(w: World, events: seq<Event>, id: Uuid)
    requires id in w.state.networks
    requires forall i :: 0 <= i < |events| ==> Spares(id, events[i])
    ensures id in Run(w, events).state.networks
    ensures Evolves(w.state.networks[id], Run(w, events).state.networks[id])
    decreases events
  {
    hide NextState;
    if events == [] {
    } else {
      assert Spares(id, events[0]);
      NextEvolves(w.state, events[0], id);
      forall i | 0 <= i < |events| - 1 ensures Spares(id, events[1..][i]) {
        assert events[1..][i] == events[i + 1];
      }
      EpochsNeverDecrease(Next(w, events[0]), events[1..], id);
    }
  }

  predicate KeepsMember(id: Uuid, d: Uuid, e: Event) {
    Spares(id, e) && (e.step.Remove? ==> e.step.networkId != id || e.step.device != d)
  }

  ghost predicate SameIdentity(n: ManagedNetwork, n': ManagedNetwork, d: Uuid) {
    && d in n.members && d in n'.members && d in n.certificateIds && d in n'.certificateIds
    && n'.members[d].assignedAddresses == n.members[d].assignedAddresses
    && n'.certificateIds[d] == n.certificateIds[d]
  }

  lemma RemovedKeepsOthers(n: ManagedNetwork, device: Uuid, now: Clock, networkKey: NetworkKey, d: Uuid)
    requires d != device && d in n.members && d in n.certificateIds
    ensures SameIdentity(n, Removed(n, device, now, networkKey), d)
  {
    hide Without;
  }

  lemma EnrolledKeepsMembers(n: ManagedNetwork, r: EnrollmentRequest, now: Clock, freshId: Uuid,
                             d: Uuid)
    requires AddressInv(n) && d in n.members && d in n.certificateIds
    requires AssignedAddresses(n.network, n.members, r.deviceId).Ok?
    ensures SameIdentity(n, Enrolled(n, r, AssignedAddresses(n.network, n.members, r.deviceId).value, now, freshId), d)
  {
    MemberKeepsAddresses(n, d);
    hide AssignedAddresses, AddressInv;
  }

  lemma OthersKeepMembers(n: ManagedNetwork, device: Uuid, allowed: seq<PrefixText>, now: Clock,
                          request: ManagedPolicy, policy: ManagedPolicy, d: Uuid)
    requires d in n.members && d in n.certificateIds
    ensures device in n.members ==> SameIdentity(n, Reauthorized(n, device, allowed, now), d)
    ensures SameIdentity(n, Candidate(n, request).(policy := policy), d)
  {
  }

  lemma ChangeKeepsMember(n: ManagedNetwork, n': ManagedNetwork, id: Uuid, e: Event,
                          key: SigningKey, issued: set<Uuid>, d: Uuid)
    requires NetworkInv(n, id, issued) && Change(n, n', id, e, key)
    requires d in n.members && KeepsMember(id, d, e)
    ensures SameIdentity(n, n', d)
  {
    assert d in n.certificateIds && AddressInv(n);
    hide NetworkInv, SignPolicy, AssignedAddresses, CompactPolicy, AllowedWith, RequestedRoutes, SameIdentity, Enrolled,
         Removed, Reauthorized, Candidate, AddressInv;
    if n' == n {
      SameAsItself(n, d);
    } else {
      match e.step
      case Join(r) => EnrolledKeepsMembers(n, r, e.now, e.freshId, d);
      case AllowRoutes(_, _, device, requested) =>
        OthersKeepMembers(n, device, AllowedWith(n, RequestedRoutes(requested).value), e.now, n.policy, n.policy, d);
      case ChangePolicy(_, _, policy) =>
        OthersKeepMembers(n, d, [], e.now, policy, CompactPolicy(SignPolicy(Candidate(n, policy), key, e.now).value),
            d);
      case Remove(_, _, device, networkKey) => RemovedKeepsOthers(n, device, e.now, networkKey, d);
      case _ =>
    }
  }

  lemma SameAsItself(n: ManagedNetwork, d: Uuid)
    requires d in n.members && d in n.certificateIds
    ensures SameIdentity(n, n, d)
  {
  }

  lemma SameThrough(a: ManagedNetwork, b: ManagedNetwork, c: ManagedNetwork, d: Uuid)
    requires SameIdentity(a, b, d) && SameIdentity(b, c, d)
    ensures SameIdentity(a, c, d)
  {
  }

  lemma NextKeepsMember(w: World, e: Event, id: Uuid, d: Uuid)
    requires NetworksInv(w.state, w.issuedIds) && KeepsMember(id, d, e)
    requires id in w.state.networks && d in w.state.networks[id].members
    ensures id in Next(w, e).state.networks
    ensures SameIdentity(w.state.networks[id], Next(w, e).state.networks[id], d)
    ensures d in Next(w, e).state.networks[id].members
  {
    assert NetworkInv(w.state.networks[id], id, w.issuedIds);
    NextChange(w.state, e, id);
    hide NextState, Released, NetworkInv, NetworksInv, Change;
    ChangeKeepsMember(w.state.networks[id], NextState(w.state, e).networks[id], id, e, w.state.signingKey,
        w.issuedIds, d);
  }

  /** A device keeps its addresses and its certificate identifier, however often it enrolls
      again, until it is removed or the network is deleted. */
  lemma {:induction false} MemberKeepsIdentity(w: World, events: seq<Event>, id: Uuid, d: Uuid)
    requires NetworksInv(w.state, w.issuedIds) && Runs(w, events)
    requires id in w.state.networks && d in w.state.networks[id].members
    requires forall i :: 0 <= i < |events| ==> KeepsMember(id, d, events[i])
    ensures id in Run(w, events).state.networks
    ensures SameIdentity(w.state.networks[id], Run(w, events).state.networks[id], d)
    decreases events
  {
    hide Next, NetworksInv, CanHappen, SameIdentity;
    if events == [] {
      IdentityOf(w, id, d);
      SameAsItself(w.state.networks[id], d);
    } else {
      var (e, rest) := (events[0], events[1..]);
      NextKeepsMember(w, e, id, d);
      NextKeepsNetworks(w, e);
      forall i | 0 <= i < |rest| ensures KeepsMember(id, d, rest[i]) {
        assert rest[i] == events[i + 1];
      }
      var w' := Next(w, e);
      MemberKeepsIdentity(w', rest, id, d);
      SameThrough(w.state.networks[id], w'.state.networks[id], Run(w', rest).state.networks[id], d);
    }
  }

  lemma IdentityOf(w: World, id: Uuid, d: Uuid)
    requires NetworksInv(w.state, w.issuedIds) && id in w.state.networks && d in w.state.networks[id].members
    ensures d in w.state.networks[id].certificateIds
  {
    assert NetworkInv(w.state.networks[id], id, w.issuedIds);
  }
}
