/** Which requests keep a stored policy signable. */
module SignableSteps {
  import opened Wrappers
  import opened Bytes
  import opened Cidr
  import opened Crypto
  import opened Policy
  import opened ControllerModel
  import opened Signability
  import opened NormalPolicies
  import opened NetworkInvariants
  import opened ControllerRuns
  import opened ExampleNetworks
  import opened Sorting

  // ----- Enrollment

  predicate InsideNetwork(v: VirtualNetwork, prefix: PrefixText) {
    exists i :: 0 <= i < |NetworkPrefixes(v)| && PrefixCovers(NetworkPrefixes(v)[i], prefix)
  }

  /** Every route the policy sends through the device lies inside the network's own prefixes. */
  predicate RoutesStayInside(n: ManagedNetwork, device: Uuid) {
    forall i :: 0 <= i < |n.policy.routes| && n.policy.routes[i].gatewayDeviceId == device ==>
      InsideNetwork(n.network, n.policy.routes[i].prefix)
  }

  /** Enrollment keeps the policy signable exactly when the device's routes lie inside the
      network: it resets what the device may route to the network's prefixes. */
  lemma EnrolledSignable(n: ManagedNetwork, r: EnrollmentRequest, a: seq<IpAddr>, now: Clock,
                         freshId: Uuid)
    requires Signable(n)
    ensures Signable(Enrolled(n, r, a, now, freshId)) <==> RoutesStayInside(n, r.deviceId)
  {
    hide ShapeOk, PrefixCovers;
    var n' := Enrolled(n, r, a, now, freshId);
    forall i | 0 <= i < |n.policy.routes|
      ensures HasCertificate(n', n.policy.routes[i].gatewayDeviceId)
      ensures AllowedRoute(n', n.policy.routes[i]) <==>
                (n.policy.routes[i].gatewayDeviceId == r.deviceId ==> InsideNetwork(n.network,
                    n.policy.routes[i].prefix))
    {
      assert HasCertificate(n, n.policy.routes[i].gatewayDeviceId) && AllowedRoute(n, n.policy.routes[i]);
    }
    forall i | 0 <= i < |n.policy.exitNodes| ensures HasCertificate(n', n.policy.exitNodes[i].gatewayDeviceId) {
      assert HasCertificate(n, n.policy.exitNodes[i].gatewayDeviceId);
    }
  }

  /** A device that is not a member has no routes, so a first enrollment is always harmless. */
  lemma NewcomerHasNoRoutes(n: ManagedNetwork, device: Uuid)
    requires Signable(n) && device !in n.members
    ensures RoutesStayInside(n, device)
  {
    assert forall i :: 0 <= i < |n.policy.routes| ==> HasCertificate(n, n.policy.routes[i].gatewayDeviceId);
  }

  // ----- The other requests

  lemma RemovedRoutesOk(n: ManagedNetwork, device: Uuid, now: Clock, networkKey: NetworkKey)
    requires RouteGatewaysOk(n, n.policy.routes)
    ensures var n' := Removed(n, device, now, networkKey); RouteGatewaysOk(n', n'.policy.routes)
  {
    hide PrefixCovers;
    var n' := Removed(n, device, now, networkKey);
    forall i | 0 <= i < |n'.policy.routes|
      ensures HasCertificate(n', n'.policy.routes[i].gatewayDeviceId) && AllowedRoute(n', n'.policy.routes[i])
    {
      var route := n'.policy.routes[i];
      FilterMember(r => RoutedElsewhere(device, r), n.policy.routes, route);
      assert HasCertificate(n, route.gatewayDeviceId) && AllowedRoute(n, route);
    }
  }

  lemma RemovedExitsOk(n: ManagedNetwork, device: Uuid, now: Clock, networkKey: NetworkKey)
    requires ExitGatewaysOk(n, n.policy.exitNodes)
    ensures var n' := Removed(n, device, now, networkKey); ExitGatewaysOk(n', n'.policy.exitNodes)
  {
    var n' := Removed(n, device, now, networkKey);
    forall i | 0 <= i < |n'.policy.exitNodes| ensures HasCertificate(n', n'.policy.exitNodes[i].gatewayDeviceId) {
      var x := n'.policy.exitNodes[i];
      FilterMember(y => ExitElsewhere(device, y), n.policy.exitNodes, x);
      assert HasCertificate(n, x.gatewayDeviceId);
    }
  }

  lemma RemovedSignable(n: ManagedNetwork, device: Uuid, now: Clock, networkKey: NetworkKey)
    requires Signable(n)
    ensures Signable(Removed(n, device, now, networkKey))
  {
    WithoutShape(n.policy, device);
    hide ShapeOk, RouteGatewaysOk, ExitGatewaysOk;
    RemovedRoutesOk(n, device, now, networkKey);
    RemovedExitsOk(n, device, now, networkKey);
    hide Without;
  }

  lemma NormalRoutesOk(n: ManagedNetwork, n': ManagedNetwork, routes: seq<ManagedPolicyRoute>)
    requires n'.members == n.members && n'.certificateIds == n.certificateIds
    requires RouteGatewaysOk(n, routes)
    ensures RouteGatewaysOk(n', Sort(EntryLe, Map(PrintEntry, routes)))
  {
    var printed := Map(PrintEntry, routes);
    SortFacts(EntryLe, printed);
    hide Sort, AllowedRoute;
    var normal := Sort(EntryLe, printed);
    forall i | 0 <= i < |normal|
      ensures HasCertificate(n', normal[i].gatewayDeviceId) && AllowedRoute(n', normal[i])
    {
      assert normal[i] in printed;
      var j :| 0 <= j < |printed| && printed[j] == normal[i];
      PrintedAllowed(n, n', routes[j]);
    }
  }

  /** Storing the normal form instead of what was submitted keeps it signable. */
  lemma NormalizedSignable(n: ManagedNetwork)
    requires Signable(n)
    ensures Signable(n.(policy := NormalForm(n.policy)))
  {
    NormalFormIsNormal(n.policy);
    NormalShape(NormalForm(n.policy));
    var n' := n.(policy := NormalForm(n.policy));
    hide ShapeOk, IsNormal, Sort, RouteGatewaysOk;
    NormalRoutesOk(n, n', n.policy.routes);
    SortFacts(ExitEntryLe, n.policy.exitNodes);
    forall i | 0 <= i < |n'.policy.exitNodes| ensures HasCertificate(n', n'.policy.exitNodes[i].gatewayDeviceId) {
      assert n'.policy.exitNodes[i] in n.policy.exitNodes;
    }
  }

  lemma NormalShape(p: ManagedPolicy)
    requires IsNormal(p)
    ensures ShapeOk(p)
  {
  }

  lemma PrintedAllowed(n: ManagedNetwork, n': ManagedNetwork, route: ManagedPolicyRoute)
    requires n'.members == n.members && n'.certificateIds == n.certificateIds
    requires HasCertificate(n, route.gatewayDeviceId) && AllowedRoute(n, route)
    ensures HasCertificate(n', PrintEntry(route).gatewayDeviceId) && AllowedRoute(n', PrintEntry(route))
  {
    var allowed := n.members[route.gatewayDeviceId].allowedRoutes;
    var i :| 0 <= i < |allowed| && PrefixCovers(allowed[i], route.prefix);
    assert PrefixCovers(allowed[i], PrintEntry(route).prefix);
  }

  /** The text is the printed form of the requested prefix, which is not a default route. */
  predicate IsRequested(requested: PrefixText, text: PrefixText) {
    Parse(requested).Some? && Parse(requested).value.length > 0 && text == Spelled(Parse(requested).value, 0)
  }

  /** Which texts are printed for a list of requests. */
  lemma PrintedExactly(requested: seq<PrefixText>, text: PrefixText)
    requires RequestedRoutes(requested).Some?
    ensures text in RequestedRoutes(requested).value <==>
              exists i :: 0 <= i < |requested| && IsRequested(requested[i], text)
  {
    var printed := RequestedRoutes(requested).value;
    if text in printed {
      var i :| 0 <= i < |printed| && printed[i] == text;
      assert IsRequested(requested[i], text);
    }
    if i :| 0 <= i < |requested| && IsRequested(requested[i], text) {
      assert ParseRoute(requested[i]).Ok?;
      assert printed[i] == text;
    }
  }

  /** Route authorization replaces a member's allowed routes by the network's own prefixes and
      the printed forms of what was requested, each once, in order. */
  lemma AllowedExactly(n: ManagedNetwork, requested: seq<PrefixText>, text: PrefixText)
    requires RequestedRoutes(requested).Some?
    ensures var allowed := AllowedWith(n, RequestedRoutes(requested).value);
            && Sorted(TextLe, allowed) && Distinct(allowed)
            && (text in allowed <==>
                  || text in NetworkPrefixes(n.network)
                  || exists i :: 0 <= i < |requested| && IsRequested(requested[i], text))
  {
    hide Sort, Dedup, NetworkPrefixes, IsRequested, TextLe, RequestedRoutes;
    OrdersAreTotal();
    var all := NetworkPrefixes(n.network) + RequestedRoutes(requested).value;
    SortFacts(TextLe, all);
    SortSorts(TextLe, all);
    DedupDistinct(TextLe, Sort(TextLe, all));
    DedupFacts(Sort(TextLe, all));
    PrintedExactly(requested, text);
  }

  // ----- A join that breaks the policy

  /** A controller whose one network has a gateway to a prefix the administrator allowed it,
      and the token the gateway enrolled with. */
  function GatewayState(home: IpNet, office: IpNet, address: IpAddr, key: PublicKey, signingKey: SigningKey,
                        adminToken: string, expiresAt: U64): ControllerState
  {
    ControllerState(signingKey, adminToken,
                    map[NETWORK := Lone(home, address, key, [Print(office)], RouteThrough(office))],
                    map[5 := EnrollmentToken(NETWORK, expiresAt, Some(1))])
  }

  /** The gateway enrolls again with its token. */
  function Rejoin(key: PublicKey): EnrollmentRequest {
    EnrollmentRequest(NETWORK, 1, key, Some(5))
  }

  lemma GatewaySignable(home: IpNet, office: IpNet, address: IpAddr, key: PublicKey)
    requires office.length > 0
    ensures Signable(Lone(home, address, key, [Print(office)], RouteThrough(office)))
  {
    var n := Lone(home, address, key, [Print(office)], RouteThrough(office));
    EmptyIsNormal();
    hide NormalForm, DnsShape;
    assert PrefixCovers(n.members[1].allowedRoutes[1], n.policy.routes[0].prefix);
    assert AllowedRoute(n, n.policy.routes[0]);
  }

  lemma GatewayRoutesLeave(home: IpNet, office: IpNet, address: IpAddr, key: PublicKey)
    requires !NetCovers(home, office)
    ensures !RoutesStayInside(Lone(home, address, key, [Print(office)], RouteThrough(office)), 1)
  {
    hide NetCovers;
    var n := Lone(home, address, key, [Print(office)], RouteThrough(office));
    assert n.policy.routes[0].gatewayDeviceId == 1;
    assert NetworkPrefixes(n.network) == [Print(home)];
    assert !InsideNetwork(n.network, n.policy.routes[0].prefix);
  }

  lemma GatewayInv(home: IpNet, office: IpNet, address: IpAddr, key: PublicKey)
    requires V4Host(home, address) && office.length > 0
    ensures NetworkInv(Lone(home, address, key, [Print(office)], RouteThrough(office)), NETWORK, {3, 5})
    ensures var n := Lone(home, address, key, [Print(office)], RouteThrough(office));
            AssignedAddresses(n.network, n.members, 1) == Ok([address])
  {
    RouteThroughIsNormal(office);
    LoneInv(home, address, key, [Print(office)], RouteThrough(office), {3, 5});
    MemberKeepsAddresses(Lone(home, address, key, [Print(office)], RouteThrough(office)), 1);
    hide NetworkInv, AssignedAddresses;
  }

  lemma RejoinChanges(home: IpNet, office: IpNet, address: IpAddr, key: PublicKey, now: Clock, freshId: Uuid)
    ensures var n := Lone(home, address, key, [Print(office)], RouteThrough(office));
            Enrolled(n, Rejoin(key), [address], now, freshId) != n
  {
    var n := Lone(home, address, key, [Print(office)], RouteThrough(office));
    assert |Enrolled(n, Rejoin(key), [address], now, freshId).members[1].allowedRoutes| == 1;
  }

  /** The state is one a controller can be in, and the enrollment goes through. */
  lemma RejoinGoesThrough(home: IpNet, office: IpNet, address: IpAddr, key: PublicKey,
                          signingKey: SigningKey, adminToken: string, expiresAt: U64, now: Clock,
                          freshId: Uuid)
    requires V4Host(home, address) && office.length > 0
    requires !key.WrongLength? && now <= expiresAt
    ensures var s := GatewayState(home, office, address, key, signingKey, adminToken, expiresAt);
            var n := s.networks[NETWORK];
            && NetworksInv(s, {3, 5})
            && Enroll(s, Rejoin(key), now, freshId).1.Ok?
            && Enroll(s, Rejoin(key), now, freshId).0.signingKey == signingKey
            && Enroll(s, Rejoin(key), now, freshId).0.networks ==
                 map[NETWORK := Enrolled(n, Rejoin(key), [address], now, freshId)]
            && Enrolled(n, Rejoin(key), [address], now, freshId) != n
  {
    GatewayInv(home, office, address, key);
    RejoinChanges(home, office, address, key, now, freshId);
    hide NetworkInv, SignAuthorization, CertificateFor, AssignedAddresses, Enrolled, Lone, RouteThrough;
    var n := Lone(home, address, key, [Print(office)], RouteThrough(office));
    var s := GatewayState(home, office, address, key, signingKey, adminToken, expiresAt);
    assert Enroll(s, Rejoin(key), now, freshId).0.networks ==
           map[NETWORK := Enrolled(n, Rejoin(key), [address], now, freshId)];
  }

  /** When the network's prefix does not cover what the gateway serves, the gateway enrolling
      again leaves the controller unable to serve its own policy, which it served before. */
  lemma RejoinBreaksPolicy(home: IpNet, office: IpNet, address: IpAddr, key: PublicKey,
                           signingKey: SigningKey, adminToken: string, expiresAt: U64, now: Clock,
                           freshId: Uuid, t: Clock)
    requires V4Host(home, address) && office.length > 0 && !NetCovers(home, office)
    requires !key.WrongLength? && now <= expiresAt
    ensures var s := GatewayState(home, office, address, key, signingKey, adminToken, expiresAt);
            && NetworksInv(s, {3, 5}) && GetPolicy(s, NETWORK, t).Ok?
            && Enroll(s, Rejoin(key), now, freshId).1.Ok?
            && GetPolicy(Enroll(s, Rejoin(key), now, freshId).0, NETWORK, t) == Err(Internal)
  {
    RejoinGoesThrough(home, office, address, key, signingKey, adminToken, expiresAt, now, freshId);
    RejoinUnsignable(home, office, address, key, signingKey, now, freshId, t);
    hide SignPolicy, NetworksInv, Enroll, Enrolled, Lone, RouteThrough, NetCovers, V4Host;
  }

  lemma RejoinUnsignable(home: IpNet, office: IpNet, address: IpAddr, key: PublicKey,
                         signingKey: SigningKey, now: Clock, freshId: Uuid, t: Clock)
    requires V4Host(home, address) && office.length > 0 && !NetCovers(home, office)
    ensures var n := Lone(home, address, key, [Print(office)], RouteThrough(office));
            && SignPolicy(n, signingKey, t).Ok?
            && SignPolicy(Enrolled(n, Rejoin(key), [address], now, freshId), signingKey, t).Err?
  {
    var n := Lone(home, address, key, [Print(office)], RouteThrough(office));
    var n' := Enrolled(n, Rejoin(key), [address], now, freshId);
    assert WellKeyed(n) && WellKeyed(n');
    hide SignPolicy, Signable, NetCovers, RoutesStayInside, Enrolled, Lone, WellKeyed;
    GatewaySignable(home, office, address, key);
    GatewayRoutesLeave(home, office, address, key);
    EnrolledSignable(n, Rejoin(key), [address], now, freshId);
    SignPolicyIsExact(n, signingKey, t);
    SignPolicyIsExact(n', signingKey, t);
  }

  /** In particular 10.0.0.1 in 10.0.0.0/24 as the gateway to 192.168.0.0/16. */
  lemma OfficeGatewayRejoins(signingKey: SigningKey, adminToken: string, now: Clock, freshId: Uuid, t: Clock)
    ensures var s := GatewayState(Home(), Office(), HomeAddress(1), Ed25519(1), signingKey, adminToken, U64_MAX);
            && NetworksInv(s, {3, 5}) && GetPolicy(s, NETWORK, t).Ok?
            && Enroll(s, Rejoin(Ed25519(1)), now, freshId).1.Ok?
            && GetPolicy(Enroll(s, Rejoin(Ed25519(1)), now, freshId).0, NETWORK, t) == Err(Internal)
  {
    assert !NetCovers(Home(), Office());
    hide GetPolicy, Enroll, GatewayState, NetCovers, V4Host, NetworksInv;
    RejoinBreaksPolicy(Home(), Office(), HomeAddress(1), Ed25519(1), signingKey, adminToken, U64_MAX, now, freshId, t);
  }

  // ----- One request

  /** The request is an enrollment of a device whose policy routes leave the network. */
  ghost predicate HarmfulJoin(n: ManagedNetwork, id: Uuid, e: Event) {
    && e.step.Join? && e.step.enrollment.networkId == id
    && !RoutesStayInside(n, e.step.enrollment.deviceId)
  }

  /** A request that changes a signable network leaves it signable, unless it is a harmful
      join, which never does. */
  lemma ChangeSignable(n: ManagedNetwork, n': ManagedNetwork, id: Uuid, e: Event, key: SigningKey)
    requires WellKeyed(n) && Signable(n) && Change(n, n', id, e, key) && n' != n
    ensures Signable(n') <==> !HarmfulJoin(n, id, e)
  {
    hide Signable, SignPolicy, AssignedAddresses, CompactPolicy, RequestedRoutes, AllowedWith, Enrolled, Removed,
        RoutesStayInside,
         NormalForm, IsNormal;
    match e.step
    case Join(r) =>
      var a := AssignedAddresses(n.network, n.members, r.deviceId);
      EnrolledSignable(n, r, a.value, e.now, e.freshId);
    case AllowRoutes(_, _, device, requested) =>
      assert WellKeyed(n');
      SignPolicyIsExact(n', key, e.now);
    case ChangePolicy(_, _, policy) =>
      UpdatedPolicy(n, policy, key, e.now);
      NormalizedSignable(Candidate(n, policy));
    case Remove(_, _, device, networkKey) =>
      RemovedSignable(n, device, e.now, networkKey);
    case _ =>
  }

  // ----- Runs

  ghost predicate AllSignable(s: ControllerState) {
    forall id :: id in s.networks ==> Signable(s.networks[id])
  }

  ghost predicate Harmless(s: ControllerState, e: Event) {
    forall id :: id in s.networks ==> !HarmfulJoin(s.networks[id], id, e)
  }

  ghost predicate HarmlessRun(w: World, events: seq<Event>)
    decreases events
  {
    events == [] || (Harmless(w.state, events[0]) && HarmlessRun(Next(w, events[0]), events[1..]))
  }

  lemma NewNetworkSignable(v: VirtualNetwork, networkKey: NetworkKey)
    ensures Signable(NewNetwork(v, networkKey))
  {
    EmptyIsNormal();
  }

  lemma NextKeepsSignable(w: World, e: Event)
    requires NetworksInv(w.state, w.issuedIds) && AllSignable(w.state) && Harmless(w.state, e)
    ensures AllSignable(NextState(w.state, e))
  {
    hide Signable, NextState, Change, NewNetwork, HarmfulJoin, WellKeyed;
    var (s, s') := (w.state, NextState(w.state, e));
    forall id | id in s'.networks ensures Signable(s'.networks[id]) {
      if id !in s.networks {
        NextNew(s, e, id);
        NewNetworkSignable(Requested(e.step.request, id), e.step.networkKey);
      } else if Spares(id, e) {
        NextChange(s, e, id);
        assert NetworkInv(s.networks[id], id, w.issuedIds);
        if s'.networks[id] != s.networks[id] {
          ChangeSignable(s.networks[id], s'.networks[id], id, e, s.signingKey);
        }
      } else {
        NextDeleted(s, e, id);
      }
    }
  }

  lemma {:induction false} RunKeepsSignable(w: World, events: seq<Event>)
    requires NetworksInv(w.state, w.issuedIds) && AllSignable(w.state)
    requires Runs(w, events) && HarmlessRun(w, events)
    ensures AllSignable(Run(w, events).state)
    ensures NetworksInv(Run(w, events).state, Run(w, events).issuedIds)
    decreases events
  {
    hide NextState, Released, NetworksInv, AllSignable, Harmless, CanHappen;
    if events == [] {
    } else {
      NextKeepsNetworks(w, events[0]);
      NextKeepsSignable(w, events[0]);
      RunKeepsSignable(Next(w, events[0]), events[1..]);
    }
  }

  /** In every run without a harmful join, the policy of every network can be read at any time. */
  lemma PolicyIsAlwaysServed(key: SigningKey, adminToken: string, events: seq<Event>, id: Uuid,
                             now: Clock)
    requires Runs(Initial(key, adminToken), events) && HarmlessRun(Initial(key, adminToken), events)
    requires id in Run(Initial(key, adminToken), events).state.networks
    ensures GetPolicy(Run(Initial(key, adminToken), events).state, id, now).Ok?
  {
    RunKeepsSignable(Initial(key, adminToken), events);
    var w := Run(Initial(key, adminToken), events);
    hide Run, Runs, SignPolicy, Signable;
    var n := w.state.networks[id];
    assert NetworkInv(n, id, w.issuedIds);
    SignPolicyIsExact(n, w.state.signingKey, now);
  }
}
