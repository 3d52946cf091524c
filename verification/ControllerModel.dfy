/** The controller's state and what each administrative or member request does to it.

Random identifiers, fresh network keys and the clock are arguments.  Every function returns
the next state together with the response; a failed request returns the state it leaves
behind, which for an enrollment can differ from the one it found.
*/
module ControllerModel {
  import opened Wrappers
  import opened Bytes
  import opened Cidr
  import opened Crypto
  import opened Domains
  import opened Membership
  import opened Authorization
  import opened AddressPool
  import opened Policy
  import opened Sorting

  const DAY: nat := 86_400
  const MANIFEST_LIFETIME: nat := 90
  const MAX_ALLOWED_ROUTES := 258

  /** The clock, far enough from the end of `u64` that every timestamp derived from it fits. */
  type Clock = n: nat | n + DAY <= U64_MAX witness 0

  datatype ApiError = BadRequest | Conflict | NotFound | Unauthorized | Internal

  datatype RelayPolicy = Preferred | Required | Disabled

  datatype VirtualNetwork = VirtualNetwork(
    id: Uuid, name: string, ipv4Prefix: PrefixText, ipv6Prefix: Option<PrefixText>, relayPolicy: RelayPolicy)

  datatype ManagedPolicyRoute = ManagedPolicyRoute(prefix: PrefixText, gatewayDeviceId: Uuid)

  datatype ManagedExitNode = ManagedExitNode(gatewayDeviceId: Uuid, supportsIpv4: bool, supportsIpv6: bool)

  datatype ManagedPolicy = ManagedPolicy(
    routes: seq<ManagedPolicyRoute>, exitNodes: seq<ManagedExitNode>, dns: DnsPolicy)

  const EMPTY_POLICY := ManagedPolicy([], [], DnsPolicy([], []))

  datatype ManagedNetwork = ManagedNetwork(
    network: VirtualNetwork,
    members: Members,
    networkKey: seq<Byte>,
    networkKeyEpoch: U64,
    authorizationEpoch: U64,
    certificateIds: map<Uuid, Uuid>,
    revoked: map<Uuid, U64>,
    policyEpoch: U64,
    policy: ManagedPolicy)

  datatype EnrollmentToken = EnrollmentToken(networkId: Uuid, expiresAt: U64, usedBy: Option<Uuid>)

  datatype ControllerState = ControllerState(
    signingKey: SigningKey,
    adminToken: string,
    networks: map<Uuid, ManagedNetwork>,
    tokens: map<Uuid, EnrollmentToken>)

  // ----- Signing what a network holds

  function Least(s: set<Uuid>): (m: Uuid)
    requires s != {}
    ensures m in s && forall x :: x in s ==> m <= x
  {
    ghost var least := LeastOf(s);
    var m :| m in s && forall x :: x in s ==> m <= x;
    m
  }

  ghost function LeastOf(s: set<Uuid>): (m: Uuid)
    requires s != {}
    ensures m in s && forall x :: x in s ==> m <= x
  {
    var y :| y in s;
    var rest := s - {y};
    if rest == {} then assert s == {y}; y
    else
      var m := LeastOf(rest);
      assert s == rest + {y};
      if y <= m then y else m
  }

  /** The elements of a set, each once. */
  function Enumerate(s: set<Uuid>): (r: seq<Uuid>)
    ensures forall x :: x in r <==> x in s
    ensures Distinct(r)
  {
    if s == {} then []
    else
      var m := Least(s);
      var rest := Enumerate(s - {m});
      assert m !in rest;
      [m] + rest
  }

  function ActiveMember(n: ManagedNetwork, d: Uuid): AuthorizedMembership
    requires d in n.members && d in n.certificateIds
  {
    AuthorizedMembership(d, n.certificateIds[d], n.members[d].devicePublicKey, n.networkKeyEpoch)
  }

  function ActiveMembers(n: ManagedNetwork): (r: seq<AuthorizedMembership>)
    ensures forall a :: a in r <==>
      exists d :: d in n.members && d in n.certificateIds && a == ActiveMember(n, d)
  {
    var devices := Enumerate(n.members.Keys * n.certificateIds.Keys);
    assert forall i :: 0 <= i < |devices| ==> devices[i] in n.members.Keys * n.certificateIds.Keys;
    var r := seq(|devices|, i requires 0 <= i < |devices| => ActiveMember(n, devices[i]));
    assert forall i :: 0 <= i < |devices| ==> r[i] == ActiveMember(n, devices[i]);
    assert forall d :: d in n.members && d in n.certificateIds ==> ActiveMember(n, d) in r by {
      forall d | d in n.members && d in n.certificateIds ensures ActiveMember(n, d) in r {
        assert d in devices;
        var i :| 0 <= i < |devices| && devices[i] == d;
        assert r[i] == ActiveMember(n, d);
      }
    }
    r
  }

  function SignAuthorization(n: ManagedNetwork, key: SigningKey, now: Clock): AuthorizationManifest {
    SignManifest(n.network.id, n.authorizationEpoch, n.networkKeyEpoch, ActiveMembers(n),
                 Enumerate(n.revoked.Keys), now, now + MANIFEST_LIFETIME, key)
  }

  predicate HasCertificate(n: ManagedNetwork, d: Uuid) {
    d in n.members && d in n.certificateIds
  }

  /** The certificate the controller signs for a member at `now`. */
  function CertificateFor(n: ManagedNetwork, d: Uuid, key: SigningKey, now: Clock): MembershipCertificate
    requires HasCertificate(n, d)
  {
    SignCertificate(n.members[d].(issuedAt := now, expiresAt := Some(now + DAY)),
                    n.certificateIds[d], n.networkKeyEpoch, key)
  }

  predicate AllowedRoute(n: ManagedNetwork, route: ManagedPolicyRoute)
    requires route.gatewayDeviceId in n.members
  {
    var allowed := n.members[route.gatewayDeviceId].allowedRoutes;
    exists i :: 0 <= i < |allowed| && PrefixCovers(allowed[i], route.prefix)
  }

  datatype SigningError = NotAMember | NoCertificate | NotAuthorized | Rejected(error: PolicyError)

  function BuildRoutes(n: ManagedNetwork, routes: seq<ManagedPolicyRoute>, key: SigningKey, now: Clock)
    : Result<seq<PolicyRoute>, SigningError>
  {
    if routes == [] then Ok([])
    else
      match BuildRoutes(n, routes[..|routes| - 1], key, now)
      case Err(e) => Err(e)
      case Ok(front) =>
        var route := routes[|routes| - 1];
        if route.gatewayDeviceId !in n.members then Err(NotAMember)
        else if route.gatewayDeviceId !in n.certificateIds then Err(NoCertificate)
        else if !AllowedRoute(n, route) then Err(NotAuthorized)
        else Ok(front + [PolicyRoute(route.prefix, CertificateFor(n, route.gatewayDeviceId, key, now))])
  }

  function BuildExits(n: ManagedNetwork, exits: seq<ManagedExitNode>, key: SigningKey, now: Clock)
    : Result<seq<ExitNode>, SigningError>
  {
    if exits == [] then Ok([])
    else
      match BuildExits(n, exits[..|exits| - 1], key, now)
      case Err(e) => Err(e)
      case Ok(front) =>
        var x := exits[|exits| - 1];
        if x.gatewayDeviceId !in n.members then Err(NotAMember)
        else if x.gatewayDeviceId !in n.certificateIds then Err(NoCertificate)
        else Ok(front + [ExitNode(CertificateFor(n, x.gatewayDeviceId, key, now), x.supportsIpv4, x.supportsIpv6)])
  }

  function SignPolicy(n: ManagedNetwork, key: SigningKey, now: Clock): Result<PolicyManifest, SigningError> {
    match BuildRoutes(n, n.policy.routes, key, now)
    case Err(e) => Err(e)
    case Ok(routes) =>
      match BuildExits(n, n.policy.exitNodes, key, now)
      case Err(e) => Err(e)
      case Ok(exits) =>
        match SignPolicyManifest(n.network.id, n.policyEpoch, routes, exits, n.policy.dns, now,
                                 now + MANIFEST_LIFETIME, key)
        case Err(e) => Err(Rejected(e))
        case Ok(m) => Ok(m)
  }

  // ----- Requests

  predicate IsAdmin(s: ControllerState, supplied: string) {
    supplied == s.adminToken
  }

  function Bump(epoch: U64): U64 {
    SaturatingAdd(epoch, 1)
  }

  datatype UpsertRequest = UpsertRequest(
    id: Option<Uuid>, name: string, ipv4Prefix: PrefixText, ipv6Prefix: Option<PrefixText>, relayPolicy: RelayPolicy)

  predicate ParsesAs(text: PrefixText, family: Family) {
    Parse(text).Some? && Parse(text).value.family == family
  }

  predicate ValidRequest(r: UpsertRequest) {
    && Trim(r.name) != []
    && ParsesAs(r.ipv4Prefix, V4)
    && (r.ipv6Prefix.Some? ==> ParsesAs(r.ipv6Prefix.value, V6))
  }

  function Requested(r: UpsertRequest, id: Uuid): VirtualNetwork {
    VirtualNetwork(id, r.name, r.ipv4Prefix, r.ipv6Prefix, r.relayPolicy)
  }

  function NewNetwork(v: VirtualNetwork, networkKey: NetworkKey): ManagedNetwork {
    ManagedNetwork(v, map[], networkKey, 1, 1, map[], map[], 1, EMPTY_POLICY)
  }

  function CreateNetwork(s: ControllerState, supplied: string, r: UpsertRequest, freshId: Uuid, networkKey: NetworkKey)
    : (ControllerState, Result<VirtualNetwork, ApiError>)
  {
    if !ValidRequest(r) then (s, Err(BadRequest))
    else if !IsAdmin(s, supplied) then (s, Err(Unauthorized))
    else
      var id := if r.id.Some? then r.id.value else freshId;
      if id in s.networks then (s, Err(Conflict))
      else
        var v := Requested(r, id);
        (s.(networks := s.networks[id := NewNetwork(v, networkKey)]), Ok(v))
  }

  function Clamp(n: nat, lo: nat, hi: nat): (r: nat)
    requires lo <= hi
    ensures lo <= r <= hi && (lo <= n <= hi ==> r == n)
  {
    if n < lo then lo else if n > hi then hi else n
  }

  function IssueToken(s: ControllerState, supplied: string, networkId: Uuid, lifetime: Option<U64>,
                      now: Clock, freshId: Uuid): (ControllerState, Result<(Uuid, U64), ApiError>)
  {
    if !IsAdmin(s, supplied) then (s, Err(Unauthorized))
    else if networkId !in s.networks then (s, Err(NotFound))
    else
      var seconds := Clamp(if lifetime.Some? then lifetime.value else 900, 60, DAY);
      var token := EnrollmentToken(networkId, now + seconds, None);
      (s.(tokens := s.tokens[freshId := token]), Ok((freshId, now + seconds)))
  }

  /** The addresses a device holds already, completed with what its network requires. */
  function AssignedAddresses(v: VirtualNetwork, members: Members, device: Uuid): Result<seq<IpAddr>, PoolError> {
    var held := if device in members then members[device].assignedAddresses else [];
    var with4 :=
      if HasFamily(held, V4) then Ok(held)
      else
        match Ipv4Choice(v.ipv4Prefix, UsedBits(members, V4))
        case Err(e) => Err(e)
        case Ok(a) => Ok(held + [a]);
    match with4
    case Err(e) => Err(e)
    case Ok(addresses) =>
      if v.ipv6Prefix.None? || HasFamily(addresses, V6) then Ok(addresses)
      else
        match Ipv6Choice(v.ipv6Prefix.value, UsedBits(members, V6))
        case Err(e) => Err(e)
        case Ok(a) => Ok(addresses + [a])
  }

  function NetworkPrefixes(v: VirtualNetwork): seq<PrefixText> {
    [v.ipv4Prefix] + if v.ipv6Prefix.Some? then [v.ipv6Prefix.value] else []
  }

  datatype EnrollmentRequest = EnrollmentRequest(
    networkId: Uuid, deviceId: Uuid, devicePublicKey: PublicKey, token: Option<Uuid>)

  datatype EnrollmentResponse = EnrollmentResponse(
    network: VirtualNetwork, certificate: MembershipCertificate, networkKey: seq<Byte>,
    authorization: AuthorizationManifest)

  /** A network after a device with the given addresses has joined or rejoined it. */
  function Enrolled(n: ManagedNetwork, r: EnrollmentRequest, addresses: seq<IpAddr>, now: Clock, freshId: Uuid)
    : ManagedNetwork
  {
    var claims := MembershipClaims(r.networkId, r.deviceId, r.devicePublicKey, addresses,
                                   NetworkPrefixes(n.network), now, Some(now + DAY));
    n.(certificateIds := if r.deviceId in n.certificateIds then n.certificateIds
                         else n.certificateIds[r.deviceId := freshId],
       members := n.members[r.deviceId := claims],
       authorizationEpoch := Bump(n.authorizationEpoch))
  }

  /** The token is bound to the device before addresses are chosen, so an exhausted pool or a
      missing network leaves it bound. */
  function Enroll(s: ControllerState, r: EnrollmentRequest, now: Clock, freshId: Uuid)
    : (ControllerState, Result<EnrollmentResponse, ApiError>)
  {
    if r.devicePublicKey.WrongLength? || r.token.None? then (s, Err(BadRequest))
    else if r.token.value !in s.tokens then (s, Err(Unauthorized))
    else
      var token := s.tokens[r.token.value];
      if token.networkId != r.networkId || now > token.expiresAt then (s, Err(Unauthorized))
      else if token.usedBy.Some? && token.usedBy.value != r.deviceId then (s, Err(Unauthorized))
      else
        var s1 := s.(tokens := s.tokens[r.token.value := token.(usedBy := Some(r.deviceId))]);
        if r.networkId !in s.networks then (s1, Err(NotFound))
        else
          var n := s.networks[r.networkId];
          match AssignedAddresses(n.network, n.members, r.deviceId)
          case Err(_) => (s1, Err(BadRequest))
          case Ok(addresses) =>
            var n' := Enrolled(n, r, addresses, now, freshId);
            (s1.(networks := s.networks[r.networkId := n']),
             Ok(EnrollmentResponse(n'.network, CertificateFor(n', r.deviceId, s.signingKey, now), n'.networkKey,
                                   SignAuthorization(n', s.signingKey, now))))
  }

  function DeleteNetwork(s: ControllerState, supplied: string, networkId: Uuid)
    : (ControllerState, Outcome<ApiError>)
  {
    if !IsAdmin(s, supplied) then (s, Fail(Unauthorized))
    else if networkId !in s.networks then (s, Fail(NotFound))
    else
      (s.(networks := s.networks - {networkId},
          tokens := map t | t in s.tokens && s.tokens[t].networkId != networkId :: s.tokens[t]), Pass)
  }

  /** The printed forms of requested routes, or an error for one that does not parse or is a
      default route. */
  function RequestedRoutes(raw: seq<PrefixText>): (r: Option<seq<PrefixText>>)
    ensures r.Some? <==> forall i :: 0 <= i < |raw| ==> ParseRoute(raw[i]).Ok?
    ensures r.Some? ==> |r.value| == |raw|
    ensures r.Some? ==> forall i :: 0 <= i < |raw| ==> r.value[i] == Print(ParseRoute(raw[i]).value)
  {
    if forall i :: 0 <= i < |raw| ==> ParseRoute(raw[i]).Ok? then
      Some(seq(|raw|, i requires 0 <= i < |raw| => Print(ParseRoute(raw[i]).value)))
    else None
  }

  /** A network after one member's allowed routes were replaced. */
  function Reauthorized(n: ManagedNetwork, device: Uuid, allowed: seq<PrefixText>, now: Clock): ManagedNetwork
    requires device in n.members
  {
    var claims := n.members[device].(allowedRoutes := allowed, issuedAt := now, expiresAt := Some(now + DAY));
    n.(members := n.members[device := claims])
  }

  function AllowedWith(n: ManagedNetwork, printed: seq<PrefixText>): seq<PrefixText> {
    Dedup(Sort(TextLe, NetworkPrefixes(n.network) + printed))
  }

  function AuthorizeMemberRoutes(s: ControllerState, supplied: string, networkId: Uuid, device: Uuid,
                                 requested: seq<PrefixText>, now: Clock)
    : (ControllerState, Result<MembershipClaims, ApiError>)
  {
    if !IsAdmin(s, supplied) then (s, Err(Unauthorized))
    else if networkId !in s.networks then (s, Err(NotFound))
    else
      var n := s.networks[networkId];
      match RequestedRoutes(requested)
      case None => (s, Err(BadRequest))
      case Some(printed) =>
        var allowed := AllowedWith(n, printed);
        if |allowed| > MAX_ALLOWED_ROUTES then (s, Err(BadRequest))
        else if device !in n.members then (s, Err(NotFound))
        else
          var n' := Reauthorized(n, device, allowed, now);
          if SignPolicy(n', s.signingKey, now).Err? then (s, Err(BadRequest))
          else (s.(networks := s.networks[networkId := n']), Ok(n'.members[device]))
  }

  predicate RoutedElsewhere(device: Uuid, route: ManagedPolicyRoute) {
    route.gatewayDeviceId != device
  }

  predicate ExitElsewhere(device: Uuid, x: ManagedExitNode) {
    x.gatewayDeviceId != device
  }

  /** A policy without any entry of one device. */
  function Without(p: ManagedPolicy, device: Uuid): ManagedPolicy {
    p.(routes := Filter((r: ManagedPolicyRoute) => RoutedElsewhere(device, r), p.routes),
       exitNodes := Filter((x: ManagedExitNode) => ExitElsewhere(device, x), p.exitNodes))
  }

  function Removed(n: ManagedNetwork, device: Uuid, now: Clock, networkKey: NetworkKey): ManagedNetwork {
    var policy := Without(n.policy, device);
    var changed := |policy.routes| != |n.policy.routes| || |policy.exitNodes| != |n.policy.exitNodes|;
    n.(members := n.members - {device},
       certificateIds := n.certificateIds - {device},
       revoked := if device in n.certificateIds then n.revoked[n.certificateIds[device] := now] else n.revoked,
       policy := policy,
       policyEpoch := if changed then Bump(n.policyEpoch) else n.policyEpoch,
       networkKey := networkKey,
       networkKeyEpoch := Bump(n.networkKeyEpoch),
       authorizationEpoch := Bump(n.authorizationEpoch))
  }

  function RemoveMember(s: ControllerState, supplied: string, networkId: Uuid, device: Uuid, now: Clock,
                        networkKey: NetworkKey): (ControllerState, Outcome<ApiError>)
  {
    if !IsAdmin(s, supplied) then (s, Fail(Unauthorized))
    else if networkId !in s.networks then (s, Fail(NotFound))
    else if device !in s.networks[networkId].members then (s, Fail(NotFound))
    else (s.(networks := s.networks[networkId := Removed(s.networks[networkId], device, now, networkKey)]), Pass)
  }

  /** The compact form of a manifest: what the controller stores and what editors resubmit. */
  function RouteEntry(r: PolicyRoute): ManagedPolicyRoute {
    ManagedPolicyRoute(r.prefix, r.gateway.claims.deviceId)
  }

  function ExitEntry(x: ExitNode): ManagedExitNode {
    ManagedExitNode(x.gateway.claims.deviceId, x.supportsIpv4, x.supportsIpv6)
  }

  function CompactPolicy(m: PolicyManifest): ManagedPolicy {
    ManagedPolicy(Map(RouteEntry, m.payload.routes), Map(ExitEntry, m.payload.exitNodes), m.payload.dns)
  }

  /** The network a policy update tries to sign. */
  function Candidate(n: ManagedNetwork, request: ManagedPolicy): ManagedNetwork {
    n.(policy := request, policyEpoch := Bump(n.policyEpoch))
  }

  function UpdatePolicy(s: ControllerState, supplied: string, networkId: Uuid, request: ManagedPolicy, now: Clock)
    : (ControllerState, Result<PolicyManifest, ApiError>)
  {
    if !IsAdmin(s, supplied) then (s, Err(Unauthorized))
    else if networkId !in s.networks then (s, Err(NotFound))
    else
      var candidate := Candidate(s.networks[networkId], request);
      match SignPolicy(candidate, s.signingKey, now)
      case Err(_) => (s, Err(BadRequest))
      case Ok(m) =>
        (s.(networks := s.networks[networkId := candidate.(policy := CompactPolicy(m))]), Ok(m))
  }

  function GetAuthorization(s: ControllerState, networkId: Uuid, now: Clock): Result<AuthorizationManifest, ApiError> {
    if networkId !in s.networks then Err(NotFound)
    else Ok(SignAuthorization(s.networks[networkId], s.signingKey, now))
  }

  function GetPolicy(s: ControllerState, networkId: Uuid, now: Clock): Result<PolicyManifest, ApiError> {
    if networkId !in s.networks then Err(NotFound)
    else
      match SignPolicy(s.networks[networkId], s.signingKey, now)
      case Err(_) => Err(Internal)
      case Ok(m) => Ok(m)
  }

  /** The checks of a refresh before its nonce is looked at. */
  function RefreshAdmissible(s: ControllerState, r: RefreshRequest, now: Clock): Outcome<ApiError> {
    var p := r.payload;
    if p.networkId !in s.networks then Fail(NotFound)
    else
      var n := s.networks[p.networkId];
      if p.deviceId !in n.members || p.deviceId !in n.certificateIds then Fail(Unauthorized)
      else if p.certificateId != n.certificateIds[p.deviceId] then Fail(Unauthorized)
      else if VerifyRefresh(r, n.members[p.deviceId].devicePublicKey, now, 120).Fail? then Fail(Unauthorized)
      else Pass
  }

  datatype RefreshResponse = RefreshResponse(
    authorization: AuthorizationManifest, certificate: MembershipCertificate, networkKey: seq<Byte>)

  function RefreshAnswer(s: ControllerState, r: RefreshRequest, now: Clock): RefreshResponse
    requires r.payload.networkId in s.networks && HasCertificate(s.networks[r.payload.networkId], r.payload.deviceId)
  {
    var n := s.networks[r.payload.networkId];
    RefreshResponse(SignAuthorization(n, s.signingKey, now),
                    CertificateFor(n, r.payload.deviceId, s.signingKey, now), n.networkKey)
  }
}
