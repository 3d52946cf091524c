/** Controller-signed routes, exit candidates and split-DNS policy of one network. */
module Policy {
  import opened Wrappers
  import opened Bytes
  import opened Cidr
  import opened Crypto
  import opened Domains
  import opened Lexicographic
  import opened Membership
  import opened Authorization
  import opened Sorting

  const MAX_ROUTES := 256
  const MAX_EXIT_NODES := 16
  const MAX_DNS_SERVERS := 8
  const MAX_SEARCH_DOMAINS := 16

  datatype PolicyError =
    | WrongController | InvalidSignature | Expired | CrossNetwork | Rollback | InvalidRoute
    | DefaultRoute | UnsupportedVersion | AmbiguousRoute | UnauthorizedGateway | InvalidExitNode
    | InvalidDns

  datatype PolicyRoute = PolicyRoute(prefix: PrefixText, gateway: MembershipCertificate)

  datatype ExitNode = ExitNode(gateway: MembershipCertificate, supportsIpv4: bool, supportsIpv6: bool)

  datatype DnsPolicy = DnsPolicy(servers: seq<IpAddr>, searchDomains: seq<string>)

  /** The signed part.  A version 1 payload has no field for exit nodes, so it has none. */
  datatype PolicyPayload = PolicyPayload(
    version: nat,
    networkId: Uuid,
    policyEpoch: U64,
    routes: seq<PolicyRoute>,
    exitNodes: seq<ExitNode>,
    dns: DnsPolicy,
    issuedAt: U64,
    expiresAt: U64,
    controllerKey: PublicKey)

  datatype PolicyManifest = PolicyManifest(payload: PolicyPayload, signature: Signature<PolicyPayload>)

  // ----- Routes

  function ParseRoute(text: PrefixText): Result<IpNet, PolicyError> {
    match Parse(text)
    case None => Err(InvalidRoute)
    case Some(net) => if net.length == 0 then Err(DefaultRoute) else Ok(net)
  }

  predicate CanonicalText(text: PrefixText) {
    ParseRoute(text).Ok? && text == Print(ParseRoute(text).value)
  }

  predicate RouteLe(a: PolicyRoute, b: PolicyRoute) {
    TextLe(a.prefix, b.prefix)
  }

  /** Rewriting every prefix to its printed form, or the first error. */
  function PrintedRoutes(routes: seq<PolicyRoute>): (r: Result<seq<PolicyRoute>, PolicyError>)
    ensures r.Ok? ==> |r.value| == |routes|
  {
    if routes == [] then Ok([])
    else
      match PrintedRoutes(routes[..|routes| - 1])
      case Err(e) => Err(e)
      case Ok(front) =>
        match ParseRoute(routes[|routes| - 1].prefix)
        case Err(e) => Err(e)
        case Ok(net) => Ok(front + [PolicyRoute(Print(net), routes[|routes| - 1].gateway)])
  }

  /** The verdict of the route loop after `k` routes: the first offence, if any. */
  function RouteVerdict(routes: seq<PolicyRoute>, k: nat): Outcome<PolicyError>
    requires k <= |routes|
  {
    if k == 0 then Pass
    else if RouteVerdict(routes, k - 1).Fail? then RouteVerdict(routes, k - 1)
    else
      var text := routes[k - 1].prefix;
      match ParseRoute(text)
      case Err(e) => Fail(e)
      case Ok(net) =>
        if Print(net) != text then Fail(InvalidRoute)
        else if exists j :: 0 <= j < k - 1 && routes[j].prefix == text then Fail(AmbiguousRoute)
        else Pass
  }

  ghost predicate RoutesOk(routes: seq<PolicyRoute>) {
    && (forall i :: 0 <= i < |routes| ==> CanonicalText(routes[i].prefix))
    && (forall i, j :: 0 <= i < j < |routes| ==> routes[i].prefix != routes[j].prefix)
  }

  lemma {:induction false} RouteVerdictIsExact(routes: seq<PolicyRoute>, k: nat)
    requires k <= |routes|
    ensures RouteVerdict(routes, k).Pass? <==> RoutesOk(routes[..k])
  {
    if k == 0 {
    } else {
      RouteVerdictIsExact(routes, k - 1);
      var (now, before) := (routes[..k], routes[..k - 1]);
      assert forall i :: 0 <= i < k - 1 ==> now[i] == before[i];
      assert now[k - 1] == routes[k - 1];
    }
  }

  // ----- DNS

  /** Neither unspecified, nor multicast, nor the IPv4 broadcast address. */
  predicate UsableServer(server: IpAddr) {
    match server.family
    case V4 => server.bits != 0 && server.bits / 0x1000_0000 != 0xE && server.bits != 0xFFFF_FFFF
    case V6 => server.bits != 0 && server.bits / 0x100_0000_0000_0000_0000_0000_0000_0000 != 0xFF
  }

  /** Which addresses cannot be DNS servers: 0.0.0.0, 255.255.255.255 and 224.0.0.0/4; ::, and
      everything that begins with ff. */
  lemma UnusableServers(a: IpAddr)
    ensures a.family == V4 ==>
              (!UsableServer(a) <==> a.bits == 0 || a.bits == 0xFFFF_FFFF || 0xE000_0000 <= a.bits <= 0xEFFF_FFFF)
    ensures a.family == V6 ==>
              (!UsableServer(a) <==>
                 || a.bits == 0
                 || 0xFF00_0000_0000_0000_0000_0000_0000_0000 <= a.bits <= 0xFFFF_FFFF_FFFF_FFFF_FFFF_FFFF_FFFF_FFFF)
  {
  }

  /** Normalizing every search domain, or an error when one is invalid. */
  function NormalizedDomains(domains: seq<string>): (r: Option<seq<string>>)
    ensures r.Some? <==> forall i :: 0 <= i < |domains| ==> NormalizeDomain(domains[i]).Some?
    ensures r.Some? ==> |r.value| == |domains|
    ensures r.Some? ==> forall i :: 0 <= i < |domains| ==> NormalizeDomain(domains[i]) == Some(r.value[i])
  {
    if forall i :: 0 <= i < |domains| ==> NormalizeDomain(domains[i]).Some? then
      Some(seq(|domains|, i requires 0 <= i < |domains| => NormalizeDomain(domains[i]).value))
    else None
  }

  predicate DnsOk(dns: DnsPolicy) {
    && |dns.servers| <= MAX_DNS_SERVERS
    && |dns.searchDomains| <= MAX_SEARCH_DOMAINS
    && (dns.searchDomains != [] ==> dns.servers != [])
    && Distinct(dns.servers)
    && (forall i :: 0 <= i < |dns.servers| ==> UsableServer(dns.servers[i]))
    && (forall i :: 0 <= i < |dns.searchDomains| ==>
          NormalizeDomain(dns.searchDomains[i]) == Some(dns.searchDomains[i]))
    && Distinct(dns.searchDomains)
  }

  function ValidateNormalized(routes: seq<PolicyRoute>, dns: DnsPolicy): Outcome<PolicyError> {
    if |routes| > MAX_ROUTES then Fail(InvalidRoute)
    else if RouteVerdict(routes, |routes|).Fail? then RouteVerdict(routes, |routes|)
    else if !DnsOk(dns) then Fail(InvalidDns)
    else Pass
  }

  /** `normalize_policy` */
  function Normalize(routes: seq<PolicyRoute>, dns: DnsPolicy): Result<(seq<PolicyRoute>, DnsPolicy), PolicyError> {
    match PrintedRoutes(routes)
    case Err(e) => Err(e)
    case Ok(printed) =>
      match NormalizedDomains(dns.searchDomains)
      case None => Err(InvalidDns)
      case Some(domains) =>
        var routes' := Sort(RouteLe, printed);
        var dns' := DnsPolicy(Dedup(Sort(AddrLe, dns.servers)), Dedup(Sort(StringLe, domains)));
        match ValidateNormalized(routes', dns')
        case Fail(e) => Err(e)
        case Pass => Ok((routes', dns'))
  }

  // ----- Exit nodes

  predicate ExitLe(a: ExitNode, b: ExitNode) {
    a.gateway.claims.deviceId <= b.gateway.claims.deviceId
  }

  predicate ExitsOk(exits: seq<ExitNode>) {
    && |exits| <= MAX_EXIT_NODES
    && (forall i :: 0 <= i < |exits| ==> exits[i].supportsIpv4 || exits[i].supportsIpv6)
    && (forall i, j :: 0 <= i < j < |exits| ==>
          exits[i].gateway.claims.deviceId != exits[j].gateway.claims.deviceId)
  }

  /** `validate_exit_nodes`, a loop over a set of the devices seen so far. */
  method ValidateExitNodes(exits: seq<ExitNode>) returns (r: Outcome<PolicyError>)
    ensures r == if ExitsOk(exits) then Pass else Fail(InvalidExitNode)
  {
    if |exits| > MAX_EXIT_NODES {
      return Fail(InvalidExitNode);
    }
    var devices: set<Uuid> := {};
    for k := 0 to |exits|
      invariant forall d :: d in devices <==> exists i :: 0 <= i < k && exits[i].gateway.claims.deviceId == d
      invariant forall i :: 0 <= i < k ==> exits[i].supportsIpv4 || exits[i].supportsIpv6
      invariant forall i, j :: 0 <= i < j < k ==>
                  exits[i].gateway.claims.deviceId != exits[j].gateway.claims.deviceId
    {
      var device := exits[k].gateway.claims.deviceId;
      if (!exits[k].supportsIpv4 && !exits[k].supportsIpv6) || device in devices {
        return Fail(InvalidExitNode);
      }
      devices := devices + {device};
    }
    return Pass;
  }

  function NormalizeExits(exits: seq<ExitNode>): Result<seq<ExitNode>, PolicyError> {
    var sorted := Sort(ExitLe, exits);
    if ExitsOk(sorted) then Ok(sorted) else Err(InvalidExitNode)
  }

  // ----- Manifests

  /** `sign_with_exit_nodes` */
  function SignPolicyManifest(networkId: Uuid, policyEpoch: U64, routes: seq<PolicyRoute>, exits: seq<ExitNode>,
                              dns: DnsPolicy, issuedAt: U64, expiresAt: U64, key: SigningKey)
    : Result<PolicyManifest, PolicyError>
  {
    if policyEpoch == 0 then Err(Rollback)
    else
      match Normalize(routes, dns)
      case Err(e) => Err(e)
      case Ok(normalized) =>
        match NormalizeExits(exits)
        case Err(e) => Err(e)
        case Ok(sorted) =>
          var payload := PolicyPayload(if sorted == [] then 1 else 2, networkId, policyEpoch, normalized.0,
                                       sorted, normalized.1, issuedAt, expiresAt, VerifyingKey(key));
          Ok(PolicyManifest(payload, Sign(key, payload)))
  }

  predicate GatewayOk(c: MembershipCertificate, networkId: Uuid, trusted: PublicKey,
                      authorization: AuthorizationManifest, now: U64)
  {
    && VerifyCertificateFrom(c, trusted, now).Pass?
    && c.claims.networkId == networkId
    && Authorizes(authorization, c)
  }

  predicate RouteCovered(route: PolicyRoute) {
    exists i :: 0 <= i < |route.gateway.claims.allowedRoutes| &&
      PrefixCovers(route.gateway.claims.allowedRoutes[i], route.prefix)
  }

  function VerifyForNetwork(m: PolicyManifest, expected: Uuid, trusted: PublicKey,
                            authorization: AuthorizationManifest, now: U64, previousEpoch: Option<U64>)
    : Outcome<PolicyError>
  {
    var p := m.payload;
    if p.version != 1 && p.version != 2 then Fail(UnsupportedVersion)
    else if p.controllerKey != trusted then Fail(WrongController)
    else if p.networkId != expected || authorization.payload.networkId != expected then Fail(CrossNetwork)
    else if p.policyEpoch == 0 then Fail(Rollback)
    else if VerifyManifest(authorization, trusted, now).Fail? then Fail(UnauthorizedGateway)
    else if previousEpoch.Some? && p.policyEpoch <= previousEpoch.value then Fail(Rollback)
    else if now > p.expiresAt || p.issuedAt > SaturatingAdd(now, 120) || p.expiresAt <= p.issuedAt then
      Fail(Expired)
    else if ValidateNormalized(p.routes, p.dns).Fail? then ValidateNormalized(p.routes, p.dns)
    else if !ExitsOk(p.exitNodes) then Fail(InvalidExitNode)
    else if p.version == 1 && p.exitNodes != [] then Fail(UnsupportedVersion)
    else if !Verifies(p.controllerKey, p, m.signature) then Fail(InvalidSignature)
    else if exists i :: 0 <= i < |p.routes| &&
              !(GatewayOk(p.routes[i].gateway, expected, trusted, authorization, now) && RouteCovered(p.routes[i]))
    then Fail(UnauthorizedGateway)
    else if exists i :: 0 <= i < |p.exitNodes| &&
              !GatewayOk(p.exitNodes[i].gateway, expected, trusted, authorization, now)
    then Fail(InvalidExitNode)
    else Pass
  }

  ghost predicate GatewaysOk(p: PolicyPayload, expected: Uuid, trusted: PublicKey, authorization: AuthorizationManifest,
                             now: U64)
  {
    && (forall i :: 0 <= i < |p.routes| ==>
          GatewayOk(p.routes[i].gateway, expected, trusted, authorization, now) && RouteCovered(p.routes[i]))
    && (forall i :: 0 <= i < |p.exitNodes| ==>
          GatewayOk(p.exitNodes[i].gateway, expected, trusted, authorization, now))
  }

  /** Everything about a manifest that neither the clock nor the authorization decides. */
  ghost predicate WellFormedFor(m: PolicyManifest, expected: Uuid, trusted: PublicKey) {
    var p := m.payload;
    && (p.version == 1 || p.version == 2)
    && (p.version == 1 ==> p.exitNodes == [])
    && p.controllerKey == trusted && p.networkId == expected && p.policyEpoch > 0
    && p.issuedAt < p.expiresAt
    && ValidateNormalized(p.routes, p.dns).Pass? && ExitsOk(p.exitNodes)
    && Verifies(p.controllerKey, p, m.signature)
  }

  /** Acceptance as one conjunction. */
  lemma VerifyIsExact(m: PolicyManifest, expected: Uuid, trusted: PublicKey,
                      authorization: AuthorizationManifest, now: U64, previousEpoch: Option<U64>)
    ensures VerifyForNetwork(m, expected, trusted, authorization, now, previousEpoch).Pass? <==>
              && WellFormedFor(m, expected, trusted)
              && authorization.payload.networkId == expected && VerifyManifest(authorization, trusted, now).Pass?
              && (previousEpoch.Some? ==> previousEpoch.value < m.payload.policyEpoch)
              && now <= m.payload.expiresAt && m.payload.issuedAt <= now + 120
              && GatewaysOk(m.payload, expected, trusted, authorization, now)
  {
    hide ValidateNormalized, VerifyManifest, GatewayOk, RouteCovered, Verifies;
  }

  /** Which refusal comes first: version, controller, network, epoch 0, authorization, rollback,
      and then the policy's own lifetime. */
  lemma RefusalsInOrder(m: PolicyManifest, expected: Uuid, trusted: PublicKey, authorization: AuthorizationManifest,
                        now: U64, previousEpoch: Option<U64>)
    ensures var (p, verdict) := (m.payload, VerifyForNetwork(m, expected, trusted, authorization, now, previousEpoch));
            var known := p.version == 1 || p.version == 2;
            var ours := known && p.controllerKey == trusted;
            var here := ours && p.networkId == expected && authorization.payload.networkId == expected;
            var authorized := here && p.policyEpoch > 0 && VerifyManifest(authorization, trusted, now).Pass?;
            var newer := authorized && (previousEpoch.Some? ==> previousEpoch.value < p.policyEpoch);
            && (!known ==> verdict == Fail(UnsupportedVersion))
            && (known && !ours ==> verdict == Fail(WrongController))
            && (ours && !here ==> verdict == Fail(CrossNetwork))
            && (here && p.policyEpoch == 0 ==> verdict == Fail(Rollback))
            && (here && p.policyEpoch > 0 && !authorized ==> verdict == Fail(UnauthorizedGateway))
            && (authorized && !newer ==> verdict == Fail(Rollback))
            && (newer && (now > p.expiresAt || p.issuedAt > now + 120 || p.expiresAt <= p.issuedAt) ==>
                  verdict == Fail(Expired))
  {
    hide ValidateNormalized, VerifyManifest, GatewayOk, RouteCovered, Verifies, ExitsOk;
  }

  // ----- Longest match

  predicate Matches(route: PolicyRoute, destination: IpAddr) {
    Parse(route.prefix).Some? && Contains(Parse(route.prefix).value, destination)
  }

  function PrefixLength(route: PolicyRoute): nat {
    match Parse(route.prefix) case None => 0 case Some(net) => net.length
  }

  /** The index `max_by_key` settles on: a later match replaces an earlier one that is not
      longer. */
  function BestRoute(routes: seq<PolicyRoute>, destination: IpAddr): (r: Option<nat>)
    ensures r.Some? ==> r.value < |routes|
  {
    if routes == [] then None
    else
      var k := |routes| - 1;
      var best := BestRoute(routes[..k], destination);
      if !Matches(routes[k], destination) then best
      else if best.Some? && PrefixLength(routes[best.value]) > PrefixLength(routes[k]) then best
      else Some(k)
  }

  function GatewayFor(m: PolicyManifest, destination: IpAddr): Option<Uuid> {
    match BestRoute(m.payload.routes, destination)
    case None => None
    case Some(i) => Some(m.payload.routes[i].gateway.claims.deviceId)
  }

  ghost predicate IsBest(routes: seq<PolicyRoute>, destination: IpAddr, best: Option<nat>) {
    match best
    case None => forall j :: 0 <= j < |routes| ==> !Matches(routes[j], destination)
    case Some(i) =>
      && i < |routes| && Matches(routes[i], destination)
      && forall j :: 0 <= j < |routes| && Matches(routes[j], destination) ==>
           && PrefixLength(routes[j]) <= PrefixLength(routes[i])
           && (j > i ==> PrefixLength(routes[j]) < PrefixLength(routes[i]))
  }

  lemma {:induction false} BestRouteIsBest(routes: seq<PolicyRoute>, destination: IpAddr)
    ensures IsBest(routes, destination, BestRoute(routes, destination))
  {
    if routes == [] {
    } else {
      var front := routes[..|routes| - 1];
      BestRouteIsBest(front, destination);
      forall j | 0 <= j < |front| ensures routes[j] == front[j] {}
      forall j | 0 <= j < |routes| && Matches(routes[j], destination)
        ensures BestRoute(routes, destination).Some?
      {
        if j < |front| {
          assert Matches(front[j], destination);
        }
      }
    }
  }

  /** Longest match: the selected network lies inside the network of every other matching
      route, and among equal lengths the last route wins. */
  lemma LongestMatch(routes: seq<PolicyRoute>, destination: IpAddr, j: nat)
    requires j < |routes| && Matches(routes[j], destination)
    ensures BestRoute(routes, destination).Some?
    ensures var i := BestRoute(routes, destination).value;
            && Matches(routes[i], destination)
            && NetCovers(Parse(routes[j].prefix).value, Parse(routes[i].prefix).value)
            && (PrefixLength(routes[j]) == PrefixLength(routes[i]) ==> j <= i)
            && forall x: IpAddr :: Matches(routes[i], x) ==> Matches(routes[j], x)
  {
    BestRouteIsBest(routes, destination);
    var i := BestRoute(routes, destination).value;
    var (outer, inner) := (Parse(routes[j].prefix).value, Parse(routes[i].prefix).value);
    SharedAddressNests(outer, inner, destination);
    CoversIffSubset(outer, inner);
  }

  /** Data-path safety: the gateway a verified policy selects for a destination holds an
      active, unrevoked certificate of this network, signed by the trusted controller, with
      an allowed route that contains the destination. */
  lemma VerifiedGatewayIsAuthorized(m: PolicyManifest, networkId: Uuid, trusted: PublicKey,
                                    authorization: AuthorizationManifest, now: U64,
                                    previousEpoch: Option<U64>, destination: IpAddr)
    returns (c: MembershipCertificate, allowed: PrefixText)
    requires VerifyForNetwork(m, networkId, trusted, authorization, now, previousEpoch).Pass?
    requires GatewayFor(m, destination).Some?
    ensures c.claims.deviceId == GatewayFor(m, destination).value
    ensures c.claims.networkId == networkId
    ensures ControllerSigned(c, trusted) && Unexpired(c, now)
    ensures trusted.Ed25519? && authorization.signature == SignedBy(SigningKey(trusted.seed), authorization.payload)
    ensures Lists(authorization.payload, c)
    ensures c.certificateId !in authorization.payload.revokedCertificateIds
    ensures m.signature == SignedBy(SigningKey(trusted.seed), m.payload)
    ensures allowed in c.claims.allowedRoutes
    ensures Parse(allowed).Some? && Contains(Parse(allowed).value, destination)
  {
    BestRouteIsBest(m.payload.routes, destination);
    var i := BestRoute(m.payload.routes, destination).value;
    var route := m.payload.routes[i];
    c := route.gateway;
    assert GatewayOk(c, networkId, trusted, authorization, now) && RouteCovered(route);
    AcceptedIffSigned(c, trusted, now);
    ManifestAcceptedIffSigned(authorization, trusted, now);
    AuthorizesIffListed(authorization, c);
    var k :| 0 <= k < |c.claims.allowedRoutes| && PrefixCovers(c.claims.allowedRoutes[k], route.prefix);
    allowed := c.claims.allowedRoutes[k];
    CoversIffSubset(Parse(allowed).value, Parse(route.prefix).value);
  }
}
