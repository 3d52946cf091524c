/** When a stored policy can be signed, and what signing makes of it.

`Signable` reads the stored policy directly; the lemmas show it is exactly when the signing
loops and the manifest normalizer succeed, and that the manifest is then the stored policy in
normal form with each gateway's current certificate.
*/
module Signability {
  import opened Wrappers
  import opened Bytes
  import opened Cidr
  import opened Crypto
  import opened Domains
  import opened Lexicographic
  import opened Authorization
  import opened Policy
  import opened ControllerModel
  import opened Sorting

  // ----- Reference definitions

  ghost predicate RouteGatewaysOk(n: ManagedNetwork, routes: seq<ManagedPolicyRoute>) {
    forall i :: 0 <= i < |routes| ==>
      HasCertificate(n, routes[i].gatewayDeviceId) && AllowedRoute(n, routes[i])
  }

  ghost predicate ExitGatewaysOk(n: ManagedNetwork, exits: seq<ManagedExitNode>) {
    forall i :: 0 <= i < |exits| ==> HasCertificate(n, exits[i].gatewayDeviceId)
  }

  ghost predicate RoutesShape(routes: seq<ManagedPolicyRoute>) {
    && |routes| <= 256
    && (forall i :: 0 <= i < |routes| ==> Parse(routes[i].prefix).Some? && Parse(routes[i].prefix).value.length > 0)
    && (forall i, j :: 0 <= i < j < |routes| ==> Parse(routes[i].prefix) != Parse(routes[j].prefix))
  }

  ghost predicate ExitsShape(exits: seq<ManagedExitNode>) {
    && |exits| <= 16
    && (forall i :: 0 <= i < |exits| ==> exits[i].supportsIpv4 || exits[i].supportsIpv6)
    && (forall i, j :: 0 <= i < j < |exits| ==> exits[i].gatewayDeviceId != exits[j].gatewayDeviceId)
  }

  function NormalDns(dns: DnsPolicy): DnsPolicy {
    match NormalizedDomains(dns.searchDomains)
    case None => dns
    case Some(domains) => DnsPolicy(Dedup(Sort(AddrLe, dns.servers)), Dedup(Sort(StringLe, domains)))
  }

  /** The search domains as they will be stored. */
  ghost function NormalNames(domains: seq<string>): set<string> {
    set i | 0 <= i < |domains| && NormalizeDomain(domains[i]).Some? :: NormalizeDomain(domains[i]).value
  }

  /** At most 8 servers, all usable, and at most 16 domains, all valid, repetitions aside, and
      domains only with servers. */
  ghost predicate DnsShape(dns: DnsPolicy) {
    && (forall i :: 0 <= i < |dns.searchDomains| ==> NormalizeDomain(dns.searchDomains[i]).Some?)
    && (forall x :: x in dns.servers ==> UsableServer(x))
    && |Elements(dns.servers)| <= 8
    && |NormalNames(dns.searchDomains)| <= 16
    && (dns.searchDomains != [] ==> dns.servers != [])
  }

  ghost predicate ShapeOk(p: ManagedPolicy) {
    RoutesShape(p.routes) && ExitsShape(p.exitNodes) && DnsShape(p.dns)
  }

  ghost predicate Signable(n: ManagedNetwork) {
    && n.policyEpoch > 0
    && RouteGatewaysOk(n, n.policy.routes)
    && ExitGatewaysOk(n, n.policy.exitNodes)
    && ShapeOk(n.policy)
  }

  function PrintEntry(r: ManagedPolicyRoute): ManagedPolicyRoute {
    match Parse(r.prefix)
    case None => r
    case Some(net) => r.(prefix := Print(net))
  }

  predicate EntryLe(a: ManagedPolicyRoute, b: ManagedPolicyRoute) {
    TextLe(a.prefix, b.prefix)
  }

  predicate ExitEntryLe(a: ManagedExitNode, b: ManagedExitNode) {
    a.gatewayDeviceId <= b.gatewayDeviceId
  }

  /** Prefixes printed and sorted, exits sorted by device, DNS settings sorted without
      repetition. */
  function NormalForm(p: ManagedPolicy): ManagedPolicy {
    ManagedPolicy(Sort(EntryLe, Map(PrintEntry, p.routes)), Sort(ExitEntryLe, p.exitNodes), NormalDns(p.dns))
  }

  /** Every member's claims name the member and the network they are stored under. */
  ghost predicate WellKeyed(n: ManagedNetwork) {
    forall d :: d in n.members ==> n.members[d].deviceId == d && n.members[d].networkId == n.network.id
  }

  // ----- The signing loops

  lemma {:induction false} BuildRoutesIsExact(n: ManagedNetwork, routes: seq<ManagedPolicyRoute>, key: SigningKey,
                                              now: Clock)
    ensures BuildRoutes(n, routes, key, now).Ok? <==> RouteGatewaysOk(n, routes)
    ensures BuildRoutes(n, routes, key, now).Ok? ==>
              var built := BuildRoutes(n, routes, key, now).value;
              && |built| == |routes|
              && forall i :: 0 <= i < |routes| ==>
                   && HasCertificate(n, routes[i].gatewayDeviceId)
                   && built[i] == PolicyRoute(routes[i].prefix, CertificateFor(n, routes[i].gatewayDeviceId, key, now))
  {
    if routes == [] {
    } else {
      var front := routes[..|routes| - 1];
      BuildRoutesIsExact(n, front, key, now);
      assert routes == front + [routes[|routes| - 1]];
      if RouteGatewaysOk(n, routes) {
        forall i | 0 <= i < |front| ensures HasCertificate(n, front[i].gatewayDeviceId) && AllowedRoute(n, front[i]) {
          assert front[i] == routes[i];
        }
      }
    }
  }

  lemma {:induction false} BuildExitsIsExact(n: ManagedNetwork, exits: seq<ManagedExitNode>, key: SigningKey,
                                             now: Clock)
    ensures BuildExits(n, exits, key, now).Ok? <==> ExitGatewaysOk(n, exits)
    ensures BuildExits(n, exits, key, now).Ok? ==>
              var built := BuildExits(n, exits, key, now).value;
              && |built| == |exits|
              && forall i :: 0 <= i < |exits| ==>
                   && HasCertificate(n, exits[i].gatewayDeviceId)
                   && built[i] == ExitNode(CertificateFor(n, exits[i].gatewayDeviceId, key, now),
                                           exits[i].supportsIpv4, exits[i].supportsIpv6)
  {
    if exits == [] {
    } else {
      var front := exits[..|exits| - 1];
      BuildExitsIsExact(n, front, key, now);
      assert exits == front + [exits[|exits| - 1]];
      if ExitGatewaysOk(n, exits) {
        forall i | 0 <= i < |front| ensures HasCertificate(n, front[i].gatewayDeviceId) {
          assert front[i] == exits[i];
        }
      }
    }
  }

  // ----- The normalizer on routes

  lemma {:induction false} PrintedRoutesIsExact(routes: seq<PolicyRoute>)
    ensures PrintedRoutes(routes).Ok? <==> forall i :: 0 <= i < |routes| ==> ParseRoute(routes[i].prefix).Ok?
    ensures PrintedRoutes(routes).Ok? ==>
              var printed := PrintedRoutes(routes).value;
              forall i :: 0 <= i < |routes| ==>
                && ParseRoute(routes[i].prefix).Ok?
                && printed[i] == PolicyRoute(Print(ParseRoute(routes[i].prefix).value), routes[i].gateway)
  {
    if routes == [] {
    } else {
      var front := routes[..|routes| - 1];
      PrintedRoutesIsExact(front);
      assert forall i :: 0 <= i < |front| ==> front[i] == routes[i];
    }
  }

  function PrefixOf(r: PolicyRoute): PrefixText { r.prefix }

  lemma RoutesOkByTexts(routes: seq<PolicyRoute>)
    ensures RoutesOk(routes) <==>
              (forall i :: 0 <= i < |routes| ==> CanonicalText(routes[i].prefix)) && Distinct(Map(PrefixOf, routes))
  {
    var texts := Map(PrefixOf, routes);
    assert forall i :: 0 <= i < |routes| ==> texts[i] == routes[i].prefix;
  }

  /** Sorting printed routes affects neither their canonicity nor their distinctness. */
  lemma {:induction false} SortedRoutesOk(printed: seq<PolicyRoute>)
    requires forall i :: 0 <= i < |printed| ==> CanonicalText(printed[i].prefix)
    ensures RoutesOk(Sort(RouteLe, printed)) <==> Distinct(Map(PrefixOf, printed))
  {
    var sorted := Sort(RouteLe, printed);
    SortFacts(RouteLe, printed);
    RoutesOkByTexts(sorted);
    SortMap(RouteLe, TextLe, PrefixOf, printed);
    SortDistinct(TextLe, Map(PrefixOf, printed));
    forall i | 0 <= i < |sorted| ensures CanonicalText(sorted[i].prefix) {
      assert sorted[i] in printed;
    }
  }

  lemma ValidateIsExact(routes: seq<PolicyRoute>, dns: DnsPolicy)
    ensures ValidateNormalized(routes, dns).Pass? <==> |routes| <= MAX_ROUTES && RoutesOk(routes) && DnsOk(dns)
  {
    RouteVerdictIsExact(routes, |routes|);
    assert routes[..|routes|] == routes;
  }

  /** Two printed prefixes are the same text exactly when they are the same prefix. */
  lemma PrintedTexts(entries: seq<ManagedPolicyRoute>, built: seq<PolicyRoute>)
    requires |built| == |entries| && forall i :: 0 <= i < |entries| ==> built[i].prefix == entries[i].prefix
    requires forall i :: 0 <= i < |entries| ==> ParseRoute(entries[i].prefix).Ok?
    ensures PrintedRoutes(built).Ok?
    ensures var printed := PrintedRoutes(built).value;
            && (forall i :: 0 <= i < |printed| ==> CanonicalText(printed[i].prefix))
            && (Distinct(Map(PrefixOf, printed)) <==>
                forall i, j :: 0 <= i < j < |entries| ==> Parse(entries[i].prefix) != Parse(entries[j].prefix))
  {
    PrintedRoutesIsExact(built);
    var printed := PrintedRoutes(built).value;
    var texts := Map(PrefixOf, printed);
    forall i | 0 <= i < |entries|
      ensures Parse(entries[i].prefix).Some? && texts[i] == Print(Parse(entries[i].prefix).value)
      ensures CanonicalText(printed[i].prefix)
    {
      assert ParseRoute(entries[i].prefix).Ok?;
    }
  }

  lemma AddrIsTotalOrder()
    ensures TotalOrder(AddrLe)
  {
  }

  /** Sorting and deduplicating leave each element once. */
  lemma NormalListFacts<T(!new)>(le: (T, T) -> bool, s: seq<T>)
    requires TotalOrder(le)
    ensures var normal := Dedup(Sort(le, s));
            && Distinct(normal) && |normal| == |Elements(s)| && (normal == [] <==> s == [])
            && forall x :: x in normal <==> x in s
  {
    var normal := Dedup(Sort(le, s));
    SortFacts(le, s);
    SortSorts(le, s);
    DedupFacts(Sort(le, s));
    DedupDistinct(le, Sort(le, s));
    DistinctIffAsMany(normal);
    assert Elements(normal) == Elements(s);
    if s != [] {
      assert s[0] in normal;
    }
    if normal != [] {
      assert normal[0] in s;
    }
  }

  lemma NormalNamesAre(domains: seq<string>, names: seq<string>)
    requires NormalizedDomains(domains) == Some(names)
    ensures Elements(names) == NormalNames(domains)
    ensures forall x :: x in names ==> NormalizeDomain(x) == Some(x)
  {
    hide NormalizeDomain;
    forall x | x in names ensures NormalizeDomain(x) == Some(x) && x in NormalNames(domains) {
      var i :| 0 <= i < |names| && names[i] == x;
      assert NormalizeDomain(domains[i]) == Some(x);
      NormalizeDomainIdempotent(domains[i]);
    }
    forall x | x in NormalNames(domains) ensures x in names {
      var i :| 0 <= i < |domains| && NormalizeDomain(domains[i]).Some? && NormalizeDomain(domains[i]).value == x;
      assert NormalizeDomain(domains[i]) == Some(names[i]);
    }
  }

  /** The DNS part of the normalizer accepts exactly settings of the right shape. */
  lemma DnsIsExact(dns: DnsPolicy)
    ensures DnsShape(dns) <==> NormalizedDomains(dns.searchDomains).Some? && DnsOk(NormalDns(dns))
  {
    hide NormalizeDomain, UsableServer, Dedup, Sort, AddrLe, StringLe;
    if NormalizedDomains(dns.searchDomains).Some? {
      var names := NormalizedDomains(dns.searchDomains).value;
      AddrIsTotalOrder();
      StringIsTotalOrder();
      NormalListFacts(AddrLe, dns.servers);
      NormalListFacts(StringLe, names);
      NormalNamesAre(dns.searchDomains, names);
      DnsCounts(dns, NormalDns(dns), names);
    }
  }

  lemma DnsCounts(dns: DnsPolicy, normal: DnsPolicy, names: seq<string>)
    requires NormalizedDomains(dns.searchDomains) == Some(names) && |names| == |dns.searchDomains|
    requires Distinct(normal.servers) && |normal.servers| == |Elements(dns.servers)|
    requires (normal.servers == [] <==> dns.servers == []) && forall x :: x in normal.servers <==> x in dns.servers
    requires Distinct(normal.searchDomains) && |normal.searchDomains| == |NormalNames(dns.searchDomains)|
    requires normal.searchDomains == [] <==> names == []
    requires forall x :: x in normal.searchDomains ==> NormalizeDomain(x) == Some(x)
    ensures DnsShape(dns) <==> DnsOk(normal)
  {
    hide NormalizeDomain, UsableServer;
    assert (forall i :: 0 <= i < |normal.servers| ==> UsableServer(normal.servers[i])) <==>
           (forall x :: x in dns.servers ==> UsableServer(x)) by {
      assert forall i :: 0 <= i < |normal.servers| ==> normal.servers[i] in dns.servers;
      if forall i :: 0 <= i < |normal.servers| ==> UsableServer(normal.servers[i]) {
        forall x | x in dns.servers ensures UsableServer(x) {
          assert x in normal.servers;
        }
      }
    }
    assert forall i :: 0 <= i < |normal.searchDomains| ==> normal.searchDomains[i] in normal.searchDomains;
  }

  /** The normalizer succeeds exactly on routes and DNS settings of the right shape. */
  lemma {:induction false} NormalizeIsExact(entries: seq<ManagedPolicyRoute>, built: seq<PolicyRoute>, dns: DnsPolicy)
    requires |built| == |entries| && forall i :: 0 <= i < |entries| ==> built[i].prefix == entries[i].prefix
    ensures Normalize(built, dns).Ok? <==> RoutesShape(entries) && DnsShape(dns)
    ensures Normalize(built, dns).Ok? ==>
              && PrintedRoutes(built).Ok?
              && Normalize(built, dns).value == (Sort(RouteLe, PrintedRoutes(built).value), NormalDns(dns))
  {
    hide DnsOk, ValidateNormalized, RoutesOk, CanonicalText, Sort, Dedup, Distinct, DnsShape;
    DnsIsExact(dns);
    PrintedRoutesIsExact(built);
    assert (forall i :: 0 <= i < |entries| ==> ParseRoute(entries[i].prefix).Ok?) <==>
           (forall i :: 0 <= i < |entries| ==>
              Parse(entries[i].prefix).Some? && Parse(entries[i].prefix).value.length > 0);
    if forall i :: 0 <= i < |entries| ==> ParseRoute(entries[i].prefix).Ok? {
      PrintedTexts(entries, built);
      var printed := PrintedRoutes(built).value;
      SortedRoutesOk(printed);
      SortFacts(RouteLe, printed);
      ValidateIsExact(Sort(RouteLe, printed), NormalDns(dns));
    }
  }

  // ----- The normalizer on exit nodes

  function DeviceOf(x: ExitNode): Uuid { x.gateway.claims.deviceId }

  lemma {:induction false} NormalizeExitsIsExact(entries: seq<ManagedExitNode>, built: seq<ExitNode>)
    requires |built| == |entries| && forall i :: 0 <= i < |entries| ==> ExitEntry(built[i]) == entries[i]
    ensures NormalizeExits(built).Ok? <==> ExitsShape(entries)
    ensures NormalizeExits(built).Ok? ==> NormalizeExits(built).value == Sort(ExitLe, built)
  {
    var sorted := Sort(ExitLe, built);
    SortFacts(ExitLe, built);
    SortMap(ExitLe, UuidLe, DeviceOf, built);
    SortDistinct(UuidLe, Map(DeviceOf, built));
    var (before, after) := (Map(DeviceOf, built), Map(DeviceOf, sorted));
    assert forall i :: 0 <= i < |entries| ==> before[i] == entries[i].gatewayDeviceId;
    assert forall i :: 0 <= i < |sorted| ==> after[i] == sorted[i].gateway.claims.deviceId;
    assert Distinct(before) <==> Distinct(after);
    SupportsSorted(entries, built);
  }

  predicate Supports(x: ExitNode) { x.supportsIpv4 || x.supportsIpv6 }

  lemma SupportsSorted(entries: seq<ManagedExitNode>, built: seq<ExitNode>)
    requires |built| == |entries| && forall i :: 0 <= i < |entries| ==> ExitEntry(built[i]) == entries[i]
    ensures var sorted := Sort(ExitLe, built);
            (forall i :: 0 <= i < |sorted| ==> sorted[i].supportsIpv4 || sorted[i].supportsIpv6) <==>
            (forall i :: 0 <= i < |entries| ==> entries[i].supportsIpv4 || entries[i].supportsIpv6)
  {
    var sorted := Sort(ExitLe, built);
    SortFacts(ExitLe, built);
    hide Sort;
    forall i | 0 <= i < |entries|
      ensures Supports(built[i]) <==> entries[i].supportsIpv4 || entries[i].supportsIpv6
    {
      assert ExitEntry(built[i]) == entries[i];
    }
    assert (forall x :: x in sorted ==> Supports(x)) <==> (forall x :: x in built ==> Supports(x));
    assert (forall x :: x in built ==> Supports(x)) <==> (forall i :: 0 <= i < |built| ==> Supports(built[i]));
    assert (forall x :: x in sorted ==> Supports(x)) <==> (forall i :: 0 <= i < |sorted| ==> Supports(sorted[i]));
  }

  // ----- Signing as a whole

  lemma BuiltEntries(n: ManagedNetwork, key: SigningKey, now: Clock)
    requires WellKeyed(n)
    requires BuildRoutes(n, n.policy.routes, key, now).Ok? && BuildExits(n, n.policy.exitNodes, key, now).Ok?
    ensures var built := BuildRoutes(n, n.policy.routes, key, now).value;
            && |built| == |n.policy.routes|
            && forall i :: 0 <= i < |built| ==> RouteEntry(built[i]) == n.policy.routes[i]
    ensures var exits := BuildExits(n, n.policy.exitNodes, key, now).value;
            && |exits| == |n.policy.exitNodes|
            && forall i :: 0 <= i < |exits| ==> ExitEntry(exits[i]) == n.policy.exitNodes[i]
  {
    BuildRoutesIsExact(n, n.policy.routes, key, now);
    BuildExitsIsExact(n, n.policy.exitNodes, key, now);
  }

  /** Signing succeeds exactly on a signable network, at any time and with any key. */
  lemma SignPolicyIsExact(n: ManagedNetwork, key: SigningKey, now: Clock)
    requires WellKeyed(n)
    ensures SignPolicy(n, key, now).Ok? <==> Signable(n)
  {
    BuildRoutesIsExact(n, n.policy.routes, key, now);
    BuildExitsIsExact(n, n.policy.exitNodes, key, now);
    if BuildRoutes(n, n.policy.routes, key, now).Ok? && BuildExits(n, n.policy.exitNodes, key, now).Ok? {
      BuiltEntries(n, key, now);
      var built := BuildRoutes(n, n.policy.routes, key, now).value;
      forall i | 0 <= i < |built| ensures built[i].prefix == n.policy.routes[i].prefix {
        assert RouteEntry(built[i]) == n.policy.routes[i];
      }
      NormalizeIsExact(n.policy.routes, built, n.policy.dns);
      NormalizeExitsIsExact(n.policy.exitNodes, BuildExits(n, n.policy.exitNodes, key, now).value);
    }
  }

  /** What a signed manifest holds: the stored policy in normal form, every route and exit
      with its gateway's current certificate. */
  lemma SignedPolicyContents(n: ManagedNetwork, key: SigningKey, now: Clock)
    requires WellKeyed(n) && SignPolicy(n, key, now).Ok?
    ensures var p := SignPolicy(n, key, now).value.payload;
            && CompactPolicy(SignPolicy(n, key, now).value) == NormalForm(n.policy)
            && (forall i :: 0 <= i < |p.routes| ==> CurrentGateway(n, p.routes[i], key, now))
            && (forall i :: 0 <= i < |p.exitNodes| ==>
                  var d := p.exitNodes[i].gateway.claims.deviceId;
                  HasCertificate(n, d) && p.exitNodes[i].gateway == CertificateFor(n, d, key, now))
  {
    SignedRoutes(n, key, now);
    SignedExits(n, key, now);
    SignPolicyIsExact(n, key, now);
    var built := BuildRoutes(n, n.policy.routes, key, now).value;
    BuiltEntries(n, key, now);
    forall i | 0 <= i < |built| ensures built[i].prefix == n.policy.routes[i].prefix {
      assert RouteEntry(built[i]) == n.policy.routes[i];
    }
    NormalizeIsExact(n.policy.routes, built, n.policy.dns);
  }

  lemma SignedRoutesSorted(n: ManagedNetwork, key: SigningKey, now: Clock)
    requires WellKeyed(n) && SignPolicy(n, key, now).Ok?
    ensures BuildRoutes(n, n.policy.routes, key, now).Ok?
    ensures var built := BuildRoutes(n, n.policy.routes, key, now).value;
            && PrintedRoutes(built).Ok?
            && SignPolicy(n, key, now).value.payload.routes == Sort(RouteLe, PrintedRoutes(built).value)
  {
  }

  lemma SignedRoutes(n: ManagedNetwork, key: SigningKey, now: Clock)
    requires WellKeyed(n) && SignPolicy(n, key, now).Ok?
    ensures var routes := SignPolicy(n, key, now).value.payload.routes;
            && Map(RouteEntry, routes) == Sort(EntryLe, Map(PrintEntry, n.policy.routes))
            && forall i :: 0 <= i < |routes| ==> CurrentGateway(n, routes[i], key, now)
  {
    SignedRoutesSorted(n, key, now);
    BuiltEntries(n, key, now);
    var built := BuildRoutes(n, n.policy.routes, key, now).value;
    var routes := SignPolicy(n, key, now).value.payload.routes;
    hide SignPolicy, BuildRoutes, BuildExits, Sort;
    PrintedEntries(n.policy.routes, built);
    SortMap(RouteLe, EntryLe, RouteEntry, PrintedRoutes(built).value);
    forall i | 0 <= i < |routes| ensures CurrentGateway(n, routes[i], key, now) {
      SignedRouteGateway(n, key, now, routes[i]);
    }
  }

  /** A route with its gateway's certificate of this moment, which allows it. */
  predicate CurrentGateway(n: ManagedNetwork, route: PolicyRoute, key: SigningKey, now: Clock) {
    var d := route.gateway.claims.deviceId;
    HasCertificate(n, d) && route.gateway == CertificateFor(n, d, key, now) && RouteCovered(route)
  }

  lemma SignedRouteGateway(n: ManagedNetwork, key: SigningKey, now: Clock, route: PolicyRoute)
    requires WellKeyed(n) && SignPolicy(n, key, now).Ok?
    requires route in SignPolicy(n, key, now).value.payload.routes
    ensures CurrentGateway(n, route, key, now)
  {
    hide SignPolicy, BuildRoutes, BuildExits, CertificateFor, AllowedRoute, RouteCovered, Sort, PrintedRoutes, WellKeyed;
    SignedRoutesSorted(n, key, now);
    BuildRoutesIsExact(n, n.policy.routes, key, now);
    var built := BuildRoutes(n, n.policy.routes, key, now).value;
    PrintedRoutesIsExact(built);
    var printed := PrintedRoutes(built).value;
    SortFacts(RouteLe, printed);
    assert route in printed;
    var j :| 0 <= j < |printed| && printed[j] == route;
    CoveredWhenBuilt(n, n.policy.routes[j], built[j], printed[j], key, now);
  }

  lemma {:induction false} PrintedEntries(entries: seq<ManagedPolicyRoute>, built: seq<PolicyRoute>)
    requires |built| == |entries| && forall i :: 0 <= i < |entries| ==> RouteEntry(built[i]) == entries[i]
    requires PrintedRoutes(built).Ok?
    ensures Map(RouteEntry, PrintedRoutes(built).value) == Map(PrintEntry, entries)
  {
    PrintedRoutesIsExact(built);
    var printed := PrintedRoutes(built).value;
    forall i | 0 <= i < |printed| ensures RouteEntry(printed[i]) == PrintEntry(entries[i]) {
      assert RouteEntry(built[i]) == entries[i];
    }
  }

  /** Printing a prefix does not change what it covers. */
  lemma CoveredWhenBuilt(n: ManagedNetwork, entry: ManagedPolicyRoute, built: PolicyRoute,
                         printed: PolicyRoute,
       key: SigningKey, now: Clock)
    requires WellKeyed(n) && HasCertificate(n, entry.gatewayDeviceId) && AllowedRoute(n, entry)
    requires built == PolicyRoute(entry.prefix, CertificateFor(n, entry.gatewayDeviceId, key, now))
    requires Parse(printed.prefix) == Parse(built.prefix) && printed.gateway == built.gateway
    ensures printed.gateway.claims.deviceId == entry.gatewayDeviceId
    ensures RouteCovered(printed)
  {
    var allowed := n.members[entry.gatewayDeviceId].allowedRoutes;
    assert printed.gateway.claims.allowedRoutes == allowed;
    var k :| 0 <= k < |allowed| && PrefixCovers(allowed[k], entry.prefix);
    assert PrefixCovers(printed.gateway.claims.allowedRoutes[k], printed.prefix);
  }

  lemma SignedExits(n: ManagedNetwork, key: SigningKey, now: Clock)
    requires WellKeyed(n) && SignPolicy(n, key, now).Ok?
    ensures var exits := SignPolicy(n, key, now).value.payload.exitNodes;
            && Map(ExitEntry, exits) == Sort(ExitEntryLe, n.policy.exitNodes)
            && forall i :: 0 <= i < |exits| ==>
                 var d := exits[i].gateway.claims.deviceId;
                 HasCertificate(n, d) && exits[i].gateway == CertificateFor(n, d, key, now)
  {
    BuildExitsIsExact(n, n.policy.exitNodes, key, now);
    BuiltEntries(n, key, now);
    var built := BuildExits(n, n.policy.exitNodes, key, now).value;
    var exits := SignPolicy(n, key, now).value.payload.exitNodes;
    assert exits == Sort(ExitLe, built);
    SortMap(ExitLe, ExitEntryLe, ExitEntry, built);
    assert Map(ExitEntry, built) == n.policy.exitNodes;
    SortFacts(ExitLe, built);
    forall i | 0 <= i < |exits|
      ensures var d := exits[i].gateway.claims.deviceId;
              HasCertificate(n, d) && exits[i].gateway == CertificateFor(n, d, key, now)
    {
      assert exits[i] in built;
      var j :| 0 <= j < |built| && built[j] == exits[i];
    }
  }
}
