/** Policies in normal form, and what keeps them so. */
module NormalPolicies {
  import opened Wrappers
  import opened Bytes
  import opened Cidr
  import opened Domains
  import opened Lexicographic
  import opened Authorization
  import opened Policy
  import opened ControllerModel
  import opened Signability
  import opened Sorting

  /** A stored policy that normalizing would not change. */
  ghost predicate IsNormal(p: ManagedPolicy) {
    ShapeOk(p) && NormalForm(p) == p
  }

  lemma OrdersAreTotal()
    ensures TotalOrder(TextLe) && TotalOrder(AddrLe) && TotalOrder(StringLe)
    ensures TotalPreorder(EntryLe) && TotalPreorder(ExitEntryLe)
  {
    StringIsTotalOrder();
    forall a, b, c | EntryLe(a, b) && EntryLe(b, c) ensures EntryLe(a, c) {
      assert TextLe(a.prefix, c.prefix);
    }
    forall a, b ensures EntryLe(a, b) || EntryLe(b, a) {
      assert TextLe(a.prefix, b.prefix) || TextLe(b.prefix, a.prefix);
    }
  }

  // ----- DNS

  lemma DomainsAgain(domains: seq<string>, normal: seq<string>)
    requires NormalizedDomains(domains).Some? && normal == Dedup(Sort(StringLe, NormalizedDomains(domains).value))
    ensures NormalizedDomains(normal) == Some(normal)
  {
    var values := NormalizedDomains(domains).value;
    SortFacts(StringLe, values);
    DedupFacts(Sort(StringLe, values));
    forall i | 0 <= i < |normal| ensures NormalizeDomain(normal[i]) == Some(normal[i]) {
      assert normal[i] in values;
      var j :| 0 <= j < |values| && values[j] == normal[i];
      NormalizeDomainIdempotent(domains[j]);
    }
    var again := NormalizedDomains(normal).value;
    assert forall i :: 0 <= i < |normal| ==> Some(again[i]) == Some(normal[i]);
    assert again == normal;
  }

  lemma NormalDnsIdempotent(dns: DnsPolicy)
    requires NormalizedDomains(dns.searchDomains).Some?
    ensures NormalizedDomains(NormalDns(dns).searchDomains) == Some(NormalDns(dns).searchDomains)
    ensures NormalDns(NormalDns(dns)) == NormalDns(dns)
  {
    OrdersAreTotal();
    var normal := NormalDns(dns);
    var values := NormalizedDomains(dns.searchDomains).value;
    DomainsAgain(dns.searchDomains, normal.searchDomains);
    SortSorts(StringLe, values);
    DedupDistinct(StringLe, Sort(StringLe, values));
    SortFixed(StringLe, normal.searchDomains);
    DedupFixed(normal.searchDomains);
    SortSorts(AddrLe, dns.servers);
    DedupDistinct(AddrLe, Sort(AddrLe, dns.servers));
    SortFixed(AddrLe, normal.servers);
    DedupFixed(normal.servers);
  }

  // ----- Routes and exits

  lemma PrintedEntriesFixed(routes: seq<ManagedPolicyRoute>)
    requires forall i :: 0 <= i < |routes| ==> CanonicalText(routes[i].prefix)
    ensures Map(PrintEntry, routes) == routes
  {
    forall i | 0 <= i < |routes| ensures PrintEntry(routes[i]) == routes[i] {
      assert CanonicalText(routes[i].prefix);
    }
  }

  /** Every entry of the normal form is a printed entry of the policy, and conversely. */
  lemma NormalRoutesShape(routes: seq<ManagedPolicyRoute>)
    requires RoutesShape(routes)
    ensures var normal := Sort(EntryLe, Map(PrintEntry, routes));
            && RoutesShape(normal) && Sorted(EntryLe, normal)
            && forall i :: 0 <= i < |normal| ==> CanonicalText(normal[i].prefix)
  {
    OrdersAreTotal();
    var printed := Map(PrintEntry, routes);
    var normal := Sort(EntryLe, printed);
    SortFacts(EntryLe, printed);
    SortSorts(EntryLe, printed);
    forall i | 0 <= i < |normal| ensures CanonicalText(normal[i].prefix) {
      assert normal[i] in printed;
      var j :| 0 <= j < |printed| && printed[j] == normal[i];
      assert ParseRoute(routes[j].prefix).Ok?;
    }
    DistinctPrefixes(printed);
    assert forall i, j :: 0 <= i < j < |printed| ==> printed[i].prefix != printed[j].prefix by {
      forall i, j | 0 <= i < j < |printed| ensures printed[i].prefix != printed[j].prefix {
        assert Parse(routes[i].prefix) != Parse(routes[j].prefix);
        assert ParseRoute(routes[i].prefix).Ok? && ParseRoute(routes[j].prefix).Ok?;
      }
    }
    forall i, j | 0 <= i < j < |normal| ensures Parse(normal[i].prefix) != Parse(normal[j].prefix) {
      assert CanonicalText(normal[i].prefix) && CanonicalText(normal[j].prefix);
    }
  }

  function EntryPrefix(r: ManagedPolicyRoute): PrefixText { r.prefix }

  lemma DistinctPrefixes(entries: seq<ManagedPolicyRoute>)
    ensures (forall i, j :: 0 <= i < j < |entries| ==> entries[i].prefix != entries[j].prefix) ==>
            var sorted := Sort(EntryLe, entries);
            forall i, j :: 0 <= i < j < |sorted| ==> sorted[i].prefix != sorted[j].prefix
  {
    var sorted := Sort(EntryLe, entries);
    SortMap(EntryLe, TextLe, EntryPrefix, entries);
    SortDistinct(TextLe, Map(EntryPrefix, entries));
    var (before, after) := (Map(EntryPrefix, entries), Map(EntryPrefix, sorted));
    assert forall i :: 0 <= i < |entries| ==> before[i] == entries[i].prefix;
    assert forall i :: 0 <= i < |sorted| ==> after[i] == sorted[i].prefix;
    if forall i, j :: 0 <= i < j < |entries| ==> entries[i].prefix != entries[j].prefix {
      assert Distinct(before);
      assert Distinct(after);
    }
  }

  function ExitDevice(x: ManagedExitNode): Uuid { x.gatewayDeviceId }

  lemma NormalExitsShape(exits: seq<ManagedExitNode>)
    requires ExitsShape(exits)
    ensures ExitsShape(Sort(ExitEntryLe, exits)) && Sorted(ExitEntryLe, Sort(ExitEntryLe, exits))
  {
    OrdersAreTotal();
    var sorted := Sort(ExitEntryLe, exits);
    SortFacts(ExitEntryLe, exits);
    SortSorts(ExitEntryLe, exits);
    SortMap(ExitEntryLe, UuidLe, ExitDevice, exits);
    SortDistinct(UuidLe, Map(ExitDevice, exits));
    var (before, after) := (Map(ExitDevice, exits), Map(ExitDevice, sorted));
    assert forall i :: 0 <= i < |exits| ==> before[i] == exits[i].gatewayDeviceId;
    assert forall i :: 0 <= i < |sorted| ==> after[i] == sorted[i].gatewayDeviceId;
    assert Distinct(before) && Distinct(after);
    forall i | 0 <= i < |sorted| ensures sorted[i].supportsIpv4 || sorted[i].supportsIpv6 {
      assert sorted[i] in exits;
    }
  }

  /** The normal form of a well-shaped policy is normal: normalizing is idempotent. */
  lemma NormalFormIsNormal(p: ManagedPolicy)
    requires ShapeOk(p)
    ensures IsNormal(NormalForm(p))
  {
    var q := NormalForm(p);
    NormalRoutesShape(p.routes);
    NormalExitsShape(p.exitNodes);
    DnsIsExact(p.dns);
    NormalDnsIdempotent(p.dns);
    DnsIsExact(q.dns);
    hide DnsShape, DnsOk, NormalDns;
    NormalFormFixed(q);
  }

  lemma NormalFormFixed(q: ManagedPolicy)
    requires forall i :: 0 <= i < |q.routes| ==> CanonicalText(q.routes[i].prefix)
    requires Sorted(EntryLe, q.routes) && Sorted(ExitEntryLe, q.exitNodes) && NormalDns(q.dns) == q.dns
    ensures NormalForm(q) == q
  {
    PrintedEntriesFixed(q.routes);
    SortFixed(EntryLe, q.routes);
    SortFixed(ExitEntryLe, q.exitNodes);
  }

  lemma EmptyIsNormal()
    ensures IsNormal(EMPTY_POLICY)
  {
    assert NormalizedDomains([]) == Some([]);
  }

  /** What being normal means entry by entry. */
  lemma NormalFacts(p: ManagedPolicy)
    requires IsNormal(p)
    ensures forall i :: 0 <= i < |p.routes| ==> CanonicalText(p.routes[i].prefix)
    ensures Sorted(EntryLe, p.routes) && Sorted(ExitEntryLe, p.exitNodes)
  {
    NormalRoutesShape(p.routes);
    NormalExitsShape(p.exitNodes);
  }

  lemma ConsRoutesShape(route: ManagedPolicyRoute, rest: seq<ManagedPolicyRoute>)
    requires RoutesShape(rest) && |rest| < MAX_ROUTES && ParseRoute(route.prefix).Ok?
    requires forall k :: 0 <= k < |rest| ==> Parse(route.prefix) != Parse(rest[k].prefix)
    ensures RoutesShape([route] + rest)
  {
  }

  lemma TailRoutesShape(routes: seq<ManagedPolicyRoute>)
    requires RoutesShape(routes) && routes != []
    ensures RoutesShape(routes[1..]) && |routes[1..]| < MAX_ROUTES && ParseRoute(routes[0].prefix).Ok?
    ensures forall route :: route in routes[1..] ==> Parse(routes[0].prefix) != Parse(route.prefix)
  {
  }

  lemma {:induction false} FilteredRoutesShape(keep: ManagedPolicyRoute -> bool, routes: seq<ManagedPolicyRoute>)
    requires RoutesShape(routes)
    ensures RoutesShape(Filter(keep, routes))
  {
    if routes == [] {
    } else {
      var (head, tail) := (routes[0], routes[1..]);
      TailRoutesShape(routes);
      FilteredRoutesShape(keep, tail);
      FilterFacts(keep, tail);
      var rest := Filter(keep, tail);
      hide RoutesShape;
      forall k | 0 <= k < |rest| ensures Parse(head.prefix) != Parse(rest[k].prefix) {
        FilterMember(keep, tail, rest[k]);
      }
      ConsRoutesShape(head, rest);
      assert Filter(keep, routes) == if keep(head) then [head] + rest else rest;
    }
  }

  lemma ConsExitsShape(x: ManagedExitNode, rest: seq<ManagedExitNode>)
    requires ExitsShape(rest) && |rest| < MAX_EXIT_NODES && (x.supportsIpv4 || x.supportsIpv6)
    requires forall k :: 0 <= k < |rest| ==> x.gatewayDeviceId != rest[k].gatewayDeviceId
    ensures ExitsShape([x] + rest)
  {
  }

  lemma TailExitsShape(exits: seq<ManagedExitNode>)
    requires ExitsShape(exits) && exits != []
    ensures ExitsShape(exits[1..]) && |exits[1..]| < MAX_EXIT_NODES
    ensures exits[0].supportsIpv4 || exits[0].supportsIpv6
    ensures forall x :: x in exits[1..] ==> exits[0].gatewayDeviceId != x.gatewayDeviceId
  {
  }

  lemma {:induction false} FilteredExitsShape(keep: ManagedExitNode -> bool, exits: seq<ManagedExitNode>)
    requires ExitsShape(exits)
    ensures ExitsShape(Filter(keep, exits))
  {
    if exits == [] {
    } else {
      var (head, tail) := (exits[0], exits[1..]);
      TailExitsShape(exits);
      FilteredExitsShape(keep, tail);
      FilterFacts(keep, tail);
      var rest := Filter(keep, tail);
      hide ExitsShape;
      forall k | 0 <= k < |rest| ensures head.gatewayDeviceId != rest[k].gatewayDeviceId {
        FilterMember(keep, tail, rest[k]);
      }
      ConsExitsShape(head, rest);
      assert Filter(keep, exits) == if keep(head) then [head] + rest else rest;
    }
  }

  lemma WithoutShape(p: ManagedPolicy, device: Uuid)
    requires ShapeOk(p)
    ensures ShapeOk(Without(p, device))
  {
    FilteredRoutesShape(r => RoutedElsewhere(device, r), p.routes);
    FilteredExitsShape(x => ExitElsewhere(device, x), p.exitNodes);
  }

  /** Dropping the entries of one device leaves a normal policy normal. */
  lemma WithoutIsNormal(p: ManagedPolicy, device: Uuid)
    requires IsNormal(p)
    ensures IsNormal(Without(p, device))
  {
    NormalFacts(p);
    WithoutShape(p, device);
    var routes := Without(p, device).routes;
    var keepRoute := (r: ManagedPolicyRoute) => RoutedElsewhere(device, r);
    var keepExit := (x: ManagedExitNode) => ExitElsewhere(device, x);
    FilterKeepsSorted(EntryLe, keepRoute, p.routes);
    FilterKeepsSorted(ExitEntryLe, keepExit, p.exitNodes);
    forall i | 0 <= i < |routes| ensures CanonicalText(routes[i].prefix) {
      FilterMember(keepRoute, p.routes, routes[i]);
    }
    NormalFormFixed(Without(p, device));
  }
}
