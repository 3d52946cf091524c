/** The policy normalizer and validator as they are written, with their loops. */
module PolicyMethods {
  import opened Wrappers
  import opened Cidr
  import opened Domains
  import opened Lexicographic
  import opened Policy
  import opened Sorting

  /** The first error of a prefix of the list is the first error of the list. */
  lemma {:induction false} RouteVerdictSticks(routes: seq<PolicyRoute>, k: nat, n: nat)
    requires k <= n <= |routes| && RouteVerdict(routes, k).Fail?
    ensures RouteVerdict(routes, n) == RouteVerdict(routes, k)
    decreases n - k
  {
    if k == n {
    } else {
      RouteVerdictSticks(routes, k, n - 1);
    }
  }

  lemma {:induction false} PrintedRoutesSticks(routes: seq<PolicyRoute>, k: nat)
    requires k <= |routes| && PrintedRoutes(routes[..k]).Err?
    ensures PrintedRoutes(routes) == PrintedRoutes(routes[..k])
    decreases |routes| - k
  {
    if k == |routes| {
      assert routes[..k] == routes;
    } else {
      assert routes[..k + 1][..k] == routes[..k];
      PrintedRoutesSticks(routes, k + 1);
    }
  }

  /** `validate_normalized_policy` */
  method ValidateNormalizedPolicy(routes: seq<PolicyRoute>, dns: DnsPolicy) returns (r: Outcome<PolicyError>)
    ensures r == ValidateNormalized(routes, dns)
  {
    if |routes| > MAX_ROUTES {
      return Fail(InvalidRoute);
    }
    var prefixes: set<PrefixText> := {};
    for k := 0 to |routes|
      invariant RouteVerdict(routes, k).Pass?
      invariant prefixes == set j | 0 <= j < k :: routes[j].prefix
    {
      var text := routes[k].prefix;
      var net := ParseRoute(text);
      if net.Err? {
        RouteVerdictSticks(routes, k + 1, |routes|);
        return Fail(net.error);
      }
      if Print(net.value) != text {
        RouteVerdictSticks(routes, k + 1, |routes|);
        return Fail(InvalidRoute);
      }
      if text in prefixes {
        assert RouteVerdict(routes, k + 1) == Fail(AmbiguousRoute);
        RouteVerdictSticks(routes, k + 1, |routes|);
        return Fail(AmbiguousRoute);
      }
      prefixes := prefixes + {text};
    }
    r := ValidateDns(dns);
  }

  method ValidateDns(dns: DnsPolicy) returns (r: Outcome<PolicyError>)
    ensures r == if DnsOk(dns) then Pass else Fail(InvalidDns)
  {
    hide NormalizeDomain, UsableServer;
    var distinct := set i | 0 <= i < |dns.servers| :: dns.servers[i];
    DistinctIffAsMany(dns.servers);
    assert distinct == Elements(dns.servers);
    if || |dns.servers| > MAX_DNS_SERVERS || |dns.searchDomains| > MAX_SEARCH_DOMAINS
       || (dns.searchDomains != [] && dns.servers == [])
       || |distinct| != |dns.servers|
    {
      return Fail(InvalidDns);
    }
    if exists i :: 0 <= i < |dns.servers| && !UsableServer(dns.servers[i]) {
      return Fail(InvalidDns);
    }
    r := ValidateDomains(dns.searchDomains);
  }

  method ValidateDomains(searchDomains: seq<string>) returns (r: Outcome<PolicyError>)
    ensures r == if Distinct(searchDomains)
                    && forall i :: 0 <= i < |searchDomains| ==>
                         NormalizeDomain(searchDomains[i]) == Some(searchDomains[i])
                 then Pass else Fail(InvalidDns)
  {
    hide NormalizeDomain;
    var domains: set<string> := {};
    for k := 0 to |searchDomains|
      invariant domains == set j | 0 <= j < k :: searchDomains[j]
      invariant forall i :: 0 <= i < k ==> NormalizeDomain(searchDomains[i]) == Some(searchDomains[i])
      invariant forall i, j :: 0 <= i < j < k ==> searchDomains[i] != searchDomains[j]
    {
      var domain := searchDomains[k];
      if NormalizeDomain(domain) != Some(domain) || domain in domains {
        return Fail(InvalidDns);
      }
      domains := domains + {domain};
    }
    return Pass;
  }

  /** `normalize_policy`: prefixes and domains are rewritten in place, then sorted. */
  method NormalizePolicy(routes: seq<PolicyRoute>, dns: DnsPolicy)
    returns (r: Result<(seq<PolicyRoute>, DnsPolicy), PolicyError>)
    ensures r == Normalize(routes, dns)
  {
    hide NormalizeDomain, DnsOk, ValidateNormalized, Sort, Dedup;
    var rewritten := routes;
    for k := 0 to |routes|
      invariant |rewritten| == |routes| && rewritten[k..] == routes[k..]
      invariant PrintedRoutes(routes[..k]) == Ok(rewritten[..k])
    {
      assert routes[..k + 1][..k] == routes[..k] && rewritten[k] == routes[k];
      var net := ParseRoute(rewritten[k].prefix);
      if net.Err? {
        PrintedRoutesSticks(routes, k + 1);
        return Err(net.error);
      }
      ghost var front := rewritten[..k];
      rewritten := rewritten[k := rewritten[k].(prefix := Print(net.value))];
      assert rewritten[..k + 1] == front + [PolicyRoute(Print(net.value), routes[k].gateway)];
    }
    assert routes[..|routes|] == routes && rewritten[..|routes|] == rewritten;
    var servers := Dedup(Sort(AddrLe, dns.servers));
    var domains := dns.searchDomains;
    for k := 0 to |domains|
      invariant |domains| == |dns.searchDomains| && domains[k..] == dns.searchDomains[k..]
      invariant forall i :: 0 <= i < k ==> NormalizeDomain(dns.searchDomains[i]) == Some(domains[i])
    {
      assert domains[k] == dns.searchDomains[k];
      var domain := NormalizeDomain(domains[k]);
      if domain.None? {
        return Err(InvalidDns);
      }
      domains := domains[k := domain.value];
    }
    assert NormalizedDomains(dns.searchDomains) == Some(domains) by {
      var found := NormalizedDomains(dns.searchDomains);
      assert forall i :: 0 <= i < |domains| ==> Some(found.value[i]) == Some(domains[i]);
      assert found.value == domains;
    }
    var sorted := Sort(RouteLe, rewritten);
    var dns' := DnsPolicy(servers, Dedup(Sort(StringLe, domains)));
    var verdict := ValidateNormalizedPolicy(sorted, dns');
    if verdict.Fail? {
      return Err(verdict.error);
    }
    return Ok((sorted, dns'));
  }
}
