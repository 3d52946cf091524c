/** Choosing virtual addresses for the members of a network. */
module AddressPool {
  import opened Wrappers
  import opened Words
  import opened Bytes
  import opened Cidr
  import opened Membership

  datatype PoolError = BadPrefix | NoHostAddresses | PoolExhausted

  type Members = map<Uuid, MembershipClaims>

  /** The addresses of one family that members hold. */
  function UsedBits(members: Members, family: Family): set<nat> {
    set d, i | d in members && 0 <= i < |members[d].assignedAddresses|
               && members[d].assignedAddresses[i].family == family
      :: members[d].assignedAddresses[i].bits
  }

  /** The reference: scanning every address from `lo` to `hi` for one not in use. */
  function LowestFree(lo: nat, hi: nat, used: set<nat>): Option<nat>
    decreases hi + 1 - lo
  {
    if lo > hi then None
    else if lo !in used then Some(lo)
    else LowestFree(lo + 1, hi, used)
  }

  /** The scan finds the smallest free address, and fails only when there is none. */
  lemma {:induction false} LowestFreeIsLowest(lo: nat, hi: nat, used: set<nat>)
    ensures match LowestFree(lo, hi, used)
            case Some(x) => lo <= x <= hi && x !in used && forall y :: lo <= y < x ==> y in used
            case None => forall y :: lo <= y <= hi ==> y in used
    decreases hi + 1 - lo
  {
    if lo <= hi && lo in used {
      LowestFreeIsLowest(lo + 1, hi, used);
    }
  }

  /** The lowest free address of `net` from the one after its first up to `hi`. */
  function FreeHost(net: IpNet, hi: nat, used: set<nat>): (r: Result<IpAddr, PoolError>)
    requires hi <= Broadcast(net)
    ensures r.Ok? ==> && Contains(net, r.value) && Network(net) < r.value.bits <= hi
                      && r.value.bits !in used
                      && forall y :: Network(net) < y < r.value.bits ==> y in used
    ensures r.Err? ==> r.error == PoolExhausted && forall y :: Network(net) < y <= hi ==> y in used
  {
    LowestFreeIsLowest(Network(net) + 1, hi, used);
    NetworkAligned(net);
    match LowestFree(Network(net) + 1, hi, used)
    case None => Err(PoolExhausted)
    case Some(x) => Ok(IpAddr(net.family, x))
  }

  /** The host address a network gives out next: neither its first nor its last address. */
  function Ipv4Choice(prefix: PrefixText, used: set<nat>): Result<IpAddr, PoolError> {
    match Parse(prefix)
    case None => Err(BadPrefix)
    case Some(net) =>
      if net.family != V4 then Err(BadPrefix)
      else if net.length >= 31 then Err(NoHostAddresses)
      else
        Pow2Monotone(1, Width(net.family) - net.length);
        FreeHost(net, Broadcast(net) - 1, used)
  }

  function Ipv6Choice(prefix: PrefixText, used: set<nat>): Result<IpAddr, PoolError> {
    match Parse(prefix)
    case None => Err(BadPrefix)
    case Some(net) =>
      if net.family != V6 then Err(BadPrefix)
      else if net.length == 128 then Err(NoHostAddresses)
      else FreeHost(net, Broadcast(net), used)
  }

  /** Which IPv4 address a network gives out next, exactly: the least one between its first and its
      last that is not in use; none if there is none, as in a network of one or two addresses. */
  lemma Ipv4ChoiceIsExact(prefix: PrefixText, used: set<nat>)
    ensures Ipv4Choice(prefix, used).Ok? <==>
              && Parse(prefix).Some? && Parse(prefix).value.family == V4
              && exists y :: Network(Parse(prefix).value) < y < Broadcast(Parse(prefix).value) && y !in used
    ensures Ipv4Choice(prefix, used).Ok? ==>
              var (net, a) := (Parse(prefix).value, Ipv4Choice(prefix, used).value);
              && a.family == V4 && Network(net) < a.bits < Broadcast(net) && a.bits !in used
              && forall y :: Network(net) < y < a.bits ==> y in used
  {
    if Parse(prefix).Some? && Parse(prefix).value.family == V4 {
      var net := Parse(prefix).value;
      if net.length >= 31 {
        Pow2Monotone(Width(net.family) - net.length, 1);
      } else {
        Pow2Monotone(1, Width(net.family) - net.length);
      }
    }
  }

  /** The same for IPv6, where the last address may be given out. */
  lemma Ipv6ChoiceIsExact(prefix: PrefixText, used: set<nat>)
    ensures Ipv6Choice(prefix, used).Ok? <==>
              && Parse(prefix).Some? && Parse(prefix).value.family == V6
              && exists y :: Network(Parse(prefix).value) < y <= Broadcast(Parse(prefix).value) && y !in used
    ensures Ipv6Choice(prefix, used).Ok? ==>
              var (net, a) := (Parse(prefix).value, Ipv6Choice(prefix, used).value);
              && a.family == V6 && Network(net) < a.bits <= Broadcast(net) && a.bits !in used
              && forall y :: Network(net) < y < a.bits ==> y in used
  {
    if Parse(prefix).Some? && Parse(prefix).value.family == V6 && Parse(prefix).value.length == 128 {
      var net := Parse(prefix).value;
      assert Block(net) == 1;
    }
  }

  /** `allocate_ipv4_address`: the first free host address, skipping the network and broadcast
      addresses. */
  method AllocateIpv4(prefix: PrefixText, used: set<nat>) returns (r: Result<IpAddr, PoolError>)
    ensures r == Ipv4Choice(prefix, used)
  {
    if Parse(prefix).None? || Parse(prefix).value.family != V4 {
      return Err(BadPrefix);
    }
    var net := Parse(prefix).value;
    if net.length >= 31 {
      return Err(NoHostAddresses);
    }
    Pow2Monotone(1, Width(net.family) - net.length);
    NetworkAligned(net);
    var first, last := Network(net) + 1, Broadcast(net) - 1;
    for candidate := first to last + 1
      invariant LowestFree(first, last, used) == LowestFree(candidate, last, used)
    {
      if candidate !in used {
        return Ok(IpAddr(net.family, candidate));
      }
    }
    return Err(PoolExhausted);
  }

  lemma SubsetSize(a: set<nat>, b: set<nat>)
    requires a <= b
    ensures |a| <= |b|
  {
    assert b == a + (b - a);
  }

  /** `allocate_ipv6_address`: at most one more offset than there are used addresses is tried,
      yet the answer is that of the scan over the whole prefix, up to its last address and up
      to the end of the address space. */
  method AllocateIpv6(prefix: PrefixText, used: set<nat>) returns (r: Result<IpAddr, PoolError>)
    ensures r == Ipv6Choice(prefix, used)
  {
    if Parse(prefix).None? || Parse(prefix).value.family != V6 {
      return Err(BadPrefix);
    }
    var net := Parse(prefix).value;
    if net.length == 128 {
      return Err(NoHostAddresses);
    }
    r := SearchOffsets(net, used);
  }

  method SearchOffsets(net: IpNet, used: set<nat>) returns (r: Result<IpAddr, PoolError>)
    ensures r == FreeHost(net, Broadcast(net), used)
  {
    var start := Network(net);
    var space := Pow2(Width(net.family));
    NetworkAligned(net);
    ghost var last := Broadcast(net);
    ghost var hits: set<nat> := {};
    var offset := 1;
    while offset <= |used| + 1
      invariant 1 <= offset <= |used| + 2
      invariant LowestFree(start + 1, last, used) == LowestFree(start + offset, last, used)
      invariant hits <= used && |hits| == offset - 1
      invariant forall x :: x in hits ==> x < start + offset
    {
      if start + offset >= space {
        return Err(PoolExhausted);
      }
      var candidate := IpAddr(net.family, start + offset);
      if !Contains(net, candidate) {
        return Err(PoolExhausted);
      }
      if candidate.bits !in used {
        return Ok(candidate);
      }
      hits := hits + {candidate.bits};
      offset := offset + 1;
    }
    SubsetSize(hits, used);
    assert false;
    return Err(PoolExhausted);
  }

  predicate HasFamily(addresses: seq<IpAddr>, family: Family) {
    exists i :: 0 <= i < |addresses| && addresses[i].family == family
  }
}
