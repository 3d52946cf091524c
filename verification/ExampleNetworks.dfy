/** Small networks, in states a controller can be in, on which expectations fail. */
module ExampleNetworks {
  import opened Wrappers
  import opened Words
  import opened Bytes
  import opened Cidr
  import opened Crypto
  import opened Membership
  import opened Policy
  import opened ControllerModel
  import opened Signability
  import opened NormalPolicies
  import opened NetworkInvariants

  const NETWORK: Uuid := 7

  function V4Net(bits: nat, length: nat): (r: IpNet)
    requires bits <= 0xFFFF_FFFF && length <= 32
    ensures r.family == V4 && r.length == length
  {
    HalfWordRange(Width(V4));
    IpNet(V4, bits, length)
  }

  /** 10.0.0.0/24 */
  function Home(): IpNet {
    V4Net(0x0A00_0000, 24)
  }

  /** 192.168.0.0/16 */
  function Office(): IpNet {
    V4Net(0xC0A8_0000, 16)
  }

  /** The `k`-th host address of a network. */
  function HostAt(home: IpNet, k: nat): (r: IpAddr)
    requires home.family == V4 && 1 <= k && k + 2 <= Block(home)
    ensures r.bits == Network(home) + k && V4Host(home, r)
  {
    NetworkAligned(home);
    IpAddr(home.family, Network(home) + k)
  }

  lemma HomeBlock(n: nat)
    requires n == Width(V4) - Home().length
    ensures Pow2(n) == 256
  {
    assert Pow2(4) == 16;
    Pow2Square(n / 2, 16);
  }

  /** 10.0.0.1 and the addresses after it. */
  function HomeAddress(k: nat): (r: IpAddr)
    requires 1 <= k <= 254
    ensures r.bits == Network(Home()) + k && V4Host(Home(), r)
  {
    HomeBlock(Width(V4) - Home().length);
    HostAt(Home(), k)
  }

  predicate V4Host(home: IpNet, address: IpAddr) {
    home.family == V4 && address.family == V4 && HostAddress(Print(home), address)
  }

  function Claims(home: IpNet, device: Uuid, key: PublicKey, address: IpAddr, extra: seq<PrefixText>): MembershipClaims {
    MembershipClaims(NETWORK, device, key, [address], [Print(home)] + extra, 0, None)
  }

  function Bare(home: IpNet): ManagedNetwork {
    NewNetwork(VirtualNetwork(NETWORK, "home", Print(home), None, Preferred), seq(32, _ => 0))
  }

  /** A network with device 1 as its only member, holding certificate 3. */
  function Lone(home: IpNet, address: IpAddr, key: PublicKey, extra: seq<PrefixText>, policy: ManagedPolicy)
    : ManagedNetwork
  {
    Bare(home).(members := map[1 := Claims(home, 1, key, address, extra)],
                certificateIds := map[1 := 3],
                policy := policy)
  }

  lemma LoneInv(home: IpNet, address: IpAddr, key: PublicKey, extra: seq<PrefixText>,
                policy: ManagedPolicy, issued: set<Uuid>)
    requires V4Host(home, address) && IsNormal(policy) && 3 in issued
    ensures NetworkInv(Lone(home, address, key, extra, policy), NETWORK, issued)
  {
    hide IsNormal, HostAddress;
  }

  /** A network at the last key epoch with devices 1 and 2 as members. */
  function Saturated(home: IpNet, first: IpAddr, second: IpAddr, key: PublicKey): ManagedNetwork {
    Bare(home).(members := map[1 := Claims(home, 1, key, first, []), 2 := Claims(home, 2, key, second, [])],
                certificateIds := map[1 := 3, 2 := 4],
                networkKeyEpoch := U64_MAX)
  }

  lemma SaturatedIdentities(home: IpNet, first: IpAddr, second: IpAddr, key: PublicKey, issued: set<Uuid>)
    requires {3, 4} <= issued
    ensures IdentityInv(Saturated(home, first, second, key), issued)
  {
    assert 3 in issued && 4 in issued;
    var n := Saturated(home, first, second, key);
    assert n.members.Keys == {1, 2} && n.certificateIds.Keys == {1, 2};
  }

  lemma SaturatedAddresses(home: IpNet, first: IpAddr, second: IpAddr, key: PublicKey)
    requires V4Host(home, first) && V4Host(home, second) && first != second
    ensures AddressInv(Saturated(home, first, second, key))
  {
    hide HostAddress;
    var n := Saturated(home, first, second, key);
    assert n.members[1].assignedAddresses == [first] && n.members[2].assignedAddresses == [second];
  }

  lemma SaturatedInv(home: IpNet, first: IpAddr, second: IpAddr, key: PublicKey, issued: set<Uuid>)
    requires V4Host(home, first) && V4Host(home, second) && first != second && {3, 4} <= issued
    ensures NetworkInv(Saturated(home, first, second, key), NETWORK, issued)
  {
    hide IsNormal, IdentityInv, AddressInv, HostAddress;
    EmptyIsNormal();
    SaturatedIdentities(home, first, second, key, issued);
    SaturatedAddresses(home, first, second, key);
  }

  /** One route through device 1. */
  function RouteThrough(office: IpNet): ManagedPolicy {
    EMPTY_POLICY.(routes := [ManagedPolicyRoute(Print(office), 1)])
  }

  lemma RouteThroughIsNormal(office: IpNet)
    requires office.length > 0
    ensures IsNormal(RouteThrough(office))
  {
    EmptyIsNormal();
    hide DnsOk, NormalDns;
    NormalFormFixed(RouteThrough(office));
  }
}
