/** Addresses, prefixes and the text that names them. */
module Cidr {
  import opened Wrappers
  import opened Words

  datatype Family = V4 | V6

  function Width(f: Family): nat {
    match f case V4 => 32 case V6 => 128
  }

  datatype RawAddr = IpAddr(family: Family, bits: nat)

  type IpAddr = a: RawAddr | a.bits < Pow2(Width(a.family)) witness IpAddr(V4, 0)

  datatype RawNet = IpNet(family: Family, bits: nat, length: nat)

  /** An address with a prefix length.  Host bits are kept as written. */
  type IpNet = n: RawNet | n.bits < Pow2(Width(n.family)) && n.length <= Width(n.family)
    witness IpNet(V4, 0, 0)

  /** The number of addresses of a network. */
  function Block(n: IpNet): (r: nat)
    ensures r >= 1
  {
    Pow2(Width(n.family) - n.length)
  }

  function ClearLow(bits: nat, block: nat): (r: nat)
    requires block >= 1
    ensures r == bits - bits % block
  {
    bits - bits % block
  }

  /** The first address of the network: host bits cleared. */
  function Network(n: IpNet): nat {
    ClearLow(n.bits, Block(n))
  }

  /** The last address of the network: host bits set. */
  function Broadcast(n: IpNet): nat {
    Network(n) + Block(n) - 1
  }

  predicate Contains(n: IpNet, a: IpAddr) {
    n.family == a.family && Network(n) <= a.bits <= Broadcast(n)
  }

  predicate NetCovers(allowed: IpNet, target: IpNet) {
    && allowed.family == target.family
    && allowed.length <= target.length
    && Network(allowed) <= Network(target) <= Broadcast(allowed)
  }

  /** Membership bit by bit: an address is in a network exactly when, host bits aside, it is the
      network's address. */
  lemma ContainsIsPrefixMatch(n: IpNet, a: IpAddr)
    ensures Contains(n, a) <==> n.family == a.family && a.bits / Block(n) == n.bits / Block(n)
  {
    hide Block;
    SameBlock(n.bits, a.bits, Block(n));
  }

  lemma SameBlock(x: nat, y: nat, p: nat)
    requires p >= 1
    ensures ClearLow(x, p) <= y <= ClearLow(x, p) + p - 1 <==> y / p == x / p
  {
    var (q, r) := (x / p, y / p);
    assert x == p * q + x % p;
    assert y == p * r + y % p;
    QuotientSame(p, q, r, y);
  }

  /** A number lies in the block of `q` exactly when its quotient is `q`. */
  lemma QuotientSame(p: nat, q: nat, r: nat, x: nat)
    requires p >= 1 && p * r <= x < p * r + p
    ensures p * q <= x < p * q + p <==> q == r
  {
    if q < r {
      MulMonotone(p, q + 1, r);
      assert p * (q + 1) == p * q + p;
    } else if q > r {
      MulMonotone(p, r + 1, q);
      assert p * (r + 1) == p * r + p;
    }
  }

  /** A network is an aligned block of the address space, whole and inside it. */
  lemma NetworkAligned(n: IpNet)
    ensures Network(n) % Block(n) == 0
    ensures Pow2(Width(n.family)) == Block(n) * Pow2(n.length)
    ensures Broadcast(n) < Pow2(Width(n.family))
  {
    Pow2Add(Width(n.family) - n.length, n.length);
    AlignDown(n.bits, Block(n), Pow2(n.length));
  }

  lemma AlignDown(bits: nat, p: nat, m: nat)
    requires p >= 1 && bits < p * m
    ensures var start := bits - bits % p;
            start % p == 0 && start + p <= p * m
  {
    var q := bits / p;
    assert bits == p * q + bits % p;
    RemainderOf(p, q, 0);
    QuotientBound(p, q, bits, m);
  }

  lemma QuotientBound(p: nat, q: nat, n: nat, m: nat)
    requires p * q <= n < p * m
    ensures p * q + p <= p * m
  {
    if q >= m {
      MulMonotone(p, m, q);
      assert false;
    }
    MulMonotone(p, q + 1, m);
  }

  lemma MulMonotone(p: nat, a: nat, b: nat)
    requires a <= b
    ensures p * a <= p * b
  {
  }

  /** Block `j` of size `small` meets block `i` of size `small * k`: it lies inside it. */
  lemma BlocksNest(small: nat, k: nat, i: nat, j: nat)
    requires small * (k * i) < small * (j + 1) && small * j < small * (k * i + k)
    ensures small * (k * i) <= small * j && small * (j + 1) <= small * (k * i + k)
  {
    Cancel(small, k * i, j + 1);
    Cancel(small, j, k * i + k);
    MulMonotone(small, k * i, j);
    MulMonotone(small, j + 1, k * i + k);
  }

  /** Two aligned blocks, the small one's size dividing the large one's, that overlap. */
  lemma AlignedBlocksNest(large: nat, small: nat, k: nat, a: nat, b: nat)
    requires large >= 1 && small >= 1 && large == small * k
    requires a % large == 0 && b % small == 0
    requires a < b + small && b < a + large
    ensures a <= b && b + small <= a + large
  {
    var i, j := a / large, b / small;
    assert a == large * i && b == small * j;
    Regroup(small, k, i);
    assert small * (j + 1) == b + small;
    BlocksNest(small, k, i, j);
  }

  lemma Regroup(small: nat, k: nat, i: nat)
    ensures (small * k) * i == small * (k * i)
    ensures small * (k * i + k) == small * (k * i) + small * k
  {
  }

  lemma Cancel(p: nat, a: nat, b: nat)
    requires p * a < p * b
    ensures a < b
  {
    if b <= a {
      MulMonotone(p, b, a);
      assert false;
    }
  }

  /** Two networks of one family that share an address are nested, the longer prefix inside. */
  lemma SharedAddressNests(a: IpNet, t: IpNet, x: IpAddr)
    requires Contains(a, x) && Contains(t, x) && a.length <= t.length
    ensures Network(a) <= Network(t) && Broadcast(t) <= Broadcast(a)
    ensures NetCovers(a, t)
  {
    NetworkAligned(a);
    NetworkAligned(t);
    Pow2Add(Width(t.family) - t.length, t.length - a.length);
    AlignedBlocksNest(Block(a), Block(t), Pow2(t.length - a.length), Network(a), Network(t));
  }

  function FirstAddress(n: IpNet): (r: IpAddr)
    ensures Contains(n, r) && r.bits == Network(n)
  {
    NetworkAligned(n);
    IpAddr(n.family, Network(n))
  }

  function LastAddress(n: IpNet): (r: IpAddr)
    ensures Contains(n, r) && r.bits == Broadcast(n)
  {
    NetworkAligned(n);
    IpAddr(n.family, Broadcast(n))
  }

  /** The covering test means set inclusion. */
  lemma CoversIffSubset(a: IpNet, t: IpNet)
    ensures NetCovers(a, t) <==> forall x: IpAddr :: Contains(t, x) ==> Contains(a, x)
  {
    if NetCovers(a, t) {
      SharedAddressNests(a, t, FirstAddress(t));
    }
    if forall x: IpAddr :: Contains(t, x) ==> Contains(a, x) {
      var first, last := FirstAddress(t), LastAddress(t);
      assert Contains(a, first) && Contains(a, last);
      if t.length < a.length {
        Pow2Monotone(Width(a.family) - a.length, Width(t.family) - t.length);
        assert false;
      }
    }
  }

  /** Two networks that share an address: one contains the other. */
  lemma SharedAddressCovers(a: IpNet, t: IpNet, x: IpAddr)
    requires Contains(a, x) && Contains(t, x)
    ensures NetCovers(a, t) || NetCovers(t, a)
  {
    if a.length <= t.length {
      SharedAddressNests(a, t, x);
    } else {
      SharedAddressNests(t, a, x);
    }
  }

  /** The text of a prefix, as far as the program can tell texts apart: a text that parses,
      with a number for its spelling, or one that does not.  Spelling 0 is what `to_string`
      prints.  Printing keeps host bits, so it is one-to-one on prefixes. */
  datatype PrefixText = Spelled(net: IpNet, spelling: nat) | Unparsable(tag: nat)

  function Parse(text: PrefixText): Option<IpNet> {
    match text
    case Spelled(net, _) => Some(net)
    case Unparsable(_) => None
  }

  function Print(net: IpNet): PrefixText {
    Spelled(net, 0)
  }

  predicate PrefixCovers(allowed: PrefixText, target: PrefixText) {
    && Parse(allowed).Some? && Parse(target).Some?
    && NetCovers(Parse(allowed).value, Parse(target).value)
  }

  /** A fixed total order on texts, standing for the order of the strings. */
  predicate TextLe(a: PrefixText, b: PrefixText) {
    match (a, b)
    case (Unparsable(m), Unparsable(n)) => m <= n
    case (Unparsable(_), Spelled(_, _)) => false
    case (Spelled(_, _), Unparsable(_)) => true
    case (Spelled(m, i), Spelled(n, j)) =>
      if m.family != n.family then m.family.V4?
      else if m.bits != n.bits then m.bits < n.bits
      else if m.length != n.length then m.length < n.length
      else i <= j
  }

  predicate AddrLe(a: IpAddr, b: IpAddr) {
    if a.family != b.family then a.family.V4? else a.bits <= b.bits
  }
}
