/** Addresses, masks and CIDR blocks (sections 3.1 and 5.1 of RFC 4632), as the
    userspace helper computes with them.

    An address is the sequence of its bits, most significant first: the masks
    and shifts of the source are then bitwise operations, and a block is the
    set of addresses that share a prefix. */
module Cidr {

  datatype Family = V4 | V6

  function Width(f: Family): nat {
    match f
    case V4 => 32
    case V6 => 128
  }

  type Bits = seq<bool>

  datatype RawIp = Ip(family: Family, bits: Bits)

  type IpAddr = a: RawIp | |a.bits| == Width(a.family)
    witness Ip(V4, seq(32, _ => false))

  datatype RawNet = Net(ip: IpAddr, prefix: nat)

  type Net = n: RawNet | n.prefix <= Width(n.ip.family)
    witness Net(Ip(V4, seq(32, _ => false)), 0)

  // ---- bit operations -------------------------------------------------------

  function Zeros(n: nat): Bits { seq(n, _ => false) }

  function Ones(n: nat): Bits { seq(n, _ => true) }

  function And(a: Bits, b: Bits): Bits
    requires |a| == |b|
  {
    seq(|a|, i requires 0 <= i < |a| => a[i] && b[i])
  }

  function ShiftLeft(a: Bits, k: nat): Bits
    requires k <= |a|
  {
    a[k..] + Zeros(k)
  }

  function CountOnes(a: Bits): nat {
    if a == [] then 0 else (if a[0] then 1 else 0) + CountOnes(a[1..])
  }

  /** The netmask of a prefix length. */
  function Mask(f: Family, prefix: nat): Bits
    requires prefix <= Width(f)
  {
    ShiftLeft(Ones(Width(f)), Width(f) - prefix)
  }

  /** `macos_network_base`. */
  function NetworkBase(ip: IpAddr, prefix: nat): IpAddr {
    var w := Width(ip.family);
    var masked :=
      if prefix == 0 then Zeros(w)
      else if prefix >= w then ip.bits
      else And(ip.bits, ShiftLeft(Ones(w), w - prefix));
    Ip(ip.family, masked)
  }

  /** `macos_subnet_contains`. */
  predicate SubnetContains(local: Net, route: Net) {
    if route.prefix < local.prefix then false
    else local.ip.family == route.ip.family
         && NetworkBase(route.ip, local.prefix) == NetworkBase(local.ip, local.prefix)
  }

  /** The comparison at the heart of `macos_allowed_ips_cover_endpoint`. */
  predicate EndpointCoverTest(net: Net, endpoint: IpAddr) {
    net.ip.family == endpoint.family
    && NetworkBase(endpoint, net.prefix) == NetworkBase(net.ip, net.prefix)
  }

  /** The network a written CIDR denotes: its base with the same length. This
      is what a routing table is indexed by. */
  function Key(n: Net): Net {
    Net(NetworkBase(n.ip, n.prefix), n.prefix)
  }

  function HostNet(ip: IpAddr): Net {
    Net(ip, Width(ip.family))
  }

  // ---- meaning ---------------------------------------------------------------

  /** Address `a` belongs to the block written `n`. */
  predicate Covers(n: Net, a: IpAddr) {
    n.ip.family == a.family && a.bits[..n.prefix] == n.ip.bits[..n.prefix]
  }

  /** Masking keeps the first `prefix` bits and clears the rest. */
  lemma BaseIsPrefixThenZeros(ip: IpAddr, prefix: nat)
    requires prefix <= Width(ip.family)
    ensures NetworkBase(ip, prefix).bits == ip.bits[..prefix] + Zeros(Width(ip.family) - prefix)
  {
  }

  /** Two addresses have the same base exactly when they agree on the prefix. */
  lemma SameBase(a: IpAddr, b: IpAddr, prefix: nat)
    requires a.family == b.family && prefix <= Width(a.family)
    ensures NetworkBase(a, prefix) == NetworkBase(b, prefix) <==> a.bits[..prefix] == b.bits[..prefix]
  {
    BaseIsPrefixThenZeros(a, prefix);
    BaseIsPrefixThenZeros(b, prefix);
    var x, y := NetworkBase(a, prefix).bits, NetworkBase(b, prefix).bits;
    assert x[..prefix] == a.bits[..prefix] && y[..prefix] == b.bits[..prefix];
  }

  /** Masking twice is masking once by the shorter of the two lengths; with
      equal lengths this is idempotence. */
  lemma BaseComposes(ip: IpAddr, p: nat, q: nat)
    requires p <= Width(ip.family) && q <= Width(ip.family)
    ensures NetworkBase(NetworkBase(ip, p), q) == NetworkBase(ip, if p <= q then p else q)
  {
    var w := Width(ip.family);
    BaseIsPrefixThenZeros(ip, p);
    BaseIsPrefixThenZeros(NetworkBase(ip, p), q);
    BaseIsPrefixThenZeros(ip, if p <= q then p else q);
    if p <= q {
      assert (ip.bits[..p] + Zeros(w - p))[..q] + Zeros(w - q) == ip.bits[..p] + Zeros(w - p);
    } else {
      assert (ip.bits[..p] + Zeros(w - p))[..q] == ip.bits[..q];
    }
  }

  /** Counting the ones of a netmask returns the prefix length it came from. */
  lemma {:induction false} CountOnesOfMask(f: Family, prefix: nat)
    requires prefix <= Width(f)
    ensures CountOnes(Mask(f, prefix)) == prefix
  {
    assert Mask(f, prefix) == Ones(prefix) + Zeros(Width(f) - prefix);
    CountOnesThenZeros(prefix, Width(f) - prefix);
  }

  lemma {:induction false} CountOnesThenZeros(n: nat, z: nat)
    ensures CountOnes(Ones(n) + Zeros(z)) == n
    decreases n, z
  {
    var s := Ones(n) + Zeros(z);
    if n > 0 {
      assert s[1..] == Ones(n - 1) + Zeros(z);
      CountOnesThenZeros(n - 1, z);
    } else if z > 0 {
      assert s[1..] == Ones(0) + Zeros(z - 1);
      CountOnesThenZeros(0, z - 1);
    }
  }

  /** `EndpointCoverTest` decides membership. */
  lemma CoverTestIsMembership(n: Net, a: IpAddr)
    ensures EndpointCoverTest(n, a) <==> Covers(n, a)
  {
    if n.ip.family == a.family {
      SameBase(a, n.ip, n.prefix);
    }
  }

  /** `SubnetContains` decides inclusion of blocks. */
  lemma ContainsIsInclusion(l: Net, r: Net)
    ensures SubnetContains(l, r) <==> forall a: IpAddr :: Covers(r, a) ==> Covers(l, a)
  {
    if l.ip.family == r.ip.family {
      SameBase(r.ip, l.ip, l.prefix);
    }
    if SubnetContains(l, r) {
      forall a: IpAddr | Covers(r, a)
        ensures Covers(l, a)
      {
        assert a.bits[..l.prefix] == a.bits[..r.prefix][..l.prefix];
        assert r.ip.bits[..l.prefix] == r.ip.bits[..r.prefix][..l.prefix];
      }
    } else if l.ip.family == r.ip.family && r.prefix < l.prefix {
      // `r` is the wider block: flip the first bit it leaves free.
      var other: IpAddr := Ip(r.ip.family, r.ip.bits[r.prefix := !r.ip.bits[r.prefix]]);
      assert Covers(r, other) && Covers(r, r.ip);
      assert other.bits[..l.prefix][r.prefix] != r.ip.bits[..l.prefix][r.prefix];
      assert !Covers(l, other) || !Covers(l, r.ip);
    } else {
      assert Covers(r, r.ip) && !Covers(l, r.ip);
    }
  }

  /** CIDR blocks are nested or disjoint: of two blocks that share an address
      the longer one is contained in the shorter one. */
  lemma NestedOrDisjoint(l: Net, r: Net, a: IpAddr)
    requires Covers(l, a) && Covers(r, a) && l.prefix <= r.prefix
    ensures SubnetContains(l, r)
  {
    assert a.bits[..l.prefix] == a.bits[..r.prefix][..l.prefix];
    assert r.ip.bits[..l.prefix] == r.ip.bits[..r.prefix][..l.prefix];
    SameBase(r.ip, l.ip, l.prefix);
  }

  /** Writing a block with other host bits does not change it. */
  lemma KeyCovers(n: Net, a: IpAddr)
    ensures Covers(Key(n), a) <==> Covers(n, a)
  {
    BaseIsPrefixThenZeros(n.ip, n.prefix);
    assert Key(n).ip.bits[..n.prefix] == n.ip.bits[..n.prefix];
  }

  lemma HostNetIsItsKey(ip: IpAddr)
    ensures Key(HostNet(ip)) == HostNet(ip)
    ensures forall a: IpAddr :: Covers(HostNet(ip), a) <==> a == ip
  {
    forall a: IpAddr
      ensures Covers(HostNet(ip), a) <==> a == ip
    {
      if a.family == ip.family {
        assert a.bits[..Width(ip.family)] == a.bits && ip.bits[..Width(ip.family)] == ip.bits;
      }
    }
  }

  /** The keys of two blocks coincide exactly when the blocks contain each other. */
  lemma SameKeyIsMutualContainment(l: Net, r: Net)
    ensures Key(l) == Key(r) <==> SubnetContains(l, r) && SubnetContains(r, l)
  {
    if l.ip.family == r.ip.family {
      SameBase(l.ip, r.ip, l.prefix);
      SameBase(r.ip, l.ip, r.prefix);
    }
  }

  function LowHalf(f: Family): Net { Net(Ip(f, Zeros(Width(f))), 1) }

  function HighHalf(f: Family): Net { Net(Ip(f, [true] + Zeros(Width(f) - 1)), 1) }

  function Everything(f: Family): Net { Net(Ip(f, Zeros(Width(f))), 0) }

  /** The two half-space routes that stand for a default route cover every
      address of the family, each exactly once, and nothing else. */
  lemma HalvesPartition(f: Family, a: IpAddr)
    ensures Covers(LowHalf(f), a) || Covers(HighHalf(f), a) <==> Covers(Everything(f), a)
    ensures !(Covers(LowHalf(f), a) && Covers(HighHalf(f), a))
  {
    if a.family == f {
      assert a.bits[..1] == [a.bits[0]];
      assert LowHalf(f).ip.bits[..1] == [false];
      assert HighHalf(f).ip.bits[..1] == [true];
      assert Covers(LowHalf(f), a) <==> a.bits[..1][0] == false;
      assert Covers(HighHalf(f), a) <==> a.bits[..1][0] == true;
      assert a.bits[..0] == Everything(f).ip.bits[..0] == [];
    }
  }
}
