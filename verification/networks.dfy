/** IP addresses and CIDR networks (section 3.1 of RFC 4632, section 2.3 of RFC 4291).
    An address is a family and its 32 or 128 bits, most significant first, so that
    containment in a network is agreement on the first `prefix` bits. */
module Networks {
  datatype Family = V4 | V6

  function Width(family: Family): nat {
    if family.V4? then 32 else 128
  }

  datatype Address = Address(family: Family, bits: seq<bool>)

  type IpAddr = a: Address | |a.bits| == Width(a.family)
    witness Address(V4, seq(32, _ => false))

  datatype Network = Network(addr: IpAddr, prefix: nat)

  /** A network keeps the address it was written with; its host bits need not be zero. */
  type IpNet = n: Network | n.prefix <= Width(n.addr.family)
    witness Network(Address(V4, seq(32, _ => false)), 0)

  predicate Contains(net: IpNet, ip: IpAddr) {
    net.addr.family == ip.family && net.addr.bits[..net.prefix] == ip.bits[..net.prefix]
  }

  function HostNetwork(ip: IpAddr): IpNet {
    Network(ip, Width(ip.family))
  }

  predicate IsHostNetwork(net: IpNet) {
    net.prefix == Width(net.addr.family)
  }

  /** The address with every bit after the first `prefix` cleared. */
  function Truncated(ip: IpAddr, prefix: nat): (r: IpAddr)
    requires prefix <= Width(ip.family)
    ensures r.family == ip.family && r.bits[..prefix] == ip.bits[..prefix]
    ensures forall k | prefix <= k < |r.bits| :: !r.bits[k]
  {
    Address(ip.family, ip.bits[..prefix] + seq(Width(ip.family) - prefix, _ => false))
  }

  /** The network an address falls in at a prefix length. */
  function NetworkAt(ip: IpAddr, prefix: nat): IpNet
    requires prefix <= Width(ip.family)
  {
    Network(Truncated(ip, prefix), prefix)
  }

  function Canonical(net: IpNet): IpNet {
    NetworkAt(net.addr, net.prefix)
  }

  /** `network_covers` and `is_network_covered`: same family, no longer a prefix, and the
      inner network's address lies inside. */
  predicate Covers(outer: IpNet, inner: IpNet) {
    outer.addr.family == inner.addr.family && outer.prefix <= inner.prefix && Contains(outer, inner.addr)
  }

  predicate Overlap(left: IpNet, right: IpNet) {
    Contains(left, right.addr) || Contains(right, left.addr)
  }

  lemma NetworkAtContains(ip: IpAddr, other: IpAddr, prefix: nat)
    requires prefix <= Width(ip.family)
    requires ip.family == other.family
    ensures Contains(NetworkAt(ip, prefix), other) <==> NetworkAt(ip, prefix) == NetworkAt(other, prefix)
  {
    assert NetworkAt(ip, prefix).addr.bits[..prefix] == ip.bits[..prefix];
    assert NetworkAt(other, prefix).addr.bits[..prefix] == other.bits[..prefix];
  }

  /** Two spellings of one network contain the same addresses. */
  lemma CanonicalContains(net: IpNet, ip: IpAddr)
    ensures Contains(Canonical(net), ip) <==> Contains(net, ip)
  {
  }

  lemma HostContains(ip: IpAddr, other: IpAddr)
    ensures Contains(HostNetwork(ip), other) <==> ip == other
  {
    assert ip.bits[..|ip.bits|] == ip.bits && other.bits[..|other.bits|] == other.bits;
  }

  lemma PrefixOfPrefix(a: seq<bool>, b: seq<bool>, short: nat, long: nat)
    requires short <= long <= |a| && long <= |b|
    requires a[..long] == b[..long]
    ensures a[..short] == b[..short]
  {
    assert a[..short] == a[..long][..short];
    assert b[..short] == b[..long][..short];
  }

  lemma CoversContains(outer: IpNet, inner: IpNet, ip: IpAddr)
    requires Covers(outer, inner) && Contains(inner, ip)
    ensures Contains(outer, ip)
  {
    PrefixOfPrefix(inner.addr.bits, ip.bits, outer.prefix, inner.prefix);
  }

  /** Networks that share an address are nested: the shorter prefix covers the longer. */
  lemma SharedAddressNests(short: IpNet, long: IpNet, ip: IpAddr)
    requires Contains(short, ip) && Contains(long, ip) && short.prefix <= long.prefix
    ensures Covers(short, long)
  {
    PrefixOfPrefix(long.addr.bits, ip.bits, short.prefix, long.prefix);
  }

  /** `network_covers` decides inclusion of address sets, in both directions. */
  lemma CoversIsInclusion(outer: IpNet, inner: IpNet)
    ensures Covers(outer, inner) <==> forall ip: IpAddr | Contains(inner, ip) :: Contains(outer, ip)
  {
    if Covers(outer, inner) {
      forall ip: IpAddr | Contains(inner, ip) ensures Contains(outer, ip) {
        CoversContains(outer, inner, ip);
      }
    } else {
      assert Contains(inner, inner.addr);
      if Contains(outer, inner.addr) {
        // The outer prefix is longer: flip the first bit the inner network leaves free.
        var k := inner.prefix;
        var bits := inner.addr.bits;
        var flipped: IpAddr := Address(inner.addr.family, bits[k := !bits[k]]);
        assert flipped.bits[..k] == bits[..k];
        assert Contains(inner, flipped);
        assert outer.addr.bits[..outer.prefix][k] == bits[..outer.prefix][k];
        assert flipped.bits[..outer.prefix][k] != outer.addr.bits[..outer.prefix][k];
        assert !Contains(outer, flipped);
      }
    }
  }

  /** `networks_overlap` decides whether two networks share an address. */
  lemma OverlapIsIntersection(left: IpNet, right: IpNet)
    ensures Overlap(left, right) <==> exists ip: IpAddr :: Contains(left, ip) && Contains(right, ip)
  {
    assert Contains(left, left.addr) && Contains(right, right.addr);
    if ip: IpAddr :| Contains(left, ip) && Contains(right, ip) {
      if left.prefix <= right.prefix {
        SharedAddressNests(left, right, ip);
      } else {
        SharedAddressNests(right, left, ip);
      }
    }
  }
}
