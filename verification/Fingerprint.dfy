/** The bytes a connection's identity is the hash of. SHA-256 itself is not part
    of this model: what is proved is that the bytes determine the configuration. */
module Fingerprint {
  import opened Prelude
  import opened Cidr
  import opened ConfParser

  type Bytes = seq<Byte>

  // ---- UTF-8 ---------------------------------------------------------------------

  function Utf8Char(c: char): Bytes {
    var n := c as int;
    if n < 0x80 then [n]
    else if n < 0x800 then [0xC0 + n / 64, 0x80 + n % 64]
    else if n < 0x10000 then [0xE0 + n / 4096, 0x80 + n / 64 % 64, 0x80 + n % 64]
    else [0xF0 + n / 262144, 0x80 + n / 4096 % 64, 0x80 + n / 64 % 64, 0x80 + n % 64]
  }

  function Utf8(s: string): Bytes {
    if s == [] then [] else Utf8(s[..|s| - 1]) + Utf8Char(s[|s| - 1])
  }

  // ---- the encoders -----------------------------------------------------------------

  const WRAP := 0x1_0000_0000

  /** `push_u32` after the `as u32` cast: little endian, truncated. */
  function U32(n: nat): Bytes {
    [n % 256, n / 256 % 256, n / 65536 % 256, n / 16777216 % 256]
  }

  function U16(n: nat): Bytes { [n % 256, n / 256 % 256] }

  function OptionU16(v: Option<nat>): Bytes { if v.Some? then [1] + U16(v.value) else [0] }

  function Sized(bytes: Bytes): Bytes { U32(|bytes|) + bytes }

  function OptionSized(bytes: Option<Bytes>): Bytes { if bytes.Some? then [1] + Sized(bytes.value) else [0] }

  function BitsValue(bits: Bits): nat {
    if bits == [] then 0 else 2 * BitsValue(bits[..|bits| - 1]) + if bits[|bits| - 1] then 1 else 0
  }

  lemma {:induction false} EightBits(bits: Bits)
    requires |bits| == 8
    ensures BitsValue(bits) < 256
  {
    assert forall k :: 0 < k <= 8 ==> bits[..k][..k - 1] == bits[..k - 1];
    assert bits[..8] == bits;
    assert BitsValue(bits[..0]) == 0;
    assert BitsValue(bits[..1]) <= 1;
    assert BitsValue(bits[..2]) <= 3;
    assert BitsValue(bits[..3]) <= 7;
    assert BitsValue(bits[..4]) <= 15;
    assert BitsValue(bits[..5]) <= 31;
    assert BitsValue(bits[..6]) <= 63;
    assert BitsValue(bits[..7]) <= 127;
  }

  function Octet(bits: Bits, i: nat): Byte
    requires 8 * i + 8 <= |bits|
  {
    EightBits(bits[8 * i..8 * i + 8]);
    BitsValue(bits[8 * i..8 * i + 8])
  }

  function Octets(ip: IpAddr): Bytes {
    seq(Width(ip.family) / 8, i requires 0 <= i < Width(ip.family) / 8 => Octet(ip.bits, i))
  }

  function IpBytes(ip: IpAddr): Bytes {
    [match ip.family case V4 => 4 case V6 => 6] + Octets(ip)
  }

  /** The address as written, host bits and all, and the prefix length. */
  function NetBytes(net: Net): Bytes { IpBytes(net.ip) + [net.prefix] }

  function Concat<T>(f: T -> Bytes, xs: seq<T>): Bytes {
    if xs == [] then [] else Concat(f, xs[..|xs| - 1]) + f(xs[|xs| - 1])
  }

  function Counted<T>(f: T -> Bytes, xs: seq<T>): Bytes { U32(|xs|) + Concat(f, xs) }

  function StringBytes(s: string): Bytes { Sized(Utf8(s)) }

  function PeerBytes(p: Peer): Bytes {
    Sized(p.publicKey)
    + OptionSized(p.presharedKey)
    + Counted(NetBytes, p.allowedIps)
    + OptionSized(if p.endpointLiteral.Some? then Some(Utf8(p.endpointLiteral.value)) else None)
    + OptionU16(p.keepalive)
  }

  const TAG := Utf8("wgd-connfp-v1")

  /** What `fingerprint` hashes. */
  function Encode(c: Config): Bytes {
    TAG
    + Sized(c.privateKey)
    + Counted(NetBytes, c.addresses)
    + Counted(IpBytes, c.dnsServers)
    + OptionU16(c.mtu)
    + Counted(StringBytes, c.preUp)
    + Counted(StringBytes, c.postUp)
    + Counted(StringBytes, c.preDown)
    + Counted(StringBytes, c.postDown)
    + Counted(PeerBytes, c.peers)
  }

  // ---- the buffer ------------------------------------------------------------------------

  lemma Assoc(a: Bytes, b: Bytes, c: Bytes)
    ensures a + b + c == a + (b + c)
  {
  }

  lemma ConcatSnoc<T>(f: T -> Bytes, xs: seq<T>, i: nat)
    requires i < |xs|
    ensures Concat(f, xs[..i + 1]) == Concat(f, xs[..i]) + f(xs[i])
  {
    assert xs[..i + 1][..i] == xs[..i];
  }

  /** The growing byte vector and the `push_*` functions on it. */
  class Buffer {
    var bytes: Bytes

    constructor ()
      ensures bytes == []
    {
      bytes := [];
    }

    method Push(b: Byte)
      modifies this
      ensures bytes == old(bytes) + [b]
    {
      bytes := bytes + [b];
    }

    method Extend(more: Bytes)
      modifies this
      ensures bytes == old(bytes) + more
    {
      bytes := bytes + more;
    }

    method PushOptionU16(v: Option<nat>)
      modifies this
      ensures bytes == old(bytes) + OptionU16(v)
    {
      match v {
        case Some(n) =>
          Push(1);
          Extend(U16(n));
        case None =>
          Push(0);
      }
    }

    method PushBytes(b: Bytes)
      modifies this
      ensures bytes == old(bytes) + Sized(b)
    {
      Extend(U32(|b|));
      Extend(b);
    }

    method PushOptionBytes(b: Option<Bytes>)
      modifies this
      ensures bytes == old(bytes) + OptionSized(b)
    {
      match b {
        case Some(v) =>
          Push(1);
          PushBytes(v);
          Assoc(old(bytes), [1], Sized(v));
        case None =>
          Push(0);
      }
    }

    method PushIp(ip: IpAddr)
      modifies this
      ensures bytes == old(bytes) + IpBytes(ip)
    {
      match ip.family {
        case V4 => Push(4);
        case V6 => Push(6);
      }
      Extend(Octets(ip));
    }

    method PushIps(ips: seq<IpAddr>)
      modifies this
      ensures bytes == old(bytes) + Counted(IpBytes, ips)
    {
      Extend(U32(|ips|));
      for i := 0 to |ips|
        invariant bytes == old(bytes) + U32(|ips|) + Concat(IpBytes, ips[..i])
      {
        PushIp(ips[i]);
        ConcatSnoc(IpBytes, ips, i);
        Assoc(old(bytes) + U32(|ips|), Concat(IpBytes, ips[..i]), IpBytes(ips[i]));
      }
      assert ips[..|ips|] == ips;
      Assoc(old(bytes), U32(|ips|), Concat(IpBytes, ips));
    }

    method PushIpnets(nets: seq<Net>)
      modifies this
      ensures bytes == old(bytes) + Counted(NetBytes, nets)
    {
      Extend(U32(|nets|));
      for i := 0 to |nets|
        invariant bytes == old(bytes) + U32(|nets|) + Concat(NetBytes, nets[..i])
      {
        ghost var before := bytes;
        PushIp(nets[i].ip);
        Push(nets[i].prefix);
        Assoc(before, IpBytes(nets[i].ip), [nets[i].prefix]);
        ConcatSnoc(NetBytes, nets, i);
        Assoc(old(bytes) + U32(|nets|), Concat(NetBytes, nets[..i]), NetBytes(nets[i]));
      }
      assert nets[..|nets|] == nets;
      Assoc(old(bytes), U32(|nets|), Concat(NetBytes, nets));
    }

    method PushStrings(values: seq<string>)
      modifies this
      ensures bytes == old(bytes) + Counted(StringBytes, values)
    {
      Extend(U32(|values|));
      for i := 0 to |values|
        invariant bytes == old(bytes) + U32(|values|) + Concat(StringBytes, values[..i])
      {
        PushBytes(Utf8(values[i]));
        ConcatSnoc(StringBytes, values, i);
        Assoc(old(bytes) + U32(|values|), Concat(StringBytes, values[..i]), StringBytes(values[i]));
      }
      assert values[..|values|] == values;
      Assoc(old(bytes), U32(|values|), Concat(StringBytes, values));
    }

    method PushPeer(p: Peer)
      modifies this
      ensures bytes == old(bytes) + PeerBytes(p)
    {
      ghost var was := bytes;
      PushBytes(p.publicKey);
      ghost var a := Sized(p.publicKey);
      PushOptionBytes(p.presharedKey);
      Assoc(was, a, OptionSized(p.presharedKey));
      a := a + OptionSized(p.presharedKey);
      PushIpnets(p.allowedIps);
      Assoc(was, a, Counted(NetBytes, p.allowedIps));
      a := a + Counted(NetBytes, p.allowedIps);
      var literal := if p.endpointLiteral.Some? then Some(Utf8(p.endpointLiteral.value)) else None;
      PushOptionBytes(literal);
      Assoc(was, a, OptionSized(literal));
      a := a + OptionSized(literal);
      PushOptionU16(p.keepalive);
      Assoc(was, a, OptionU16(p.keepalive));
    }

    method PushPeers(peers: seq<Peer>)
      modifies this
      ensures bytes == old(bytes) + Counted(PeerBytes, peers)
    {
      Extend(U32(|peers|));
      for i := 0 to |peers|
        invariant bytes == old(bytes) + U32(|peers|) + Concat(PeerBytes, peers[..i])
      {
        PushPeer(peers[i]);
        ConcatSnoc(PeerBytes, peers, i);
        Assoc(old(bytes) + U32(|peers|), Concat(PeerBytes, peers[..i]), PeerBytes(peers[i]));
      }
      assert peers[..|peers|] == peers;
      Assoc(old(bytes), U32(|peers|), Concat(PeerBytes, peers));
    }
  }

  /** `fingerprint` up to the digest. */
  method FingerprintBytes(c: Config) returns (bytes: Bytes)
    ensures bytes == Encode(c)
  {
    hide Sized, OptionU16, Counted;
    var buf := new Buffer();
    buf.Extend(TAG);
    assert buf.bytes == TAG;
    buf.PushBytes(c.privateKey);
    buf.PushIpnets(c.addresses);
    buf.PushIps(c.dnsServers);
    buf.PushOptionU16(c.mtu);
    buf.PushStrings(c.preUp);
    buf.PushStrings(c.postUp);
    buf.PushStrings(c.preDown);
    buf.PushStrings(c.postDown);
    buf.PushPeers(c.peers);
    bytes := buf.bytes;
  }
}
