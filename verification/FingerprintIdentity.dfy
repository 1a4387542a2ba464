/** The identity bytes are uniquely decodable, and name resolution never reaches
    them. */
module FingerprintIdentity {
  import opened Prelude
  import opened Cidr
  import opened ConfParser
  import opened Fingerprint
  import Text

  /** Neither encoding is a proper prefix of the other. */
  predicate Apart(x: Bytes, y: Bytes) { x <= y || y <= x ==> x == y }

  lemma Split(x: Bytes, s: Bytes, y: Bytes, t: Bytes)
    requires Apart(x, y) && x + s == y + t
    ensures x == y && s == t
  {
    var n := if |x| <= |y| then |x| else |y|;
    assert x[..n] == (x + s)[..n] == (y + t)[..n] == y[..n];
    assert s == (x + s)[|x|..] && t == (y + t)[|y|..];
  }

  /** Two fields in a row. */
  lemma Both(x: Bytes, x': Bytes, y: Bytes, y': Bytes)
    requires Apart(x, y) && (x == y ==> Apart(x', y'))
    ensures Apart(x + x', y + y')
    ensures x + x' == y + y' ==> x == y && x' == y'
  {
    if x + x' <= y + y' {
      var s := (y + y')[|x + x'|..];
      assert x + (x' + s) == y + y';
      Split(x, x' + s, y, y');
    } else if y + y' <= x + x' {
      var s := (x + x')[|y + y'|..];
      assert y + (y' + s) == x + x';
      Split(y, y' + s, x, x');
    }
  }

  // ---- numbers -------------------------------------------------------------------------

  lemma U32Injective(m: nat, n: nat)
    requires m < WRAP && n < WRAP
    ensures Apart(U32(m), U32(n)) && (U32(m) == U32(n) ==> m == n)
  {
    Digits(m);
    Digits(n);
    var x, y := U32(m), U32(n);
    if x == y { assert x[0] == y[0] && x[1] == y[1] && x[2] == y[2] && x[3] == y[3]; }
  }

  lemma Digits(n: nat)
    requires n < WRAP
    ensures n == n % 256 + 256 * (n / 256 % 256) + 65536 * (n / 65536 % 256) + 16777216 * (n / 16777216 % 256)
  {
  }

  lemma OptionU16Injective(u: Option<nat>, v: Option<nat>)
    requires (u.Some? ==> u.value < 0x10000) && (v.Some? ==> v.value < 0x10000)
    ensures Apart(OptionU16(u), OptionU16(v)) && (OptionU16(u) == OptionU16(v) ==> u == v)
  {
    var x, y := OptionU16(u), OptionU16(v);
    assert x[0] == y[0] ==> |x| == |y|;
    if u.Some? && v.Some? && x == y { assert x[1] == y[1] && x[2] == y[2]; }
  }

  // ---- byte strings ---------------------------------------------------------------------

  predicate Short(b: Bytes) { |b| < WRAP }

  lemma SizedInjective(a: Bytes, b: Bytes)
    requires Short(a) && Short(b)
    ensures Apart(Sized(a), Sized(b)) && (Sized(a) == Sized(b) ==> a == b)
  {
    U32Injective(|a|, |b|);
    Both(U32(|a|), a, U32(|b|), b);
  }

  lemma OptionSizedInjective(a: Option<Bytes>, b: Option<Bytes>)
    requires (a.Some? ==> Short(a.value)) && (b.Some? ==> Short(b.value))
    ensures Apart(OptionSized(a), OptionSized(b)) && (OptionSized(a) == OptionSized(b) ==> a == b)
  {
    if a.Some? && b.Some? {
      SizedInjective(a.value, b.value);
      Both([1], Sized(a.value), [1], Sized(b.value));
    } else {
      var x, y := OptionSized(a), OptionSized(b);
      assert a.Some? != b.Some? ==> x[0] != y[0];
    }
  }

  /** The length the first byte announces. */
  function CharLength(first: int): nat {
    if first < 0x80 then 1 else if first < 0xE0 then 2 else if first < 0xF0 then 3 else 4
  }

  /** The scalar value the bytes of a character carry. */
  function CharCode(b: Bytes): int
    requires b != [] && |b| == CharLength(b[0])
  {
    var first: int := b[0];
    if |b| == 1 then first
    else if |b| == 2 then (first - 0xC0) * 64 + (b[1] as int - 0x80)
    else if |b| == 3 then (first - 0xE0) * 4096 + (b[1] as int - 0x80) * 64 + (b[2] as int - 0x80)
    else (first - 0xF0) * 262144 + (b[1] as int - 0x80) * 4096 + (b[2] as int - 0x80) * 64 + (b[3] as int - 0x80)
  }

  lemma Groups(n: nat)
    ensures n == n / 64 * 64 + n % 64
    ensures n / 64 == n / 4096 * 64 + n / 64 % 64
    ensures n / 4096 == n / 262144 * 64 + n / 4096 % 64
  {
    assert n / 64 / 64 == n / 4096;
    assert n / 4096 / 64 == n / 262144;
  }

  lemma CharBytes(c: char)
    ensures |Utf8Char(c)| == CharLength(Utf8Char(c)[0]) && CharCode(Utf8Char(c)) == c as int
  {
    Groups(c as int);
  }

  lemma CharInjective(c: char, d: char)
    ensures Apart(Utf8Char(c), Utf8Char(d)) && (Utf8Char(c) == Utf8Char(d) ==> c == d)
  {
    CharBytes(c);
    CharBytes(d);
    var x, y := Utf8Char(c), Utf8Char(d);
    assert x[0] == y[0] ==> |x| == |y|;
  }

  lemma {:induction false} Utf8Front(s: string)
    requires s != []
    ensures Utf8(s) == Utf8Char(s[0]) + Utf8(s[1..])
  {
    if |s| == 1 {
      assert s[..0] == [] && s[1..] == [];
      assert Utf8([]) == [];
    } else {
      Utf8Front(s[..|s| - 1]);
      assert s[..|s| - 1][1..] == s[1..][..|s| - 2];
      Assoc(Utf8Char(s[0]), Utf8(s[1..][..|s| - 2]), Utf8Char(s[|s| - 1]));
    }
  }

  lemma {:induction false} Utf8Injective(s: string, t: string)
    requires Utf8(s) == Utf8(t)
    ensures s == t
    decreases |s|
  {
    if s != [] { Utf8Front(s); }
    if t != [] { Utf8Front(t); }
    if s != [] && t != [] {
      CharInjective(s[0], t[0]);
      Split(Utf8Char(s[0]), Utf8(s[1..]), Utf8Char(t[0]), Utf8(t[1..]));
      Utf8Injective(s[1..], t[1..]);
      assert s == [s[0]] + s[1..] && t == [t[0]] + t[1..];
    }
  }

  // ---- addresses ---------------------------------------------------------------------------

  lemma {:induction false} BitsValueInjective(a: Bits, b: Bits)
    requires |a| == |b| && BitsValue(a) == BitsValue(b)
    ensures a == b
  {
    if a != [] {
      var n := |a| - 1;
      BitsValueInjective(a[..n], b[..n]);
      assert a == a[..n] + [a[n]] && b == b[..n] + [b[n]];
    }
  }

  lemma OctetsInjective(a: IpAddr, b: IpAddr)
    requires a.family == b.family && Octets(a) == Octets(b)
    ensures a == b
  {
    forall i | 0 <= i < |a.bits|
      ensures a.bits[i] == b.bits[i]
    {
      var k := i / 8;
      assert Octets(a)[k] == Octets(b)[k];
      BitsValueInjective(a.bits[8 * k..8 * k + 8], b.bits[8 * k..8 * k + 8]);
      assert a.bits[i] == a.bits[8 * k..8 * k + 8][i - 8 * k];
      assert b.bits[i] == b.bits[8 * k..8 * k + 8][i - 8 * k];
    }
  }

  lemma IpInjective(a: IpAddr, b: IpAddr)
    ensures Apart(IpBytes(a), IpBytes(b)) && (IpBytes(a) == IpBytes(b) ==> a == b)
  {
    var x, y := IpBytes(a), IpBytes(b);
    if a.family == b.family {
      assert |x| == |y|;
      assert x[1..] == Octets(a) && y[1..] == Octets(b);
      if x == y { OctetsInjective(a, b); }
    } else {
      assert x[0] != y[0];
    }
  }

  lemma NetInjective(a: Net, b: Net)
    ensures Apart(NetBytes(a), NetBytes(b)) && (NetBytes(a) == NetBytes(b) ==> a == b)
  {
    IpInjective(a.ip, b.ip);
    Both(IpBytes(a.ip), [a.prefix], IpBytes(b.ip), [b.prefix]);
    assert [a.prefix] == [b.prefix] ==> [a.prefix][0] == [b.prefix][0];
  }

  // ---- lists ---------------------------------------------------------------------------------

  /** Equal bytes of two entries mean entries that are the same for the identity. */
  ghost predicate Faithful<T(!new)>(f: T -> Bytes, same: (T, T) -> bool, ok: T -> bool) {
    forall a, b | ok(a) && ok(b) ::
      Apart(f(a), f(b)) && (f(a) == f(b) ==> same(a, b))
  }

  ghost predicate AllOk<T>(ok: T -> bool, xs: seq<T>) { forall i :: 0 <= i < |xs| ==> ok(xs[i]) }

  ghost predicate AllSame<T>(same: (T, T) -> bool, xs: seq<T>, ys: seq<T>) {
    |xs| == |ys| && forall i :: 0 <= i < |xs| ==> same(xs[i], ys[i])
  }

  lemma {:induction false} ConcatInjective<T(!new)>(f: T -> Bytes, same: (T, T) -> bool, ok: T -> bool, xs: seq<T>, ys: seq<T>)
    requires Faithful(f, same, ok) && AllOk(ok, xs) && AllOk(ok, ys) && |xs| == |ys|
    ensures Apart(Concat(f, xs), Concat(f, ys)) && (Concat(f, xs) == Concat(f, ys) ==> AllSame(same, xs, ys))
  {
    if xs != [] {
      var n := |xs| - 1;
      ConcatInjective(f, same, ok, xs[..n], ys[..n]);
      Both(Concat(f, xs[..n]), f(xs[n]), Concat(f, ys[..n]), f(ys[n]));
      if Concat(f, xs) == Concat(f, ys) {
        forall i | 0 <= i < |xs|
          ensures same(xs[i], ys[i])
        {
          if i < n { assert xs[..n][i] == xs[i] && ys[..n][i] == ys[i]; }
        }
      }
    }
  }

  lemma CountedInjective<T(!new)>(f: T -> Bytes, same: (T, T) -> bool, ok: T -> bool, xs: seq<T>, ys: seq<T>)
    requires Faithful(f, same, ok) && AllOk(ok, xs) && AllOk(ok, ys) && |xs| < WRAP && |ys| < WRAP
    ensures Apart(Counted(f, xs), Counted(f, ys)) && (Counted(f, xs) == Counted(f, ys) ==> AllSame(same, xs, ys))
  {
    U32Injective(|xs|, |ys|);
    if |xs| == |ys| { ConcatInjective(f, same, ok, xs, ys); }
    Both(U32(|xs|), Concat(f, xs), U32(|ys|), Concat(f, ys));
  }

  predicate ShortText(s: string) { Short(Utf8(s)) }

  lemma NetsInjective(xs: seq<Net>, ys: seq<Net>)
    requires |xs| < WRAP && |ys| < WRAP
    ensures Apart(Counted(NetBytes, xs), Counted(NetBytes, ys)) && (Counted(NetBytes, xs) == Counted(NetBytes, ys) ==> xs == ys)
  {
    var same, ok := (a: Net, b: Net) => a == b, (a: Net) => true;
    forall a: Net, b: Net
      ensures Apart(NetBytes(a), NetBytes(b)) && (NetBytes(a) == NetBytes(b) ==> same(a, b))
    {
      NetInjective(a, b);
    }
    CountedInjective(NetBytes, same, ok, xs, ys);
  }

  lemma IpsInjective(xs: seq<IpAddr>, ys: seq<IpAddr>)
    requires |xs| < WRAP && |ys| < WRAP
    ensures Apart(Counted(IpBytes, xs), Counted(IpBytes, ys)) && (Counted(IpBytes, xs) == Counted(IpBytes, ys) ==> xs == ys)
  {
    var same, ok := (a: IpAddr, b: IpAddr) => a == b, (a: IpAddr) => true;
    forall a: IpAddr, b: IpAddr
      ensures Apart(IpBytes(a), IpBytes(b)) && (IpBytes(a) == IpBytes(b) ==> same(a, b))
    {
      IpInjective(a, b);
    }
    CountedInjective(IpBytes, same, ok, xs, ys);
  }

  predicate ShortTexts(xs: seq<string>) { |xs| < WRAP && forall i :: 0 <= i < |xs| ==> ShortText(xs[i]) }

  lemma StringInjective(a: string, b: string)
    requires ShortText(a) && ShortText(b)
    ensures Apart(StringBytes(a), StringBytes(b)) && (StringBytes(a) == StringBytes(b) ==> a == b)
  {
    SizedInjective(Utf8(a), Utf8(b));
    if Utf8(a) == Utf8(b) { Utf8Injective(a, b); }
  }

  lemma StringsInjective(xs: seq<string>, ys: seq<string>)
    requires ShortTexts(xs) && ShortTexts(ys)
    ensures Apart(Counted(StringBytes, xs), Counted(StringBytes, ys))
    ensures Counted(StringBytes, xs) == Counted(StringBytes, ys) ==> xs == ys
  {
    var same := (a: string, b: string) => a == b;
    forall a: string, b: string | ShortText(a) && ShortText(b)
      ensures Apart(StringBytes(a), StringBytes(b)) && (StringBytes(a) == StringBytes(b) ==> same(a, b))
    {
      StringInjective(a, b);
    }
    CountedInjective(StringBytes, same, ShortText, xs, ys);
  }

  // ---- peers -----------------------------------------------------------------------------------

  predicate PeerFits(p: Peer) {
    && |p.allowedIps| < WRAP
    && (p.endpointLiteral.Some? ==> ShortText(p.endpointLiteral.value))
    && (p.keepalive.Some? ==> p.keepalive.value < 0x10000)
  }

  /** A peer without the address its endpoint was resolved to. */
  function Unresolved(p: Peer): Peer { p.(endpoint := None) }

  function LiteralBytes(p: Peer): Option<Bytes> {
    if p.endpointLiteral.Some? then Some(Utf8(p.endpointLiteral.value)) else None
  }

  lemma LiteralInjective(p: Peer, q: Peer)
    requires PeerFits(p) && PeerFits(q)
    ensures Apart(OptionSized(LiteralBytes(p)), OptionSized(LiteralBytes(q)))
    ensures OptionSized(LiteralBytes(p)) == OptionSized(LiteralBytes(q)) ==> p.endpointLiteral == q.endpointLiteral
  {
    OptionSizedInjective(LiteralBytes(p), LiteralBytes(q));
    if LiteralBytes(p) == LiteralBytes(q) && p.endpointLiteral.Some? {
      Utf8Injective(p.endpointLiteral.value, q.endpointLiteral.value);
    }
  }

  lemma PeerInjective(p: Peer, q: Peer)
    requires PeerFits(p) && PeerFits(q)
    ensures Apart(PeerBytes(p), PeerBytes(q)) && (PeerBytes(p) == PeerBytes(q) ==> Unresolved(p) == Unresolved(q))
  {
    SizedInjective(p.publicKey, q.publicKey);
    OptionSizedInjective(p.presharedKey, q.presharedKey);
    NetsInjective(p.allowedIps, q.allowedIps);
    LiteralInjective(p, q);
    OptionU16Injective(p.keepalive, q.keepalive);
    var a, b := Sized(p.publicKey), Sized(q.publicKey);
    var a', b' := OptionSized(p.presharedKey), OptionSized(q.presharedKey);
    Both(a, a', b, b');
    a, b, a', b' := a + a', b + b', Counted(NetBytes, p.allowedIps), Counted(NetBytes, q.allowedIps);
    Both(a, a', b, b');
    a, b, a', b' := a + a', b + b', OptionSized(LiteralBytes(p)), OptionSized(LiteralBytes(q));
    Both(a, a', b, b');
    a, b, a', b' := a + a', b + b', OptionU16(p.keepalive), OptionU16(q.keepalive);
    Both(a, a', b, b');
  }

  predicate SamePeer(p: Peer, q: Peer) { Unresolved(p) == Unresolved(q) }

  lemma PeersInjective(xs: seq<Peer>, ys: seq<Peer>)
    requires |xs| < WRAP && |ys| < WRAP && AllOk(PeerFits, xs) && AllOk(PeerFits, ys)
    ensures Apart(Counted(PeerBytes, xs), Counted(PeerBytes, ys))
    ensures Counted(PeerBytes, xs) == Counted(PeerBytes, ys) ==> AllSame(SamePeer, xs, ys)
  {
    forall p: Peer, q: Peer | PeerFits(p) && PeerFits(q)
      ensures Apart(PeerBytes(p), PeerBytes(q)) && (PeerBytes(p) == PeerBytes(q) ==> SamePeer(p, q))
    {
      PeerInjective(p, q);
    }
    CountedInjective(PeerBytes, SamePeer, PeerFits, xs, ys);
  }

  // ---- configurations -----------------------------------------------------------------------------

  /** All lengths are below 2^32 and all 16-bit numbers are. */
  ghost predicate Fits(c: Config) {
    && |c.addresses| < WRAP && |c.dnsServers| < WRAP && |c.peers| < WRAP
    && (c.mtu.Some? ==> c.mtu.value < 0x10000)
    && ShortTexts(c.preUp) && ShortTexts(c.postUp) && ShortTexts(c.preDown) && ShortTexts(c.postDown)
    && AllOk(PeerFits, c.peers)
  }

  /** The configuration but for what name resolution answered. */
  function Identity(c: Config): Config {
    c.(peers := seq(|c.peers|, i requires 0 <= i < |c.peers| => Unresolved(c.peers[i])))
  }

  /** The interface part of the buffer. */
  function InterfaceBytes(c: Config): Bytes {
    TAG + Sized(c.privateKey) + Counted(NetBytes, c.addresses) + Counted(IpBytes, c.dnsServers) + OptionU16(c.mtu)
  }

  lemma InterfaceInjective(c: Config, d: Config)
    requires Fits(c) && Fits(d)
    ensures Apart(InterfaceBytes(c), InterfaceBytes(d))
    ensures InterfaceBytes(c) == InterfaceBytes(d) ==>
              c.privateKey == d.privateKey && c.addresses == d.addresses && c.dnsServers == d.dnsServers && c.mtu == d.mtu
  {
    SizedInjective(c.privateKey, d.privateKey);
    NetsInjective(c.addresses, d.addresses);
    IpsInjective(c.dnsServers, d.dnsServers);
    OptionU16Injective(c.mtu, d.mtu);
    var a, b, a', b' := TAG, TAG, Sized(c.privateKey), Sized(d.privateKey);
    Both(a, a', b, b');
    a, b, a', b' := a + a', b + b', Counted(NetBytes, c.addresses), Counted(NetBytes, d.addresses);
    Both(a, a', b, b');
    a, b, a', b' := a + a', b + b', Counted(IpBytes, c.dnsServers), Counted(IpBytes, d.dnsServers);
    Both(a, a', b, b');
    a, b, a', b' := a + a', b + b', OptionU16(c.mtu), OptionU16(d.mtu);
    Both(a, a', b, b');
  }

  lemma EncodeInjective(c: Config, d: Config)
    requires Fits(c) && Fits(d)
    ensures Apart(Encode(c), Encode(d)) && (Encode(c) == Encode(d) ==> Identity(c) == Identity(d))
  {
    hide Counted, ShortTexts, PeerFits, Unresolved;
    InterfaceInjective(c, d);
    StringsInjective(c.preUp, d.preUp);
    StringsInjective(c.postUp, d.postUp);
    StringsInjective(c.preDown, d.preDown);
    StringsInjective(c.postDown, d.postDown);
    PeersInjective(c.peers, d.peers);
    var a, b, a', b' := InterfaceBytes(c), InterfaceBytes(d), Counted(StringBytes, c.preUp), Counted(StringBytes, d.preUp);
    Both(a, a', b, b');
    a, b, a', b' := a + a', b + b', Counted(StringBytes, c.postUp), Counted(StringBytes, d.postUp);
    Both(a, a', b, b');
    a, b, a', b' := a + a', b + b', Counted(StringBytes, c.preDown), Counted(StringBytes, d.preDown);
    Both(a, a', b, b');
    a, b, a', b' := a + a', b + b', Counted(StringBytes, c.postDown), Counted(StringBytes, d.postDown);
    Both(a, a', b, b');
    a, b, a', b' := a + a', b + b', Counted(PeerBytes, c.peers), Counted(PeerBytes, d.peers);
    Both(a, a', b, b');
  }

  /** Unique decodability: the bytes, followed by anything, determine the
      configuration but for its resolved endpoints, and determine what follows. */
  lemma UniquelyDecodable(c: Config, s: Bytes, d: Config, t: Bytes)
    requires Fits(c) && Fits(d) && Encode(c) + s == Encode(d) + t
    ensures Identity(c) == Identity(d) && s == t
  {
    EncodeInjective(c, d);
    Split(Encode(c), s, Encode(d), t);
  }

  lemma {:induction false} PeersSameBytes(xs: seq<Peer>, ys: seq<Peer>)
    requires AllSame(SamePeer, xs, ys)
    ensures Concat(PeerBytes, xs) == Concat(PeerBytes, ys)
  {
    if xs != [] {
      var n := |xs| - 1;
      PeersSameBytes(xs[..n], ys[..n]);
      assert SamePeer(xs[n], ys[n]);
      PeerSameBytes(xs[n], ys[n]);
    }
  }

  lemma PeerSameBytes(p: Peer, q: Peer)
    requires SamePeer(p, q)
    ensures PeerBytes(p) == PeerBytes(q)
  {
    assert Unresolved(p).publicKey == p.publicKey && Unresolved(q).publicKey == q.publicKey;
  }

  /** Equal bytes mean equal configurations, and the other way round. */
  lemma BytesAreIdentity(c: Config, d: Config)
    requires Fits(c) && Fits(d)
    ensures Encode(c) == Encode(d) <==> Identity(c) == Identity(d)
  {
    EncodeInjective(c, d);
    if Identity(c) == Identity(d) { SameIdentitySameBytes(c, d); }
  }

  lemma SameIdentitySameBytes(c: Config, d: Config)
    requires Identity(c) == Identity(d)
    ensures Encode(c) == Encode(d)
  {
    forall i | 0 <= i < |c.peers|
      ensures |Identity(c).peers| == |Identity(d).peers| && SamePeer(c.peers[i], d.peers[i])
    {
      assert Identity(c).peers[i] == Identity(d).peers[i];
    }
    assert |c.peers| == |Identity(c).peers| == |Identity(d).peers| == |d.peers|;
    PeersSameBytes(c.peers, d.peers);
    assert Identity(c).privateKey == c.privateKey && Identity(d).privateKey == d.privateKey;
  }

  // ---- the resolver --------------------------------------------------------------------------------

  /** Two scans that differ in resolved endpoints only. */
  ghost predicate Alike(a: Acc, b: Acc) {
    && a.section == b.section && a.iface == b.iface
    && a.cur.(endpoint := None) == b.cur.(endpoint := None)
    && AllSame(SamePeer, a.peers, b.peers)
  }

  lemma EndSectionAlike(a: Acc, b: Acc)
    requires Alike(a, b) && EndSection(a).Some? && EndSection(b).Some?
    ensures Alike(EndSection(a).value, EndSection(b).value)
  {
    if a.section == InPeer {
      var p, q := FlushPeer(a.cur).value, FlushPeer(b.cur).value;
      assert a.cur.(endpoint := None).publicKey == a.cur.publicKey && b.cur.(endpoint := None).publicKey == b.cur.publicKey;
      assert SamePeer(p, q);
    }
  }

  lemma EntryAlike(o: Oracle, r: (string, nat) -> Option<SockAddr>, a: Acc, b: Acc, key: Key, value: string)
    requires Alike(a, b) && Step(o, a, Entry(key, value)).Some? && Step(o.(resolve := r), b, Entry(key, value)).Some?
    ensures Alike(Step(o, a, Entry(key, value)).value, Step(o.(resolve := r), b, Entry(key, value)).value)
  {
    assert a.cur.(endpoint := None).publicKey == b.cur.(endpoint := None).publicKey;
  }

  lemma StepAlike(o: Oracle, r: (string, nat) -> Option<SockAddr>, a: Acc, b: Acc, item: Item)
    requires Alike(a, b) && Step(o, a, item).Some? && Step(o.(resolve := r), b, item).Some?
    ensures Alike(Step(o, a, item).value, Step(o.(resolve := r), b, item).value)
  {
    match item {
      case InterfaceHeader => EndSectionAlike(a, b);
      case PeerHeader => EndSectionAlike(a, b);
      case Entry(key, value) => EntryAlike(o, r, a, b, key, value);
      case _ =>
    }
  }

  lemma {:induction false} ScanAlike(o: Oracle, r: (string, nat) -> Option<SockAddr>, items: seq<Item>)
    requires Scan(o, items).Some? && Scan(o.(resolve := r), items).Some?
    ensures Alike(Scan(o, items).value, Scan(o.(resolve := r), items).value)
  {
    if items != [] {
      var front := items[..|items| - 1];
      ScanAlike(o, r, front);
      StepAlike(o, r, Scan(o, front).value, Scan(o.(resolve := r), front).value, items[|items| - 1]);
    }
  }

  /** The same text parsed twice, with whatever the resolver answers each time,
      hashes the same bytes: a stored connection never goes stale, and is never
      stored twice, because a name moved. */
  lemma ResolverNeverChangesBytes(o: Oracle, r: (string, nat) -> Option<SockAddr>, text: string)
    requires Parse(o, text).Some? && Parse(o.(resolve := r), text).Some?
    ensures Encode(Parse(o, text).value) == Encode(Parse(o.(resolve := r), text).value)
  {
    var items := Items(Text.Lines(text));
    ScanAlike(o, r, items);
    var a, b := Scan(o, items).value, Scan(o.(resolve := r), items).value;
    EndSectionAlike(a, b);
    PeersSameBytes(EndSection(a).value.peers, EndSection(b).value.peers);
  }
}
