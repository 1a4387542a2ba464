/** The hashed bytes are the documented ones: network order in addresses, little
    endian in numbers, UTF-8 in its shortest form, and every field in its place. */
module FingerprintFormat {
  import opened Prelude
  import opened Cidr
  import opened ConfParser
  import opened Fingerprint
  import FI = FingerprintIdentity

  // ---- characters (section 4 of RFC 3629) ---------------------------------------------

  predicate Tail(b: Byte) { 0x80 <= b <= 0xBF }

  /** The byte sequences of one character; longer forms than needed and
      surrogates are not among them. */
  predicate Utf8Syntax(b: Bytes) {
    match |b|
    case 1 => b[0] <= 0x7F
    case 2 => 0xC2 <= b[0] <= 0xDF && Tail(b[1])
    case 3 =>
      && (if b[0] == 0xE0 then 0xA0 <= b[1] <= 0xBF else if b[0] == 0xED then 0x80 <= b[1] <= 0x9F else 0xE1 <= b[0] <= 0xEF && Tail(b[1]))
      && Tail(b[2])
    case 4 =>
      && (if b[0] == 0xF0 then 0x90 <= b[1] <= 0xBF else if b[0] == 0xF4 then 0x80 <= b[1] <= 0x8F else 0xF1 <= b[0] <= 0xF3 && Tail(b[1]))
      && Tail(b[2]) && Tail(b[3])
    case _ => false
  }

  /** A character's bytes are the one well-formed sequence that stands for it. */
  lemma CharIsItsCodePoint(c: char)
    ensures Utf8Syntax(Utf8Char(c))
    ensures |Utf8Char(c)| == FI.CharLength(Utf8Char(c)[0]) && FI.CharCode(Utf8Char(c)) == c as int
  {
    FI.CharBytes(c);
  }

  /** ASCII text is its own bytes. */
  lemma {:induction false} Ascii(s: string)
    requires forall i :: 0 <= i < |s| ==> s[i] as int < 0x80
    ensures |Utf8(s)| == |s| && forall i :: 0 <= i < |s| ==> Utf8(s)[i] == s[i] as int
  {
    if s != [] { Ascii(s[..|s| - 1]); }
  }

  // ---- numbers and addresses ------------------------------------------------------------

  /** Lengths and counts are four bytes, the lowest first. */
  lemma LittleEndian(n: nat)
    requires n < 0x1_0000_0000
    ensures var b := U32(n);
            |b| == 4 && b[0] + 0x100 * (b[1] as int) + 0x1_0000 * (b[2] as int) + 0x100_0000 * (b[3] as int) == n
  {
    assert n / 65536 == n / 256 / 256 && n / 16777216 == n / 65536 / 256;
  }

  /** Present numbers are a one and two bytes, the lowest first. */
  lemma LittleEndianOption(n: nat)
    requires n < 0x1_0000
    ensures var b := OptionU16(Some(n));
            |b| == 3 && b[0] == 1 && b[1] + 0x100 * (b[2] as int) == n
  {
  }

  function Power(k: nat): nat { if k == 0 then 1 else 2 * Power(k - 1) }

  /** The lowest `k` bits of a number, the highest of them first. */
  function LowBits(n: nat, k: nat): (r: Bits)
    ensures |r| == k
  {
    if k == 0 then [] else LowBits(n / 2, k - 1) + [n % 2 == 1]
  }

  lemma {:induction false} ValueOfLowBits(n: nat, k: nat)
    requires n < Power(k)
    ensures BitsValue(LowBits(n, k)) == n
  {
    if k > 0 {
      ValueOfLowBits(n / 2, k - 1);
      assert LowBits(n, k)[..k - 1] == LowBits(n / 2, k - 1);
    }
  }

  function BitsOf(b: Byte): (r: Bits)
    ensures |r| == 8
  {
    LowBits(b, 8)
  }

  function AllBitsOf(bytes: Bytes): (r: Bits)
    ensures |r| == 8 * |bytes|
  {
    if bytes == [] then [] else AllBitsOf(bytes[..|bytes| - 1]) + BitsOf(bytes[|bytes| - 1])
  }

  lemma ByteOfBits(b: Byte)
    ensures BitsValue(BitsOf(b)) == b
  {
    assert Power(8) == 2 * (2 * (2 * (2 * (2 * (2 * (2 * (2 * Power(0))))))));
    ValueOfLowBits(b, 8);
  }

  lemma {:induction false} BitsOfAt(bytes: Bytes, i: nat)
    requires i < |bytes|
    ensures AllBitsOf(bytes)[8 * i..8 * i + 8] == BitsOf(bytes[i])
  {
    var front := AllBitsOf(bytes[..|bytes| - 1]);
    if i == |bytes| - 1 {
      assert (front + BitsOf(bytes[i]))[8 * i..] == BitsOf(bytes[i]);
    } else {
      BitsOfAt(bytes[..|bytes| - 1], i);
      assert AllBitsOf(bytes)[8 * i..8 * i + 8] == front[8 * i..8 * i + 8];
    }
  }

  /** An address is its family's digit and its bytes in network order. */
  lemma AddressBytes(f: Family, bytes: Bytes)
    requires |bytes| == match f case V4 => 4 case V6 => 16
    ensures IpBytes(Ip(f, AllBitsOf(bytes))) == [match f case V4 => 4 case V6 => 6] + bytes
  {
    forall i | 0 <= i < |bytes|
      ensures Octet(AllBitsOf(bytes), i) == bytes[i]
    {
      BitsOfAt(bytes, i);
      ByteOfBits(bytes[i]);
    }
    assert Octets(Ip(f, AllBitsOf(bytes))) == bytes;
  }

  // ---- the whole ------------------------------------------------------------------------

  function IPv4(a: Byte, b: Byte, c: Byte, d: Byte): IpAddr { Ip(V4, AllBitsOf([a, b, c, d])) }

  lemma One<T>(f: T -> Bytes, x: T)
    ensures Concat(f, [x]) == f(x) && Counted(f, [x]) == [1, 0, 0, 0] + f(x) && Counted(f, []) == [0, 0, 0, 0]
  {
    assert [x][..0] == [] && Concat(f, []) == [];
    assert U32(1) == [1, 0, 0, 0] && U32(0) == [0, 0, 0, 0];
  }

  /** A configuration with one distinct value in every field, byte by byte. */
  lemma Layout(key: Key32, public: Key32, shared: Key32, at: Option<SockAddr>)
    ensures Encode(Config(key, [Net(IPv4(10, 0, 0, 2), 24)], [IPv4(9, 9, 9, 9)], Some(1420), ["a"], ["b"], ["c"], ["d"],
                          [Peer(public, Some(shared), [Net(IPv4(0, 0, 0, 0), 0)], at, Some("e"), Some(25))]))
         == [0x77, 0x67, 0x64, 0x2D, 0x63, 0x6F, 0x6E, 0x6E, 0x66, 0x70, 0x2D, 0x76, 0x31]
            + ([32, 0, 0, 0] + key)
            + [1, 0, 0, 0, 4, 10, 0, 0, 2, 24]
            + [1, 0, 0, 0, 4, 9, 9, 9, 9]
            + [1, 0x8C, 0x05]
            + [1, 0, 0, 0, 1, 0, 0, 0, 0x61]
            + [1, 0, 0, 0, 1, 0, 0, 0, 0x62]
            + [1, 0, 0, 0, 1, 0, 0, 0, 0x63]
            + [1, 0, 0, 0, 1, 0, 0, 0, 0x64]
            + ([1, 0, 0, 0] + PeerFormat(public, shared))
  {
    hide Concat, Utf8, IpBytes, NetBytes, Counted, PeerBytes, StringBytes, Sized, OptionU16, IPv4, PeerFormat;
    TagBytes();
    KeyLayout(key);
    NetLayout(10, 0, 0, 2, 24);
    IpLayout(9, 9, 9, 9);
    TextLayout('a');
    TextLayout('b');
    TextLayout('c');
    TextLayout('d');
    NumberLayout(1420);
    PeerLayout(public, shared, at);
    One<Peer>(PeerBytes, Peer(public, Some(shared), [Net(IPv4(0, 0, 0, 0), 0)], at, Some("e"), Some(25)));
  }

  function PeerFormat(public: Key32, shared: Key32): Bytes {
    ([32, 0, 0, 0] + public) + ([1] + ([32, 0, 0, 0] + shared)) + [1, 0, 0, 0, 4, 0, 0, 0, 0, 0] + [1, 1, 0, 0, 0, 0x65] + [1, 25, 0]
  }

  lemma KeyLayout(key: Key32)
    ensures Sized(key) == [32, 0, 0, 0] + key && OptionSized(Some(key)) == [1] + ([32, 0, 0, 0] + key)
  {
    assert U32(32) == [32, 0, 0, 0];
  }

  lemma NumberLayout(n: nat)
    ensures OptionU16(Some(n)) == [1, n % 256, n / 256 % 256]
  {
  }

  lemma IpLayout(a: Byte, b: Byte, c: Byte, d: Byte)
    ensures Counted<IpAddr>(IpBytes, [IPv4(a, b, c, d)]) == [1, 0, 0, 0, 4, a, b, c, d]
  {
    hide IpBytes, Concat, AllBitsOf;
    AddressBytes(V4, [a, b, c, d]);
    One<IpAddr>(IpBytes, IPv4(a, b, c, d));
  }

  lemma NetLayout(a: Byte, b: Byte, c: Byte, d: Byte, prefix: nat)
    requires prefix <= 32
    ensures Counted<Net>(NetBytes, [Net(IPv4(a, b, c, d), prefix)]) == [1, 0, 0, 0, 4, a, b, c, d, prefix]
  {
    hide IpBytes, Concat, AllBitsOf;
    AddressBytes(V4, [a, b, c, d]);
    One<Net>(NetBytes, Net(IPv4(a, b, c, d), prefix));
  }

  lemma TextLayout(c: char)
    requires c as int < 0x80
    ensures Counted(StringBytes, [[c]]) == [1, 0, 0, 0, 1, 0, 0, 0, c as int]
  {
    One<string>(StringBytes, [c]);
    Ascii([c]);
    assert Utf8([c]) == [c as int];
  }

  lemma PeerLayout(public: Key32, shared: Key32, at: Option<SockAddr>)
    ensures PeerBytes(Peer(public, Some(shared), [Net(IPv4(0, 0, 0, 0), 0)], at, Some("e"), Some(25))) == PeerFormat(public, shared)
  {
    hide IpBytes, NetBytes, Counted, Concat, Utf8, IPv4, Sized, OptionSized, OptionU16;
    KeyLayout(public);
    KeyLayout(shared);
    NetLayout(0, 0, 0, 0, 0);
    NumberLayout(25);
    LiteralLayout();
  }

  lemma LiteralLayout()
    ensures OptionSized(Some(Utf8("e"))) == [1, 1, 0, 0, 0, 0x65]
  {
    Ascii("e");
    assert Utf8("e") == [0x65] && U32(1) == [1, 0, 0, 0];
  }

  lemma TagBytes()
    ensures TAG == [0x77, 0x67, 0x64, 0x2D, 0x63, 0x6F, 0x6E, 0x6E, 0x66, 0x70, 0x2D, 0x76, 0x31]
  {
    hide Utf8;
    Ascii("wgd-connfp-v1");
  }
}
