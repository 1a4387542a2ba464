/** The one-pass configuration parser: a scan over lines that fills interface
    and peer accumulators and flushes a peer at every section change. Base64,
    address parsing and name resolution are the oracle's. */
module ConfParser {
  import opened Prelude
  import opened Cidr
  import opened Text

  type Key32 = k: seq<Byte> | |k| == 32 witness seq(32, _ => 0)

  datatype SockAddr = SockAddr(ip: IpAddr, port: nat)

  datatype Oracle = Oracle(
    key: string -> Option<Key32>,
    net: string -> Option<Net>,
    ip: string -> Option<IpAddr>,
    sock: string -> Option<SockAddr>,
    resolve: (string, nat) -> Option<SockAddr>)

  datatype Peer = Peer(publicKey: Key32, presharedKey: Option<Key32>, allowedIps: seq<Net>,
                       endpoint: Option<SockAddr>, endpointLiteral: Option<string>, keepalive: Option<nat>)

  datatype Config = Config(privateKey: Key32, addresses: seq<Net>, dnsServers: seq<IpAddr>, mtu: Option<nat>,
                           preUp: seq<string>, postUp: seq<string>, preDown: seq<string>, postDown: seq<string>,
                           peers: seq<Peer>)

  // ---- lines ------------------------------------------------------------------------

  /** The directives the parser knows, of either section, and any other name. */
  datatype Key =
    | PrivateKey | Address | Dns | Mtu | PreUp | PostUp | PreDown | PostDown
    | ListenPort | FwMark | Table | SaveConfig
    | PublicKey | PresharedKey | AllowedIps | Endpoint | PersistentKeepalive
    | Unknown

  function KeyNamed(name: string): Key {
    if name == "privatekey" then PrivateKey
    else if name == "address" then Address
    else if name == "dns" then Dns
    else if name == "mtu" then Mtu
    else if name == "preup" then PreUp
    else if name == "postup" then PostUp
    else if name == "predown" then PreDown
    else if name == "postdown" then PostDown
    else if name == "listenport" then ListenPort
    else if name == "fwmark" then FwMark
    else if name == "table" then Table
    else if name == "saveconfig" then SaveConfig
    else if name == "publickey" then PublicKey
    else if name == "presharedkey" then PresharedKey
    else if name == "allowedips" then AllowedIps
    else if name == "endpoint" then Endpoint
    else if name == "persistentkeepalive" then PersistentKeepalive
    else Unknown
  }

  /** What one line says; an entry with an empty value is ignored wherever it
      stands. */
  datatype Item = Blank | InterfaceHeader | PeerHeader | BadHeader | Malformed | Entry(key: Key, value: string)

  function HeaderName(line: string): Option<string> {
    var s := StripSpaces(line);
    if |s| >= 2 && s[0] == '[' && s[|s| - 1] == ']' then Some(Lower(s[1..|s| - 1])) else None
  }

  function Classify(raw: string): Item {
    var line := Trim(BeforeHash(raw));
    if line == [] then Blank
    else if line[0] == '[' then
      match HeaderName(line)
      case Some("interface") => InterfaceHeader
      case Some("peer") => PeerHeader
      case _ => BadHeader
    else
      match SplitOnce(line, '=')
      case None => Malformed
      case Some(kv) => Entry(KeyNamed(Lower(Trim(kv.0))), Trim(kv.1))
  }

  // ---- values -------------------------------------------------------------------------

  const MIN_MTU := 576

  function ParseMtu(value: string): Option<nat> {
    var mtu := ParseU16(value);
    if mtu.Some? && mtu.value >= MIN_MTU then mtu else None
  }

  function NonEmpty(entries: seq<string>): seq<string> {
    if entries == [] then []
    else NonEmpty(entries[..|entries| - 1]) + (var e := Trim(entries[|entries| - 1]); if e == [] then [] else [e])
  }

  /** `split_csv`. */
  function SplitCsv(value: string): seq<string> { NonEmpty(Split(value, ',')) }

  function ParseAll<T>(f: string -> Option<T>, entries: seq<string>): Option<seq<T>> {
    if entries == [] then Some([])
    else
      var front := ParseAll(f, entries[..|entries| - 1]);
      var last := f(entries[|entries| - 1]);
      if front.Some? && last.Some? then Some(front.value + [last.value]) else None
  }

  function TrimBrackets(host: string): string
    decreases |host|
  {
    if host != [] && (host[0] == '[' || host[0] == ']') then TrimBrackets(host[1..])
    else if host != [] && (host[|host| - 1] == '[' || host[|host| - 1] == ']') then TrimBrackets(host[..|host| - 1])
    else host
  }

  /** `parse_endpoint`. */
  function ParseEndpoint(o: Oracle, value: string): Option<SockAddr> {
    if o.sock(value).Some? then o.sock(value)
    else
      match RSplitOnce(value, ':')
      case None => None
      case Some(hp) =>
        var port := ParseU16(hp.1);
        if port.None? then None
        else
          var host := TrimBrackets(hp.0);
          if o.ip(host).Some? then Some(SockAddr(o.ip(host).value, port.value)) else o.resolve(host, port.value)
  }

  // ---- the scan --------------------------------------------------------------------------

  datatype Section = NoSection | InInterface | InPeer

  datatype PeerAcc = PeerAcc(publicKey: Option<Key32>, presharedKey: Option<Key32>, allowedIps: seq<Net>,
                             endpoint: Option<SockAddr>, endpointLiteral: Option<string>, keepalive: Option<nat>)

  datatype IfaceAcc = IfaceAcc(privateKey: Option<Key32>, addresses: seq<Net>, dnsServers: seq<IpAddr>, mtu: Option<nat>,
                               preUp: seq<string>, postUp: seq<string>, preDown: seq<string>, postDown: seq<string>)

  datatype Acc = Acc(section: Section, iface: IfaceAcc, peers: seq<Peer>, cur: PeerAcc)

  const EMPTY_PEER := PeerAcc(None, None, [], None, None, None)
  const EMPTY_IFACE := IfaceAcc(None, [], [], None, [], [], [], [])
  const EMPTY_ACC := Acc(NoSection, EMPTY_IFACE, [], EMPTY_PEER)

  /** `flush_peer`: what the finished section yields. */
  function FlushPeer(cur: PeerAcc): Option<Peer> {
    if cur.publicKey.None? || cur.allowedIps == [] then None
    else Some(Peer(cur.publicKey.value, cur.presharedKey, cur.allowedIps, cur.endpoint, cur.endpointLiteral, cur.keepalive))
  }

  function EndSection(acc: Acc): Option<Acc> {
    if acc.section != InPeer then Some(acc)
    else
      var peer := FlushPeer(acc.cur);
      if peer.None? then None else Some(acc.(peers := acc.peers + [peer.value], cur := EMPTY_PEER))
  }

  /** `ListenPort`, `FwMark`, `Table` and `SaveConfig` are accepted and ignored;
      any other name is an error. */
  function InterfaceEntry(o: Oracle, a: IfaceAcc, key: Key, value: string): Option<IfaceAcc> {
    match key
    case PrivateKey =>
      var k := o.key(value); if k.None? then None else Some(a.(privateKey := k))
    case Address =>
      var ns := ParseAll(o.net, SplitCsv(value)); if ns.None? then None else Some(a.(addresses := a.addresses + ns.value))
    case Dns =>
      var ips := ParseAll(o.ip, SplitCsv(value)); if ips.None? then None else Some(a.(dnsServers := a.dnsServers + ips.value))
    case Mtu =>
      var m := ParseMtu(value); if m.None? then None else Some(a.(mtu := m))
    case PreUp => Some(a.(preUp := a.preUp + [value]))
    case PostUp => Some(a.(postUp := a.postUp + [value]))
    case PreDown => Some(a.(preDown := a.preDown + [value]))
    case PostDown => Some(a.(postDown := a.postDown + [value]))
    case ListenPort => Some(a)
    case FwMark => Some(a)
    case Table => Some(a)
    case SaveConfig => Some(a)
    case _ => None
  }

  function PeerEntry(o: Oracle, p: PeerAcc, key: Key, value: string): Option<PeerAcc> {
    match key
    case PublicKey =>
      var k := o.key(value); if k.None? then None else Some(p.(publicKey := k))
    case PresharedKey =>
      var k := o.key(value); if k.None? then None else Some(p.(presharedKey := k))
    case AllowedIps =>
      var ns := ParseAll(o.net, SplitCsv(value)); if ns.None? then None else Some(p.(allowedIps := p.allowedIps + ns.value))
    case Endpoint =>
      var e := ParseEndpoint(o, value); if e.None? then None else Some(p.(endpoint := e, endpointLiteral := Some(value)))
    case PersistentKeepalive =>
      var n := ParseU16(value); if n.None? then None else Some(p.(keepalive := n))
    case _ => None
  }

  function Step(o: Oracle, acc: Acc, item: Item): Option<Acc> {
    match item
    case Blank => Some(acc)
    case InterfaceHeader =>
      var ended := EndSection(acc); if ended.None? then None else Some(ended.value.(section := InInterface))
    case PeerHeader =>
      var ended := EndSection(acc); if ended.None? then None else Some(ended.value.(section := InPeer))
    case BadHeader => None
    case Malformed => None
    case Entry(key, value) =>
      if value == [] then Some(acc)
      else
        match acc.section
        case NoSection => None
        case InInterface =>
          var a := InterfaceEntry(o, acc.iface, key, value); if a.None? then None else Some(acc.(iface := a.value))
        case InPeer =>
          var p := PeerEntry(o, acc.cur, key, value); if p.None? then None else Some(acc.(cur := p.value))
  }

  function Scan(o: Oracle, items: seq<Item>): Option<Acc> {
    if items == [] then Some(EMPTY_ACC)
    else
      var front := Scan(o, items[..|items| - 1]);
      if front.None? then None else Step(o, front.value, items[|items| - 1])
  }

  function Finish(acc: Acc): Option<Config> {
    var ended := EndSection(acc);
    if ended.None? then None
    else
      var a, peers := ended.value.iface, ended.value.peers;
      if a.privateKey.None? || a.addresses == [] || peers == [] then None
      else Some(Config(a.privateKey.value, a.addresses, a.dnsServers, a.mtu, a.preUp, a.postUp, a.preDown, a.postDown, peers))
  }

  function Items(lines: seq<string>): seq<Item> {
    seq(|lines|, i requires 0 <= i < |lines| => Classify(lines[i]))
  }

  function ParseItems(o: Oracle, items: seq<Item>): Option<Config> {
    var acc := Scan(o, items);
    if acc.None? then None else Finish(acc.value)
  }

  /** What `parse_connection_config` computes; `None` stands for its errors. */
  function Parse(o: Oracle, text: string): Option<Config> {
    ParseItems(o, Items(Lines(text)))
  }

  lemma {:induction false} ScanFailsForGood(o: Oracle, items: seq<Item>, n: nat)
    requires n <= |items| && Scan(o, items[..n]).None?
    ensures Scan(o, items).None?
    decreases |items| - n
  {
    if n == |items| {
      assert items[..n] == items;
    } else {
      assert items[..n + 1][..n] == items[..n];
      ScanFailsForGood(o, items, n + 1);
    }
  }

  /** `parse_connection_config`, as the loop it is. */
  method ParseConnectionConfig(o: Oracle, text: string) returns (r: Option<Config>)
    ensures r == Parse(o, text)
  {
    hide HeaderName, KeyNamed, Trim, BeforeHash, SplitOnce, InterfaceEntry, PeerEntry, Lower;
    var lines := Lines(text);
    ghost var items := Items(lines);
    var section, iface, peers, cur := NoSection, EMPTY_IFACE, [], EMPTY_PEER;
    var i := 0;
    assert items[..0] == [];
    while i < |lines|
      invariant 0 <= i <= |lines|
      invariant Scan(o, items[..i]) == Some(Acc(section, iface, peers, cur))
    {
      ghost var acc := Acc(section, iface, peers, cur);
      var line := Trim(BeforeHash(lines[i]));
      i := i + 1;
      assert items[..i][..i - 1] == items[..i - 1] && items[i - 1] == Classify(lines[i - 1]);
      assert Scan(o, items[..i]) == Step(o, acc, items[i - 1]);
      if Step(o, acc, items[i - 1]).None? { ScanFailsForGood(o, items, i); }
      if line == [] {
        continue;
      }
      if line[0] == '[' {
        var name := HeaderName(line);
        if name != Some("interface") && name != Some("peer") {
          return None;
        }
        if section == InPeer {
          var peer := FlushPeer(cur);
          if peer.None? {
            return None;
          }
          peers, cur := peers + [peer.value], EMPTY_PEER;
        }
        section := if name == Some("interface") then InInterface else InPeer;
        continue;
      }
      var kv := SplitOnce(line, '=');
      if kv.None? {
        return None;
      }
      var key, value := KeyNamed(Lower(Trim(kv.value.0))), Trim(kv.value.1);
      if value == [] {
        continue;
      }
      match section {
        case InInterface =>
          var a := InterfaceEntry(o, iface, key, value);
          if a.None? { return None; }
          iface := a.value;
        case InPeer =>
          var p := PeerEntry(o, cur, key, value);
          if p.None? { return None; }
          cur := p.value;
        case NoSection =>
          return None;
      }
    }
    assert items[..|lines|] == items;
    if section == InPeer {
      var peer := FlushPeer(cur);
      if peer.None? {
        return None;
      }
      peers, cur := peers + [peer.value], EMPTY_PEER;
    }
    if iface.privateKey.None? || iface.addresses == [] || peers == [] {
      return None;
    }
    r := Some(Config(iface.privateKey.value, iface.addresses, iface.dnsServers, iface.mtu,
                     iface.preUp, iface.postUp, iface.preDown, iface.postDown, peers));
  }

}
