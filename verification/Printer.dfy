/** `generate_config`, and that the parser undoes it. */
module Printer {
  import opened Prelude
  import opened Cidr
  import opened Text
  import opened ConfParser
  import opened ConfValues
  import opened ConfSpelling
  import MtuRewrite
  import MtuMeaning

  datatype Params = Params(privateKey: string, addresses: seq<string>, dnsServers: seq<string>, mtu: Option<nat>,
                           serverPublicKey: string, serverIp: string, serverPort: nat,
                           presharedKey: Option<string>, allowedIps: string)

  function Join(xs: seq<string>): string {
    if xs == [] then [] else if |xs| == 1 then xs[0] else xs[0] + ", " + Join(xs[1..])
  }

  function Line(key: string, value: string): string { key + " = " + value }

  function InterfaceLines(p: Params): seq<string> {
    ["[Interface]", Line("PrivateKey", p.privateKey), Line("Address", Join(p.addresses)), Line("DNS", Join(p.dnsServers))]
    + if p.mtu.Some? then [Line("MTU", PrintDec(p.mtu.value))] else []
  }

  function PeerLines(p: Params): seq<string> {
    ["", "[Peer]", Line("PublicKey", p.serverPublicKey)]
    + (if p.presharedKey.Some? then [Line("PresharedKey", p.presharedKey.value)] else [])
    + [Line("AllowedIPs", p.allowedIps), Line("Endpoint", p.serverIp + ":" + PrintDec(p.serverPort))]
  }

  function Generate(p: Params): string { Unlines(InterfaceLines(p) + PeerLines(p)) }

  /** `generate_config`, appending to a string step by step. */
  method GenerateConfig(p: Params) returns (config: string)
    ensures config == Generate(p)
  {
    hide Unlines;
    ghost var lines;
    lines, config := WriteInterface(p);
    lines, config := Append(lines, config, "");
    lines, config := Append(lines, config, "[Peer]");
    lines, config := Append(lines, config, Line("PublicKey", p.serverPublicKey));
    if p.presharedKey.Some? {
      lines, config := Append(lines, config, Line("PresharedKey", p.presharedKey.value));
    }
    lines, config := Append(lines, config, Line("AllowedIPs", p.allowedIps));
    lines, config := Append(lines, config, Line("Endpoint", p.serverIp + ":" + PrintDec(p.serverPort)));
    assert lines == InterfaceLines(p) + PeerLines(p);
  }

  method WriteInterface(p: Params) returns (ghost lines: seq<string>, config: string)
    ensures lines == InterfaceLines(p) && config == Unlines(lines)
  {
    var addresses := Join(p.addresses);
    var dns := Join(p.dnsServers);
    lines, config := ["[Interface]"], "[Interface]\n";
    assert Unlines(lines) == Unlines(lines[..0]) + "[Interface]" + "\n";
    hide Unlines;
    lines, config := Append(lines, config, Line("PrivateKey", p.privateKey));
    lines, config := Append(lines, config, Line("Address", addresses));
    lines, config := Append(lines, config, Line("DNS", dns));
    if p.mtu.Some? {
      lines, config := Append(lines, config, Line("MTU", PrintDec(p.mtu.value)));
    }
  }

  /** One line more. */
  method Append(ghost lines: seq<string>, config: string, line: string)
    returns (ghost lines': seq<string>, config': string)
    requires config == Unlines(lines)
    ensures lines' == lines + [line] && config' == Unlines(lines')
  {
    lines' := lines + [line];
    config' := config + line + "\n";
    assert lines'[..|lines|] == lines;
  }

  // ---- lists ---------------------------------------------------------------------------

  predicate SameTrimmed(xs: seq<string>, ys: seq<string>) {
    |xs| == |ys| && forall i :: 0 <= i < |xs| ==> Trim(xs[i]) == Trim(ys[i])
  }

  lemma {:induction false} NonEmptyOfTrimmed(xs: seq<string>, ys: seq<string>)
    requires SameTrimmed(xs, ys)
    ensures NonEmpty(xs) == NonEmpty(ys)
  {
    if xs != [] { NonEmptyOfTrimmed(xs[..|xs| - 1], ys[..|ys| - 1]); }
  }

  lemma SplitConcat(a: string, b: string)
    requires ',' !in a
    ensures Split(a + [','] + b, ',') == [a] + Split(b, ',')
  {
    var s := a + [','] + b;
    IndexOfConcat(a, ',', b);
    assert s[..|a|] == a && s[|a| + 1..] == b;
  }

  lemma SplitWhole(a: string)
    requires ',' !in a
    ensures Split(a, ',') == [a]
  {
  }

  lemma SplitCases(s: string) returns (a: string, b: string)
    ensures ',' !in a && (s == a || (s == a + [','] + b && |b| < |s|))
  {
    var i := IndexOf(s, ',');
    a := s[..i];
    if i < |s| {
      b := s[i + 1..];
      assert s == a + [','] + b;
    } else {
      b := [];
    }
  }

  lemma SameTrimmedCons(x: string, y: string, xs: seq<string>, ys: seq<string>)
    requires Trim(x) == Trim(y) && SameTrimmed(xs, ys)
    ensures SameTrimmed([x] + xs, [y] + ys)
  {
  }

  lemma SplitPadded(pad: string, s: string)
    requires AllSpaces(pad)
    ensures SameTrimmed(Split(pad + s, ','), Split(s, ','))
  {
    hide Split, Trim, IndexOf;
    var a, b := SplitCases(s);
    assert ',' !in pad + a;
    assert pad + a == pad + a + [];
    TrimIgnoresPadding(pad, a, []);
    SplitWhole(pad + a);
    SplitWhole(a);
    if s != a {
      assert pad + s == (pad + a) + [','] + b;
      SplitConcat(pad + a, b);
      SplitConcat(a, b);
      SameTrimmedCons(pad + a, a, Split(b, ','), Split(b, ','));
    }
  }

  lemma {:induction false} SplitTailed(s: string, tail: string)
    requires AllSpaces(tail)
    ensures SameTrimmed(Split(s + tail, ','), Split(s, ','))
    decreases |s|
  {
    hide Split, Trim, IndexOf;
    var a, b := SplitCases(s);
    if s == a {
      assert ',' !in s + tail;
      SplitWhole(s + tail);
      SplitWhole(s);
      assert s + tail == [] + s + tail;
      TrimIgnoresPadding([], s, tail);
    } else {
      assert s + tail == a + [','] + (b + tail);
      SplitConcat(a, b + tail);
      SplitConcat(a, b);
      SplitTailed(b, tail);
      SameTrimmedCons(a, a, Split(b + tail, ','), Split(b, ','));
    }
  }

  lemma SameTrimmedTrans(xs: seq<string>, ys: seq<string>, zs: seq<string>)
    requires SameTrimmed(xs, ys) && SameTrimmed(ys, zs)
    ensures SameTrimmed(xs, zs)
  {
  }

  /** Spaces around a list do not matter. */
  lemma SplitCsvTrimmed(s: string)
    ensures SplitCsv(Trim(s)) == SplitCsv(s)
  {
    var pad, tail := TrimParts(s);
    var t := Trim(s);
    SplitTailed(t, tail);
    SplitPadded(pad, t + tail);
    assert s == pad + (t + tail);
    SameTrimmedTrans(Split(s, ','), Split(t + tail, ','), Split(t, ','));
    NonEmptyOfTrimmed(Split(s, ','), Split(t, ','));
  }

  predicate NoCommas(xs: seq<string>) { forall i :: 0 <= i < |xs| ==> ',' !in xs[i] }

  lemma {:induction false} SplitJoined(xs: seq<string>)
    requires NoCommas(xs) && xs != []
    ensures SameTrimmed(Split(Join(xs), ','), xs)
  {
    if |xs| == 1 {
      SplitWhole(xs[0]);
      assert [xs[0]] == xs;
    } else {
      var rest := Join(xs[1..]);
      assert Join(xs) == xs[0] + [','] + ([' '] + rest);
      SplitConcat(xs[0], [' '] + rest);
      SplitJoined(xs[1..]);
      SplitPadded([' '], rest);
      SameTrimmedTrans(Split([' '] + rest, ','), Split(rest, ','), xs[1..]);
      SameTrimmedCons(xs[0], xs[0], Split([' '] + rest, ','), xs[1..]);
      assert xs == [xs[0]] + xs[1..];
    }
  }

  /** A printed list reads back as its items, trimmed, empty ones dropped. */
  lemma JoinedListReadsBack(xs: seq<string>)
    requires NoCommas(xs)
    ensures SplitCsv(Trim(Join(xs))) == NonEmpty(xs)
  {
    SplitCsvTrimmed(Join(xs));
    if xs == [] {
      assert Split([], ',') == [[]];
      assert NonEmpty([[]]) == NonEmpty([[]][..0]) == [];
    } else {
      SplitJoined(xs);
      NonEmptyOfTrimmed(Split(Join(xs), ','), xs);
    }
  }

  // ---- what the lines say ------------------------------------------------------------------

  predicate Clean(s: string) { '\n' !in s && '#' !in s }

  predicate AllClean(xs: seq<string>) { forall i :: 0 <= i < |xs| ==> Clean(xs[i]) }

  predicate Printable(p: Params) {
    && Clean(p.privateKey) && Clean(p.serverPublicKey) && Clean(p.serverIp) && Clean(p.allowedIps)
    && (p.presharedKey.Some? ==> Clean(p.presharedKey.value))
    && AllClean(p.addresses) && AllClean(p.dnsServers) && NoCommas(p.addresses) && NoCommas(p.dnsServers)
    && (p.mtu.Some? ==> p.mtu.value < 0x10000) && p.serverPort < 0x10000
  }

  lemma {:induction false} JoinClean(xs: seq<string>)
    requires AllClean(xs)
    ensures Clean(Join(xs))
  {
    if |xs| > 1 {
      JoinClean(xs[1..]);
      assert '\n' !in ", " && '#' !in ", ";
    }
  }

  lemma DecClean(n: nat)
    ensures Clean(PrintDec(n)) && ':' !in PrintDec(n) && Trim(PrintDec(n)) == PrintDec(n) && TrimEnd(PrintDec(n)) == PrintDec(n)
    ensures PrintDec(n) != []
  {
    var d := PrintDec(n);
    PrintDecParses(n);
    assert forall i :: 0 <= i < |d| ==> IsDigit(d[i]);
    assert d == [] + d + [];
    TrimIs([], d, []);
  }

  lemma LineSays(key: string, value: string, k: Key)
    requires key != [] && !IsSpace(key[0]) && !IsSpace(key[|key| - 1]) && key[0] != '[' && '#' !in key && '=' !in key
    requires KeyNamed(Lower(key)) == k && '#' !in value
    ensures Classify(Line(key, value)) == Entry(k, Trim(value))
  {
    assert Line(key, value) == (key + " ") + "=" + (" " + value);
    assert key + " " == [] + key + " ";
    TrimIs([], key, " ");
    assert " " + value == " " + value + [];
    TrimIgnoresPadding(" ", value, []);
    EntryLine(key + " ", " " + value);
  }

  function InterfaceItems(p: Params): seq<Item> {
    [InterfaceHeader, Entry(PrivateKey, Trim(p.privateKey)), Entry(Address, Trim(Join(p.addresses))),
     Entry(Dns, Trim(Join(p.dnsServers)))]
    + if p.mtu.Some? then [Entry(Mtu, PrintDec(p.mtu.value))] else []
  }

  function EndpointText(p: Params): string { TrimStart(p.serverIp) + ":" + PrintDec(p.serverPort) }

  function PeerItems(p: Params): seq<Item> {
    [Blank, PeerHeader, Entry(PublicKey, Trim(p.serverPublicKey))]
    + (if p.presharedKey.Some? then [Entry(PresharedKey, Trim(p.presharedKey.value))] else [])
    + [Entry(AllowedIps, Trim(p.allowedIps)), Entry(Endpoint, EndpointText(p))]
  }

  lemma InterfaceHeaderSays()
    ensures Classify("[Interface]") == InterfaceHeader
  {
    assert "[Interface]" == [] + "[Interface]" + [];
    TrimIs([], "[Interface]", []);
    assert Lower("[Interface]") == "[interface]";
    MtuRewrite.PlainHeaderIsHeader("[Interface]");
  }

  lemma PeerHeaderTrimmed()
    ensures BeforeHash("[Peer]") == "[Peer]" && Trim("[Peer]") == "[Peer]"
  {
    hide Trim;
    assert "[Peer]" == [] + "[Peer]" + [];
    TrimIs([], "[Peer]", []);
  }

  lemma PeerHeaderName()
    ensures HeaderName("[Peer]") == Some("peer")
  {
    hide StripSpaces;
    MtuRewrite.StripSpacesKeeps("[Peer]");
    assert "[Peer]"[1..5] == "Peer";
    assert Lower("Peer") == "peer";
  }

  lemma PeerHeaderSays()
    ensures Classify("[Peer]") == PeerHeader
  {
    hide Trim, BeforeHash, HeaderName, SplitOnce, KeyNamed;
    PeerHeaderTrimmed();
    PeerHeaderName();
  }

  lemma ItemsConcat(xs: seq<string>, ys: seq<string>)
    ensures Items(xs + ys) == Items(xs) + Items(ys)
  {
  }

  lemma ItemsOne(line: string, item: Item)
    requires Classify(line) == item
    ensures Items([line]) == [item]
  {
  }

  lemma PrivateKeySays(v: string)
    requires '#' !in v
    ensures Items([Line("PrivateKey", v)]) == [Entry(PrivateKey, Trim(v))]
  {
    assert Lower("PrivateKey") == "privatekey";
    LineSays("PrivateKey", v, PrivateKey);
  }

  lemma AddressSays(v: string)
    requires '#' !in v
    ensures Items([Line("Address", v)]) == [Entry(Address, Trim(v))]
  {
    assert Lower("Address") == "address";
    LineSays("Address", v, Address);
  }

  lemma DnsSays(v: string)
    requires '#' !in v
    ensures Items([Line("DNS", v)]) == [Entry(Dns, Trim(v))]
  {
    assert Lower("DNS") == "dns";
    LineSays("DNS", v, Dns);
  }

  lemma MtuSays(v: string)
    requires '#' !in v
    ensures Items([Line("MTU", v)]) == [Entry(Mtu, Trim(v))]
  {
    assert Lower("MTU") == "mtu";
    LineSays("MTU", v, Mtu);
  }

  lemma PublicKeySays(v: string)
    requires '#' !in v
    ensures Items([Line("PublicKey", v)]) == [Entry(PublicKey, Trim(v))]
  {
    assert Lower("PublicKey") == "publickey";
    LineSays("PublicKey", v, PublicKey);
  }

  lemma PresharedKeySays(v: string)
    requires '#' !in v
    ensures Items([Line("PresharedKey", v)]) == [Entry(PresharedKey, Trim(v))]
  {
    assert Lower("PresharedKey") == "presharedkey";
    LineSays("PresharedKey", v, PresharedKey);
  }

  lemma AllowedIpsSays(v: string)
    requires '#' !in v
    ensures Items([Line("AllowedIPs", v)]) == [Entry(AllowedIps, Trim(v))]
  {
    hide Classify;
    assert Lower("AllowedIPs") == "allowedips";
    LineSays("AllowedIPs", v, AllowedIps);
  }

  lemma EndpointSays(v: string)
    requires '#' !in v
    ensures Items([Line("Endpoint", v)]) == [Entry(Endpoint, Trim(v))]
  {
    assert Lower("Endpoint") == "endpoint";
    LineSays("Endpoint", v, Endpoint);
  }

  lemma InterfaceLinesSay(p: Params)
    requires Printable(p)
    ensures Items(InterfaceLines(p)) == InterfaceItems(p)
  {
    hide Classify, Items;
    InterfaceHeaderSays();
    ItemsOne("[Interface]", InterfaceHeader);
    JoinClean(p.addresses);
    JoinClean(p.dnsServers);
    var l2, l3, l4 := Line("PrivateKey", p.privateKey), Line("Address", Join(p.addresses)), Line("DNS", Join(p.dnsServers));
    PrivateKeySays(p.privateKey);
    AddressSays(Join(p.addresses));
    DnsSays(Join(p.dnsServers));
    ItemsConcat(["[Interface]"], [l2]);
    ItemsConcat(["[Interface]"] + [l2], [l3]);
    ItemsConcat(["[Interface]"] + [l2] + [l3], [l4]);
    var front := ["[Interface]"] + [l2] + [l3] + [l4];
    if p.mtu.Some? {
      DecClean(p.mtu.value);
      MtuSays(PrintDec(p.mtu.value));
      ItemsConcat(front, [Line("MTU", PrintDec(p.mtu.value))]);
      assert InterfaceLines(p) == front + [Line("MTU", PrintDec(p.mtu.value))];
    } else {
      assert InterfaceLines(p) == front;
    }
  }

  lemma EndpointValue(p: Params)
    requires Printable(p)
    ensures Trim(p.serverIp + ":" + PrintDec(p.serverPort)) == EndpointText(p)
    ensures '#' !in p.serverIp + ":" + PrintDec(p.serverPort)
  {
    var d := PrintDec(p.serverPort);
    DecClean(p.serverPort);
    TrimKeepsMiddle(p.serverIp, ':', d);
    assert p.serverIp + ":" + d == p.serverIp + [':'] + d;
    assert EndpointText(p) == TrimStart(p.serverIp) + [':'] + d;
  }

  lemma PeerHeaderItems()
    ensures Items(["", "[Peer]"]) == [Blank, PeerHeader]
  {
    PeerHeaderSays();
    BlankSays();
    hide Classify;
  }

  lemma BlankSays()
    ensures Classify("") == Blank
  {
  }

  lemma PeerLinesSay(p: Params)
    requires Printable(p)
    ensures Items(PeerLines(p)) == PeerItems(p)
  {
    hide Classify, Items;
    PeerHeaderItems();
    PublicKeySays(p.serverPublicKey);
    AllowedIpsSays(p.allowedIps);
    var endpoint := p.serverIp + ":" + PrintDec(p.serverPort);
    EndpointValue(p);
    EndpointSays(endpoint);
    var l3, l5, l6 := Line("PublicKey", p.serverPublicKey), Line("AllowedIPs", p.allowedIps), Line("Endpoint", endpoint);
    ItemsConcat(["", "[Peer]"], [l3]);
    var front := ["", "[Peer]"] + [l3];
    if p.presharedKey.Some? {
      PresharedKeySays(p.presharedKey.value);
      ItemsConcat(front, [Line("PresharedKey", p.presharedKey.value)]);
      front := front + [Line("PresharedKey", p.presharedKey.value)];
    }
    ItemsConcat(front, [l5]);
    ItemsConcat(front + [l5], [l6]);
    assert PeerLines(p) == front + [l5] + [l6];
  }

  lemma LineClean(key: string, value: string)
    requires '\n' !in key && '\n' !in value
    ensures '\n' !in Line(key, value)
  {
  }

  lemma LinesClean(p: Params)
    requires Printable(p)
    ensures NoNewlines(InterfaceLines(p) + PeerLines(p))
  {
    hide Line, Join, PrintDec, AllClean;
    JoinClean(p.addresses);
    JoinClean(p.dnsServers);
    DecClean(p.serverPort);
    LineClean("PrivateKey", p.privateKey);
    LineClean("Address", Join(p.addresses));
    LineClean("DNS", Join(p.dnsServers));
    if p.mtu.Some? {
      DecClean(p.mtu.value);
      LineClean("MTU", PrintDec(p.mtu.value));
    }
    LineClean("PublicKey", p.serverPublicKey);
    if p.presharedKey.Some? { LineClean("PresharedKey", p.presharedKey.value); }
    LineClean("AllowedIPs", p.allowedIps);
    LineClean("Endpoint", p.serverIp + ":" + PrintDec(p.serverPort));
  }

  lemma ParseGenerated(o: Oracle, p: Params)
    requires Printable(p)
    ensures Parse(o, Generate(p)) == ParseItems(o, InterfaceItems(p) + PeerItems(p))
  {
    hide Items, InterfaceLines, PeerLines, Printable, InterfaceItems, PeerItems;
    LinesClean(p);
    InterfaceLinesSay(p);
    PeerLinesSay(p);
    MtuMeaning.ParseUnlines(o, InterfaceLines(p) + PeerLines(p));
    ItemsConcat(InterfaceLines(p), PeerLines(p));
  }

  // ---- the direct reading ----------------------------------------------------------------

  /** A single-valued field: absent when blank, else it must parse. */
  datatype Field<T> = Absent | Bad | Good(value: T)

  function ReadField<T>(f: string -> Option<T>, text: string): Field<T> {
    if Trim(text) == [] then Absent
    else
      match f(Trim(text))
      case Some(v) => Good(v)
      case None => Bad
  }

  function ToOption<T>(field: Field<T>): Option<T> {
    match field
    case Good(v) => Some(v)
    case _ => None
  }

  function DirectInterface(o: Oracle, p: Params): Option<IfaceAcc> {
    var key := ReadField(o.key, p.privateKey);
    var nets, ips := ParseAll(o.net, NonEmpty(p.addresses)), ParseAll(o.ip, NonEmpty(p.dnsServers));
    if key.Bad? || nets.None? || ips.None? || (p.mtu.Some? && p.mtu.value < MIN_MTU) then None
    else Some(IfaceAcc(ToOption(key), nets.value, ips.value, p.mtu, [], [], [], []))
  }

  function DirectEndpoint(o: Oracle, p: Params): Option<SockAddr> {
    var host := TrimBrackets(TrimStart(p.serverIp));
    if o.sock(EndpointText(p)).Some? then o.sock(EndpointText(p))
    else if o.ip(host).Some? then Some(SockAddr(o.ip(host).value, p.serverPort))
    else o.resolve(host, p.serverPort)
  }

  function DirectPeer(o: Oracle, p: Params): Option<PeerAcc> {
    var key := ReadField(o.key, p.serverPublicKey);
    var psk := if p.presharedKey.Some? then ReadField(o.key, p.presharedKey.value) else Absent;
    var nets := ParseAll(o.net, SplitCsv(p.allowedIps));
    var endpoint := DirectEndpoint(o, p);
    if key.Bad? || psk.Bad? || nets.None? || endpoint.None? then None
    else Some(PeerAcc(ToOption(key), ToOption(psk), nets.value, endpoint, Some(EndpointText(p)), None))
  }

  /** What the parameters mean as a configuration, without any text. */
  function Direct(o: Oracle, p: Params): Option<Config> {
    var a, q := DirectInterface(o, p), DirectPeer(o, p);
    if a.None? || q.None? || FlushPeer(q.value).None? || a.value.privateKey.None? || a.value.addresses == [] then None
    else Some(Config(a.value.privateKey.value, a.value.addresses, a.value.dnsServers, a.value.mtu,
                     [], [], [], [], [FlushPeer(q.value).value]))
  }

  function Next(o: Oracle, acc: Option<Acc>, item: Item): Option<Acc> {
    if acc.None? then None else Step(o, acc.value, item)
  }

  lemma ScanNext(o: Oracle, items: seq<Item>, item: Item)
    ensures Scan(o, items + [item]) == Next(o, Scan(o, items), item)
  {
    MtuMeaning.ScanAppend(o, items, item);
  }

  lemma EndpointReads(o: Oracle, p: Params)
    requires Printable(p)
    ensures ParseEndpoint(o, EndpointText(p)) == DirectEndpoint(o, p)
  {
    hide Trim, TrimStart, PrintDec, ParseU16, TrimBrackets;
    var host, d := TrimStart(p.serverIp), PrintDec(p.serverPort);
    var s := EndpointText(p);
    DecClean(p.serverPort);
    PrintedU16Parses(p.serverPort);
    assert s[|host|] == ':' && forall j :: |host| < j < |s| ==> s[j] == d[j - |host| - 1];
    assert LastIndexOf(s, ':') == |host|;
    assert s[..|host|] == host && s[|host| + 1..] == d;
  }

  lemma NonEmptyOfOne()
    ensures SplitCsv([]) == []
  {
    SplitWhole([]);
    var one: seq<string> := [[]];
    assert one[..0] == [] && NonEmpty(one[..0]) == [];
  }

  function InInterfaceAcc(a: IfaceAcc): Acc { Acc(InInterface, a, [], EMPTY_PEER) }

  lemma PrivateKeyStep(o: Oracle, a: IfaceAcc, text: string)
    requires a.privateKey == None
    ensures var f := ReadField(o.key, text);
            Step(o, InInterfaceAcc(a), Entry(PrivateKey, Trim(text))) ==
            if f.Bad? then None else Some(InInterfaceAcc(a.(privateKey := ToOption(f))))
  {
  }

  lemma EmptyPrefix<T>(xs: seq<T>)
    ensures [] + xs == xs
  {
  }

  lemma NothingParses(o: Oracle)
    ensures ParseAll(o.net, []) == Some([]) && ParseAll(o.ip, []) == Some([])
  {
  }

  lemma AddressStep(o: Oracle, a: IfaceAcc, xs: seq<string>)
    requires a.addresses == [] && NoCommas(xs)
    ensures var r := ParseAll(o.net, NonEmpty(xs));
            Step(o, InInterfaceAcc(a), Entry(Address, Trim(Join(xs)))) ==
            if r.None? then None else Some(InInterfaceAcc(a.(addresses := r.value)))
  {
    hide NonEmpty, Join, Trim, SplitCsv, ParseAll, NoCommas;
    JoinedListReadsBack(xs);
    NonEmptyOfOne();
    NothingParses(o);
    var r := ParseAll(o.net, NonEmpty(xs));
    if r.Some? { EmptyPrefix(r.value); }
  }

  lemma DnsStep(o: Oracle, a: IfaceAcc, xs: seq<string>)
    requires a.dnsServers == [] && NoCommas(xs)
    ensures var r := ParseAll(o.ip, NonEmpty(xs));
            Step(o, InInterfaceAcc(a), Entry(Dns, Trim(Join(xs)))) ==
            if r.None? then None else Some(InInterfaceAcc(a.(dnsServers := r.value)))
  {
    hide NonEmpty, Join, Trim, SplitCsv, ParseAll, NoCommas;
    JoinedListReadsBack(xs);
    NonEmptyOfOne();
    NothingParses(o);
    var r := ParseAll(o.ip, NonEmpty(xs));
    if r.Some? { EmptyPrefix(r.value); }
  }

  lemma MtuStep(o: Oracle, a: IfaceAcc, m: nat)
    requires m < 0x10000
    ensures Step(o, InInterfaceAcc(a), Entry(Mtu, PrintDec(m))) ==
            if m < MIN_MTU then None else Some(InInterfaceAcc(a.(mtu := Some(m))))
  {
    DecClean(m);
    PrintedU16Parses(m);
  }

  lemma InterfaceOpened(o: Oracle)
    ensures Scan(o, [InterfaceHeader]) == Some(InInterfaceAcc(EMPTY_IFACE))
  {
    assert Scan(o, []) == Some(EMPTY_ACC);
    ScanNext(o, [], InterfaceHeader);
    assert [] + [InterfaceHeader] == [InterfaceHeader];
  }

  lemma ScanInterface(o: Oracle, p: Params)
    requires Printable(p)
    ensures Scan(o, InterfaceItems(p)) ==
            if DirectInterface(o, p).None? then None else Some(InInterfaceAcc(DirectInterface(o, p).value))
  {
    hide Scan, Step, ReadField, ParseAll, NonEmpty, Join, Trim, PrintDec;
    var e2, e3, e4 := Entry(PrivateKey, Trim(p.privateKey)), Entry(Address, Trim(Join(p.addresses))), Entry(Dns, Trim(Join(p.dnsServers)));
    var i1 := [InterfaceHeader];
    InterfaceOpened(o);
    ScanNext(o, i1, e2);
    ScanNext(o, i1 + [e2], e3);
    ScanNext(o, i1 + [e2] + [e3], e4);
    var i4 := i1 + [e2] + [e3] + [e4];
    var a := EMPTY_IFACE;
    PrivateKeyStep(o, a, p.privateKey);
    a := a.(privateKey := ToOption(ReadField(o.key, p.privateKey)));
    AddressStep(o, a, p.addresses);
    var nets, ips := ParseAll(o.net, NonEmpty(p.addresses)), ParseAll(o.ip, NonEmpty(p.dnsServers));
    a := a.(addresses := if nets.Some? then nets.value else []);
    DnsStep(o, a, p.dnsServers);
    a := a.(dnsServers := if ips.Some? then ips.value else []);
    if p.mtu.Some? {
      MtuStep(o, a, p.mtu.value);
      ScanNext(o, i4, Entry(Mtu, PrintDec(p.mtu.value)));
      assert InterfaceItems(p) == i4 + [Entry(Mtu, PrintDec(p.mtu.value))];
    } else {
      assert InterfaceItems(p) == i4;
    }
  }

  /** The state inside the one peer section. */
  function InPeerAcc(a: IfaceAcc, cur: PeerAcc): Acc { Acc(InPeer, a, [], cur) }

  lemma PublicKeyStep(o: Oracle, a: IfaceAcc, cur: PeerAcc, text: string)
    requires cur.publicKey == None
    ensures var f := ReadField(o.key, text);
            Step(o, InPeerAcc(a, cur), Entry(PublicKey, Trim(text))) ==
            if f.Bad? then None else Some(InPeerAcc(a, cur.(publicKey := ToOption(f))))
  {
  }

  lemma PresharedKeyStep(o: Oracle, a: IfaceAcc, cur: PeerAcc, text: string)
    requires cur.presharedKey == None
    ensures var f := ReadField(o.key, text);
            Step(o, InPeerAcc(a, cur), Entry(PresharedKey, Trim(text))) ==
            if f.Bad? then None else Some(InPeerAcc(a, cur.(presharedKey := ToOption(f))))
  {
  }

  lemma AllowedIpsStep(o: Oracle, a: IfaceAcc, cur: PeerAcc, text: string)
    requires cur.allowedIps == []
    ensures var r := ParseAll(o.net, SplitCsv(text));
            Step(o, InPeerAcc(a, cur), Entry(AllowedIps, Trim(text))) ==
            if r.None? then None else Some(InPeerAcc(a, cur.(allowedIps := r.value)))
  {
    SplitCsvTrimmed(text);
    NonEmptyOfOne();
    hide Trim, SplitCsv;
    var r := ParseAll(o.net, SplitCsv(text));
    if r.Some? { EmptyPrefix(r.value); }
  }

  lemma EndpointStep(o: Oracle, a: IfaceAcc, cur: PeerAcc, p: Params)
    requires Printable(p)
    ensures Step(o, InPeerAcc(a, cur), Entry(Endpoint, EndpointText(p))) ==
            if DirectEndpoint(o, p).None? then None
            else Some(InPeerAcc(a, cur.(endpoint := DirectEndpoint(o, p), endpointLiteral := Some(EndpointText(p)))))
  {
    EndpointReads(o, p);
  }

  function PeerKeysAcc(o: Oracle, p: Params): Option<PeerAcc> {
    var key := ReadField(o.key, p.serverPublicKey);
    var psk := if p.presharedKey.Some? then ReadField(o.key, p.presharedKey.value) else Absent;
    if key.Bad? || psk.Bad? then None
    else Some(EMPTY_PEER.(publicKey := ToOption(key), presharedKey := ToOption(psk)))
  }

  function PeerKeyItems(p: Params): seq<Item> {
    [Blank, PeerHeader, Entry(PublicKey, Trim(p.serverPublicKey))]
    + if p.presharedKey.Some? then [Entry(PresharedKey, Trim(p.presharedKey.value))] else []
  }

  lemma ScanPeerKeys(o: Oracle, p: Params, front: seq<Item>, a: IfaceAcc)
    requires Scan(o, front) == Some(InInterfaceAcc(a))
    ensures Scan(o, front + PeerKeyItems(p)) ==
            if PeerKeysAcc(o, p).None? then None else Some(InPeerAcc(a, PeerKeysAcc(o, p).value))
  {
    var e3 := Entry(PublicKey, Trim(p.serverPublicKey));
    assert Step(o, InInterfaceAcc(a), Blank) == Some(InInterfaceAcc(a));
    assert Step(o, InInterfaceAcc(a), PeerHeader) == Some(InPeerAcc(a, EMPTY_PEER));
    hide Scan, Step, ReadField, Trim;
    var i2 := front + [Blank] + [PeerHeader];
    ScanNext(o, front, Blank);
    ScanNext(o, front + [Blank], PeerHeader);
    ScanNext(o, i2, e3);
    var q := EMPTY_PEER;
    PublicKeyStep(o, a, q, p.serverPublicKey);
    q := q.(publicKey := ToOption(ReadField(o.key, p.serverPublicKey)));
    if p.presharedKey.Some? {
      var e4 := Entry(PresharedKey, Trim(p.presharedKey.value));
      ScanNext(o, i2 + [e3], e4);
      PresharedKeyStep(o, a, q, p.presharedKey.value);
      assert front + PeerKeyItems(p) == i2 + [e3] + [e4];
    } else {
      assert front + PeerKeyItems(p) == i2 + [e3];
    }
  }

  lemma ScanPeer(o: Oracle, p: Params, front: seq<Item>, a: IfaceAcc)
    requires Printable(p) && Scan(o, front) == Some(InInterfaceAcc(a))
    ensures Scan(o, front + PeerItems(p)) ==
            if DirectPeer(o, p).None? then None else Some(InPeerAcc(a, DirectPeer(o, p).value))
  {
    hide Scan, Step, ReadField, ParseAll, SplitCsv, Trim, EndpointText, DirectEndpoint, Printable;
    var e5, e6 := Entry(AllowedIps, Trim(p.allowedIps)), Entry(Endpoint, EndpointText(p));
    ScanPeerKeys(o, p, front, a);
    var keys := front + PeerKeyItems(p);
    ScanNext(o, keys, e5);
    ScanNext(o, keys + [e5], e6);
    assert front + PeerItems(p) == keys + [e5] + [e6];
    if PeerKeysAcc(o, p).Some? {
      var q := PeerKeysAcc(o, p).value;
      AllowedIpsStep(o, a, q, p.allowedIps);
      var nets := ParseAll(o.net, SplitCsv(p.allowedIps));
      if nets.Some? {
        EndpointStep(o, a, q.(allowedIps := nets.value), p);
      }
    }
  }

  lemma ScanFails(o: Oracle, front: seq<Item>, more: seq<Item>)
    requires Scan(o, front).None?
    ensures Scan(o, front + more).None?
  {
    assert (front + more)[..|front|] == front;
    ScanFailsForGood(o, front + more, |front|);
  }

  lemma FinishPeer(a: IfaceAcc, q: PeerAcc)
    ensures Finish(InPeerAcc(a, q)) ==
            if FlushPeer(q).None? || a.privateKey.None? || a.addresses == [] then None
            else Some(Config(a.privateKey.value, a.addresses, a.dnsServers, a.mtu, a.preUp, a.postUp, a.preDown, a.postDown,
                             [FlushPeer(q).value]))
  {
    if FlushPeer(q).Some? { assert [] + [FlushPeer(q).value] == [FlushPeer(q).value]; }
  }

  lemma DirectHasNoHooks(o: Oracle, p: Params)
    ensures var a := DirectInterface(o, p);
            a.Some? ==> a.value.preUp == a.value.postUp == a.value.preDown == a.value.postDown == []
  {
  }

  /** The parser reads a printed configuration as exactly what its parameters
      mean, and rejects it exactly when they mean nothing. */
  lemma GeneratedMeansDirect(o: Oracle, p: Params)
    requires Printable(p)
    ensures Parse(o, Generate(p)) == Direct(o, p)
  {
    hide Generate, Printable, Scan, DirectInterface, DirectPeer, InterfaceItems, PeerItems;
    ParseGenerated(o, p);
    ScanInterface(o, p);
    DirectHasNoHooks(o, p);
    var front := InterfaceItems(p);
    if DirectInterface(o, p).None? {
      ScanFails(o, front, PeerItems(p));
    } else {
      ScanPeer(o, p, front, DirectInterface(o, p).value);
      if DirectPeer(o, p).Some? { FinishPeer(DirectInterface(o, p).value, DirectPeer(o, p).value); }
    }
  }

  // ---- the round trip -----------------------------------------------------------------------

  predicate Tidy(s: string) { s != [] && Trim(s) == s && TrimStart(s) == s }

  predicate AllTidy(xs: seq<string>) { forall i :: 0 <= i < |xs| ==> Tidy(xs[i]) }

  lemma {:induction false} NonEmptyOfTidy(xs: seq<string>)
    requires AllTidy(xs)
    ensures NonEmpty(xs) == xs
  {
    if xs != [] {
      NonEmptyOfTidy(xs[..|xs| - 1]);
      assert xs == xs[..|xs| - 1] + [xs[|xs| - 1]];
    }
  }

  /** Text that is the printed form of a configuration's values: each item
      parses to the value it stands for. The host may be an IPv6 address
      without brackets: then `host:port` is no socket address, and the last
      colon is the one that counts. */
  ghost predicate Prints(o: Oracle, p: Params, c: Config) {
    && |c.peers| == 1
    && c.preUp == c.postUp == c.preDown == c.postDown == []
    && var q := c.peers[0];
    && Tidy(p.privateKey) && o.key(p.privateKey) == Some(c.privateKey)
    && AllTidy(p.addresses) && p.addresses != [] && ReadAs(o.net, p.addresses, c.addresses)
    && AllTidy(p.dnsServers) && ReadAs(o.ip, p.dnsServers, c.dnsServers)
    && p.mtu == c.mtu && (p.mtu.Some? ==> MIN_MTU <= p.mtu.value)
    && Tidy(p.serverPublicKey) && o.key(p.serverPublicKey) == Some(q.publicKey)
    && (p.presharedKey.Some? ==> Tidy(p.presharedKey.value) && q.presharedKey.Some? && o.key(p.presharedKey.value) == q.presharedKey)
    && (p.presharedKey.None? ==> q.presharedKey == None)
    && ReadAs(o.net, SplitCsv(p.allowedIps), q.allowedIps) && q.allowedIps != []
    && Tidy(p.serverIp) && TrimBrackets(p.serverIp) == p.serverIp
    && q.endpoint.Some? && o.ip(p.serverIp) == Some(q.endpoint.value.ip) && p.serverPort == q.endpoint.value.port
    && (o.sock(EndpointText(p)) == None || o.sock(EndpointText(p)) == q.endpoint)
    && q.endpointLiteral == Some(p.serverIp + ":" + PrintDec(p.serverPort))
    && q.keepalive == None
  }

  lemma PrintedInterface(o: Oracle, p: Params, c: Config)
    requires Prints(o, p, c)
    ensures DirectInterface(o, p) == Some(IfaceAcc(Some(c.privateKey), c.addresses, c.dnsServers, c.mtu, [], [], [], []))
    ensures c.addresses != []
  {
    hide Trim, TrimStart, PrintDec, SplitCsv, TrimBrackets;
    NonEmptyOfTidy(p.addresses);
    NonEmptyOfTidy(p.dnsServers);
    ListReadIs(o.net, p.addresses, c.addresses);
    ListReadIs(o.ip, p.dnsServers, c.dnsServers);
  }

  lemma PrintedPeer(o: Oracle, p: Params, c: Config)
    requires Prints(o, p, c)
    ensures var q := c.peers[0];
            DirectPeer(o, p) == Some(PeerAcc(Some(q.publicKey), q.presharedKey, q.allowedIps, q.endpoint, q.endpointLiteral, None))
  {
    hide ParseAll, SplitCsv, PrintDec;
    ListReadIs(o.net, SplitCsv(p.allowedIps), c.peers[0].allowedIps);
    assert DirectEndpoint(o, p) == c.peers[0].endpoint;
  }

  /** Printer and parser undo each other. Keys may contain `=`: only the first
      one of a line separates. */
  lemma PrintedConfigReadsBack(o: Oracle, p: Params, c: Config)
    requires Printable(p) && Prints(o, p, c)
    ensures Parse(o, Generate(p)) == Some(c)
  {
    hide ParseAll, Trim, TrimStart, SplitCsv, TrimBrackets, PrintDec, NonEmpty;
    GeneratedMeansDirect(o, p);
    PrintedInterface(o, p, c);
    PrintedPeer(o, p, c);
    assert c.preUp == c.postUp == c.preDown == c.postDown == [] && c.peers[0].keepalive == None by { hide ParseAll, Trim; }
    hide Prints, Printable, Generate, DirectInterface, DirectPeer, Parse;
    assert c.peers == [c.peers[0]];
  }
}
