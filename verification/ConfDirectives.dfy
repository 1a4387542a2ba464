/** What a configuration text says, directive by directive and with their names
    spelled out: which lines set each field of an accepted text, and which lines
    make a text rejected. */
module ConfDirectives {
  import opened Prelude
  import opened Cidr
  import opened Text
  import opened ConfParser
  import opened ConfValues
  import opened ConfReading

  // ---- reading lines ---------------------------------------------------------------------

  /** A line without its comment and the spaces around it. */
  function Content(raw: string): string { Trim(BeforeHash(raw)) }

  predicate IsHeader(raw: string) { Content(raw) != [] && Content(raw)[0] == '[' }

  /** The name between the brackets of a header, spaces dropped, in lower case. */
  function Section(raw: string): Option<string> {
    var s := StripSpaces(Content(raw));
    if |s| >= 2 && s[0] == '[' && s[|s| - 1] == ']' then Some(Lower(s[1..|s| - 1])) else None
  }

  /** The line is `name = value` with a value. */
  predicate Gives(raw: string, name: string) {
    var i := IndexOf(Content(raw), '=');
    && !IsHeader(raw) && i < |Content(raw)|
    && Lower(Trim(Content(raw)[..i])) == name && Trim(Content(raw)[i + 1..]) != []
  }

  function ValueOf(raw: string): string
    requires IndexOf(Content(raw), '=') < |Content(raw)|
  {
    Trim(Content(raw)[IndexOf(Content(raw), '=') + 1..])
  }

  /** The section the lines end in. */
  function Within(lines: seq<string>): Option<string> {
    if lines == [] then None
    else if IsHeader(lines[|lines| - 1]) then Section(lines[|lines| - 1])
    else Within(lines[..|lines| - 1])
  }

  function PeerHeaders(lines: seq<string>): nat {
    if lines == [] then 0
    else
      var last := lines[|lines| - 1];
      PeerHeaders(lines[..|lines| - 1]) + if IsHeader(last) && Section(last) == Some("peer") then 1 else 0
  }

  /** The values given to `name` in interface sections, in file order. */
  function OfInterface(lines: seq<string>, name: string): seq<string> {
    if lines == [] then []
    else
      var front, last := lines[..|lines| - 1], lines[|lines| - 1];
      OfInterface(front, name) + if Gives(last, name) && Within(front) == Some("interface") then [ValueOf(last)] else []
  }

  /** The values given to `name` in the k-th peer section, counted from zero. */
  function OfPeer(lines: seq<string>, k: nat, name: string): seq<string> {
    if lines == [] then []
    else
      var front, last := lines[..|lines| - 1], lines[|lines| - 1];
      OfPeer(front, k, name) +
      if Gives(last, name) && Within(front) == Some("peer") && PeerHeaders(front) == k + 1 then [ValueOf(last)] else []
  }

  // ---- lines and items ------------------------------------------------------------------------

  /** `name` is how the directive `key` is written. */
  ghost predicate Spells(name: string, key: Key) { forall s :: KeyNamed(s) == key <==> s == name }

  /** Of each key, the one name that spells it. */
  function NameOf(key: Key): string {
    match key
    case PrivateKey => "privatekey"
    case Address => "address"
    case Dns => "dns"
    case Mtu => "mtu"
    case PreUp => "preup"
    case PostUp => "postup"
    case PreDown => "predown"
    case PostDown => "postdown"
    case ListenPort => "listenport"
    case FwMark => "fwmark"
    case Table => "table"
    case SaveConfig => "saveconfig"
    case PublicKey => "publickey"
    case PresharedKey => "presharedkey"
    case AllowedIps => "allowedips"
    case Endpoint => "endpoint"
    case PersistentKeepalive => "persistentkeepalive"
    case Unknown => ""
  }

  predicate Apart(s: string, t: string) { |s| != |t| || (s != [] && s[0] != t[0]) }

  /** The names differ in length or in their first letter. */
  lemma NamesApart(a: Key, b: Key)
    requires a != Unknown && b != Unknown && a != b
    ensures Apart(NameOf(a), NameOf(b))
  {
  }

  lemma KnownIsNamed(s: string)
    ensures KeyNamed(s) != Unknown ==> s == NameOf(KeyNamed(s))
  {
  }

  lemma UnknownIsNoName(s: string, key: Key)
    requires KeyNamed(s) == Unknown && key != Unknown
    ensures s != NameOf(key)
  {
  }

  lemma NameIsKnown(key: Key)
    requires key != Unknown
    ensures KeyNamed(NameOf(key)) == key
  {
    hide KeyNamed, NameOf;
    var s := NameOf(key);
    if KeyNamed(s) == Unknown { UnknownIsNoName(s, key); }
    KnownIsNamed(s);
    if KeyNamed(s) != key { NamesApart(KeyNamed(s), key); }
  }

  lemma NameIsSpelling(key: Key)
    requires key != Unknown
    ensures Spells(NameOf(key), key)
  {
    hide KeyNamed, NameOf;
    NameIsKnown(key);
    forall s
      ensures KeyNamed(s) == key <==> s == NameOf(key)
    {
      KnownIsNamed(s);
    }
  }

  lemma Names()
    ensures Spells("privatekey", PrivateKey) && Spells("address", Address) && Spells("dns", Dns) && Spells("mtu", Mtu)
    ensures Spells("preup", PreUp) && Spells("postup", PostUp) && Spells("predown", PreDown) && Spells("postdown", PostDown)
    ensures Spells("publickey", PublicKey) && Spells("presharedkey", PresharedKey) && Spells("allowedips", AllowedIps)
    ensures Spells("endpoint", Endpoint) && Spells("persistentkeepalive", PersistentKeepalive)
    ensures Spells("listenport", ListenPort) && Spells("fwmark", FwMark) && Spells("table", Table) && Spells("saveconfig", SaveConfig)
  {
    hide Spells, KeyNamed;
    forall key | key != Unknown ensures Spells(NameOf(key), key) { NameIsSpelling(key); }
    assert NameOf(PrivateKey) == "privatekey";
    assert NameOf(Address) == "address";
    assert NameOf(Dns) == "dns";
    assert NameOf(Mtu) == "mtu";
    assert NameOf(PreUp) == "preup";
    assert NameOf(PostUp) == "postup";
    assert NameOf(PreDown) == "predown";
    assert NameOf(PostDown) == "postdown";
    assert NameOf(ListenPort) == "listenport";
    assert NameOf(FwMark) == "fwmark";
    assert NameOf(Table) == "table";
    assert NameOf(SaveConfig) == "saveconfig";
    assert NameOf(PublicKey) == "publickey";
    assert NameOf(PresharedKey) == "presharedkey";
    assert NameOf(AllowedIps) == "allowedips";
    assert NameOf(Endpoint) == "endpoint";
    assert NameOf(PersistentKeepalive) == "persistentkeepalive";
  }

  /** A line read as an item. */
  lemma LineItem(raw: string)
    ensures IsHeader(raw) ==> Classify(raw) == if Section(raw) == Some("interface") then InterfaceHeader
                                               else if Section(raw) == Some("peer") then PeerHeader else BadHeader
    ensures !IsHeader(raw) && Content(raw) == [] ==> Classify(raw) == Blank
    ensures !IsHeader(raw) && Content(raw) != [] ==>
              var i := IndexOf(Content(raw), '=');
              Classify(raw) == if i == |Content(raw)| then Malformed
                               else Entry(KeyNamed(Lower(Trim(Content(raw)[..i]))), ValueOf(raw))
  {
    hide Trim, BeforeHash, StripSpaces, Lower, KeyNamed, IndexOf;
  }

  lemma GivesItem(raw: string, name: string, key: Key)
    requires Spells(name, key)
    ensures Gives(raw, name) <==> Classify(raw).Entry? && Classify(raw).key == key && Classify(raw).value != []
    ensures Gives(raw, name) ==> Classify(raw).value == ValueOf(raw)
  {
    hide Trim, BeforeHash, StripSpaces, Lower, KeyNamed, IndexOf, Classify;
    LineItem(raw);
  }

  // ---- lines and sections --------------------------------------------------------------------------

  lemma ItemsFront(lines: seq<string>)
    requires lines != []
    ensures Items(lines) == Items(lines[..|lines| - 1]) + [Classify(lines[|lines| - 1])]
  {
    hide Classify;
  }

  /** The section a line stands in, as the items see it. */
  ghost predicate InSections(lines: seq<string>) {
    var secs := SectionsOf(Items(lines)).sections;
    && (Within(lines) == Some("interface") <==> secs != [] && !secs[|secs| - 1].isPeer)
    && (Within(lines) == Some("peer") <==> secs != [] && secs[|secs| - 1].isPeer)
    && (Within(lines) == None <==> secs == [])
    && |PeerSections(secs)| == PeerHeaders(lines)
  }

  lemma {:induction false} WithinSections(lines: seq<string>)
    requires WellSpelled(Items(lines))
    ensures InSections(lines)
  {
    if lines != [] {
      WellSpelledFront(lines);
      WithinSections(lines[..|lines| - 1]);
      WithinStep(lines);
    }
  }

  lemma WithinStep(lines: seq<string>)
    requires lines != [] && WellSpelled(Items(lines)) && InSections(lines[..|lines| - 1])
    ensures InSections(lines)
  {
    hide Classify, IsHeader, Section, Content, SectionsOf, PeerSections, WellSpelled;
    var front, last := lines[..|lines| - 1], lines[|lines| - 1];
    ItemsFront(lines);
    WellSpelledFront(lines);
    LineItem(last);
    SectionsStep(Items(front), Classify(last));
  }

  lemma WellSpelledFront(lines: seq<string>)
    requires lines != [] && WellSpelled(Items(lines))
    ensures WellSpelled(Items(lines[..|lines| - 1])) && Classify(lines[|lines| - 1]) != BadHeader && Classify(lines[|lines| - 1]) != Malformed
  {
    hide Classify;
    ItemsFront(lines);
    assert Items(lines)[|lines| - 1] in Items(lines);
    assert forall x :: x in Items(lines)[..|lines| - 1] ==> x in Items(lines);
  }

  /** What one more item does to the sections. */
  ghost predicate Grown(secs: seq<Sect>, item: Item, secs': seq<Sect>) {
    match item
    case InterfaceHeader => secs' == secs + [Sect(false, [])]
    case PeerHeader => secs' == secs + [Sect(true, [])]
    case Entry(key, value) =>
      if value == [] || secs == [] then secs' == secs
      else
        var n := |secs| - 1;
        secs' == secs[..n] + [Sect(secs[n].isPeer, secs[n].body + [Directive(key, value)])]
    case _ => secs' == secs
  }

  lemma SectionsGrow(items: seq<Item>, item: Item)
    ensures Grown(SectionsOf(items).sections, item, SectionsOf(items + [item]).sections)
  {
    assert (items + [item])[..|items|] == items;
  }

  lemma GrownPeers(secs: seq<Sect>, item: Item, secs': seq<Sect>)
    requires Grown(secs, item, secs')
    ensures |PeerSections(secs')| == |PeerSections(secs)| + if item == PeerHeader then 1 else 0
  {
    LastSection(secs, Sect(true, []));
    LastSection(secs, Sect(false, []));
    if secs != [] && item.Entry? {
      var n := |secs| - 1;
      assert secs == secs[..n] + [secs[n]];
      LastSection(secs[..n], secs[n]);
      LastSection(secs[..n], Sect(secs[n].isPeer, secs[n].body + [Directive(item.key, item.value)]));
    }
  }

  lemma SectionsStep(items: seq<Item>, item: Item)
    ensures var secs, secs' := SectionsOf(items).sections, SectionsOf(items + [item]).sections;
            Grown(secs, item, secs')
    ensures var secs := SectionsOf(items).sections;
            && PeerSections(secs + [Sect(true, [])]) == PeerSections(secs) + [Sect(true, [])]
            && PeerSections(secs + [Sect(false, [])]) == PeerSections(secs)
            && (secs != [] ==> var n := |secs| - 1; secs == secs[..n] + [secs[n]])
    ensures var secs, secs' := SectionsOf(items).sections, SectionsOf(items + [item]).sections;
            |PeerSections(secs')| == |PeerSections(secs)| + if item == PeerHeader then 1 else 0
  {
    hide SectionsOf, Grown, PeerSections;
    var secs := SectionsOf(items).sections;
    SectionsGrow(items, item);
    GrownPeers(secs, item, SectionsOf(items + [item]).sections);
    LastSection(secs, Sect(true, []));
    LastSection(secs, Sect(false, []));
    assert PeerSections(secs) + [] == PeerSections(secs);
    if secs != [] {
      assert secs == secs[..|secs| - 1] + [secs[|secs| - 1]];
    }
  }

  lemma {:induction false} ValuesConcat(a: seq<Directive>, b: seq<Directive>, key: Key)
    ensures Values(a + b, key) == Values(a, key) + Values(b, key)
    decreases |b|
  {
    if b == [] {
      assert a + b == a && Values(a, key) + [] == Values(a, key);
    } else {
      var n := |b| - 1;
      assert (a + b)[..|a + b| - 1] == a + b[..n];
      ValuesConcat(a, b[..n], key);
    }
  }

  lemma InterfaceBodyGrows(front: seq<Sect>, last: Sect, d: Directive, key: Key)
    ensures Values(InterfaceBody(front + [Sect(last.isPeer, last.body + [d])]), key) ==
            Values(InterfaceBody(front + [last]), key) + if d.key == key && !last.isPeer then [d.value] else []
  {
    hide Values, PeerSections;
    LastSection(front, last);
    LastSection(front, Sect(last.isPeer, last.body + [d]));
    var body := InterfaceBody(front + [last]);
    if last.isPeer {
      assert Values(body, key) + [] == Values(body, key);
    } else {
      assert InterfaceBody(front) + (last.body + [d]) == body + [d];
      ValuesAppend(body, d, key);
    }
  }

  lemma InterfaceBodyOpens(secs: seq<Sect>, isPeer: bool)
    ensures InterfaceBody(secs + [Sect(isPeer, [])]) == InterfaceBody(secs)
  {
    hide PeerSections;
    LastSection(secs, Sect(isPeer, []));
    assert InterfaceBody(secs) + [] == InterfaceBody(secs);
  }

  /** The values of a key in the interface body after one more item. */
  lemma InterfaceValuesStep(items: seq<Item>, item: Item, key: Key)
    ensures var secs := SectionsOf(items).sections;
            Values(InterfaceBody(SectionsOf(items + [item]).sections), key) ==
            Values(InterfaceBody(secs), key) +
            if item.Entry? && item.key == key && item.value != [] && secs != [] && !secs[|secs| - 1].isPeer then [item.value] else []
  {
    hide SectionsOf, Values, InterfaceBody, PeerSections;
    SectionsStep(items, item);
    var secs := SectionsOf(items).sections;
    InterfaceBodyOpens(secs, true);
    InterfaceBodyOpens(secs, false);
    assert Values(InterfaceBody(secs), key) + [] == Values(InterfaceBody(secs), key);
    if item.Entry? && item.value != [] && secs != [] {
      var n := |secs| - 1;
      InterfaceBodyGrows(secs[..n], secs[n], Directive(item.key, item.value), key);
    }
  }

  lemma {:induction false} InterfaceValues(lines: seq<string>, name: string, key: Key)
    requires WellSpelled(Items(lines)) && Spells(name, key)
    ensures OfInterface(lines, name) == Values(InterfaceBody(SectionsOf(Items(lines)).sections), key)
  {
    hide Classify, Spells, SectionsOf, Gives, InterfaceBody, Values;
    if lines == [] {
      assert Items(lines) == [];
      NoSections(key);
    } else {
      var front, last := lines[..|lines| - 1], lines[|lines| - 1];
      ItemsFront(lines);
      WellSpelledFront(lines);
      InterfaceValues(front, name, key);
      WithinSections(front);
      GivesItem(last, name, key);
      InterfaceValuesStep(Items(front), Classify(last), key);
    }
  }

  lemma NoSections(key: Key)
    ensures SectionsOf([]) == Document([], []) && Values(InterfaceBody([]), key) == []
  {
  }

  /** The values of a key in the k-th peer section, or none. */
  function PeerBody(secs: seq<Sect>, k: nat, key: Key): seq<string> {
    if k < |PeerSections(secs)| then Values(PeerSections(secs)[k].body, key) else []
  }

  function PeerValues(items: seq<Item>, k: nat, key: Key): seq<string> { PeerBody(SectionsOf(items).sections, k, key) }

  lemma PeerBodyGrows(front: seq<Sect>, last: Sect, d: Directive, k: nat, key: Key)
    ensures PeerBody(front + [Sect(last.isPeer, last.body + [d])], k, key) ==
            PeerBody(front + [last], k, key) +
            if d.key == key && last.isPeer && |PeerSections(front + [last])| == k + 1 then [d.value] else []
  {
    hide Values, InterfaceBody;
    LastSection(front, last);
    LastSection(front, Sect(last.isPeer, last.body + [d]));
    hide PeerSections;
    ValuesAppend(last.body, d, key);
    var before := PeerBody(front + [last], k, key);
    assert before + [] == before;
  }

  lemma PeerBodyOpens(secs: seq<Sect>, isPeer: bool, k: nat, key: Key)
    ensures PeerBody(secs + [Sect(isPeer, [])], k, key) == PeerBody(secs, k, key)
  {
    hide Values, InterfaceBody;
    LastSection(secs, Sect(isPeer, []));
    EmptyBody(key);
    assert PeerSections(secs) + [] == PeerSections(secs);
  }

  lemma PeerValuesStep(items: seq<Item>, item: Item, k: nat, key: Key)
    ensures var secs := SectionsOf(items).sections;
            PeerValues(items + [item], k, key) ==
            PeerValues(items, k, key) +
            if item.Entry? && item.key == key && item.value != [] && secs != [] && secs[|secs| - 1].isPeer && |PeerSections(secs)| == k + 1
            then [item.value] else []
  {
    hide SectionsOf, PeerBody, PeerSections, InterfaceBody;
    SectionsStep(items, item);
    var secs := SectionsOf(items).sections;
    PeerBodyOpens(secs, true, k, key);
    PeerBodyOpens(secs, false, k, key);
    assert PeerBody(secs, k, key) + [] == PeerBody(secs, k, key);
    if item.Entry? && item.value != [] && secs != [] {
      var n := |secs| - 1;
      PeerBodyGrows(secs[..n], secs[n], Directive(item.key, item.value), k, key);
    }
  }

  lemma EmptyBody(key: Key)
    ensures Values([], key) == []
  {
  }

  lemma {:induction false} PeerValuesRead(lines: seq<string>, k: nat, name: string, key: Key)
    requires WellSpelled(Items(lines)) && Spells(name, key)
    ensures OfPeer(lines, k, name) == PeerValues(Items(lines), k, key)
  {
    hide Classify, Spells, SectionsOf, Gives, PeerSections, Values;
    if lines == [] {
      assert Items(lines) == [];
      NoSections(key);
      assert PeerSections([]) == [] by { NoPeers(); }
    } else {
      hide PeerValues;
      var front, last := lines[..|lines| - 1], lines[|lines| - 1];
      ItemsFront(lines);
      WellSpelledFront(lines);
      PeerValuesRead(front, k, name, key);
      WithinSections(front);
      GivesItem(last, name, key);
      PeerValuesStep(Items(front), Classify(last), k, key);
    }
  }

  lemma NoPeers()
    ensures PeerSections([]) == []
  {
  }

  // ---- what an accepted text says ------------------------------------------------------------------

  /** The interface fields of an accepted text: keys and the MTU are the last
      value given, addresses, resolvers and hooks all of them in file order,
      whichever interface section they stand in. */
  lemma InterfaceFields(o: Oracle, text: string)
    requires Parse(o, text).Some?
    ensures var c, lines := Parse(o, text).value, Lines(text);
            && Some(c.privateKey) == Get(Last(OfInterface(lines, "privatekey")), o.key)
            && c.addresses == Listed(o.net, OfInterface(lines, "address"))
            && c.dnsServers == Listed(o.ip, OfInterface(lines, "dns"))
            && c.mtu == Get(Last(OfInterface(lines, "mtu")), ParseMtu)
            && c.preUp == OfInterface(lines, "preup") && c.postUp == OfInterface(lines, "postup")
            && c.preDown == OfInterface(lines, "predown") && c.postDown == OfInterface(lines, "postdown")
  {
    hide OfInterface, Values, SectionsOf, InterfaceBody, Items, AllValid, AllComplete, ReadPeers, PeerSections, Spells, Parse, Lines,
         Listed, Last, Get;
    ParserRefinesReading(o, text);
    var lines := Lines(text);
    Names();
    InterfaceValues(lines, "privatekey", PrivateKey);
    InterfaceValues(lines, "address", Address);
    InterfaceValues(lines, "dns", Dns);
    InterfaceValues(lines, "mtu", Mtu);
    InterfaceValues(lines, "preup", PreUp);
    InterfaceValues(lines, "postup", PostUp);
    InterfaceValues(lines, "predown", PreDown);
    InterfaceValues(lines, "postdown", PostDown);
  }

  /** Its peers: one for each peer header, each field from its own section. */
  lemma PeerFields(o: Oracle, text: string, k: nat)
    requires Parse(o, text).Some? && k < |Parse(o, text).value.peers|
    ensures var p, lines := Parse(o, text).value.peers[k], Lines(text);
            && |Parse(o, text).value.peers| == PeerHeaders(lines)
            && Some(p.publicKey) == Get(Last(OfPeer(lines, k, "publickey")), o.key)
            && p.presharedKey == Get(Last(OfPeer(lines, k, "presharedkey")), o.key)
            && p.allowedIps == Listed(o.net, OfPeer(lines, k, "allowedips"))
            && p.endpoint == Get(Last(OfPeer(lines, k, "endpoint")), v => ParseEndpoint(o, v))
            && p.endpointLiteral == Last(OfPeer(lines, k, "endpoint"))
            && p.keepalive == Get(Last(OfPeer(lines, k, "persistentkeepalive")), ParseU16)
  {
    hide OfPeer, Values, SectionsOf, InterfaceBody, Items, AllValid, ReadPeers, PeerSections, Spells, Parse, Lines,
         Listed, Last, Get, PeerHeaders, AllComplete, ReadInterface;
    ParserRefinesReading(o, text);
    var lines := Lines(text);
    Names();
    WithinSections(lines);
    var peers := PeerSections(SectionsOf(Items(lines)).sections);
    OnePeerPerSection(o, peers);
    PeerValuesRead(lines, k, "publickey", PublicKey);
    PeerValuesRead(lines, k, "presharedkey", PresharedKey);
    PeerValuesRead(lines, k, "allowedips", AllowedIps);
    PeerValuesRead(lines, k, "endpoint", Endpoint);
    PeerValuesRead(lines, k, "persistentkeepalive", PersistentKeepalive);
    assert Some(Parse(o, text).value.peers[k]) == FlushPeer(ReadPeer(o, peers[k].body));
  }

  // ---- which texts are accepted ----------------------------------------------------------------------

  /** A directive an interface section may hold, with a value it may have. */
  predicate InterfaceLine(o: Oracle, name: string, value: string) {
    || (name == "privatekey" && o.key(value).Some?)
    || (name == "address" && AllRead(o.net, SplitCsv(value)))
    || (name == "dns" && AllRead(o.ip, SplitCsv(value)))
    || (name == "mtu" && ParseMtu(value).Some?)
    || name == "preup" || name == "postup" || name == "predown" || name == "postdown"
    || name == "listenport" || name == "fwmark" || name == "table" || name == "saveconfig"
  }

  predicate PeerLine(o: Oracle, name: string, value: string) {
    || ((name == "publickey" || name == "presharedkey") && o.key(value).Some?)
    || (name == "allowedips" && AllRead(o.net, SplitCsv(value)))
    || (name == "endpoint" && ParseEndpoint(o, value).Some?)
    || (name == "persistentkeepalive" && ParseU16(value).Some?)
  }

  /** One line, in the section the lines before it end in. */
  predicate LineOk(o: Oracle, within: Option<string>, raw: string) {
    var content, i := Content(raw), IndexOf(Content(raw), '=');
    if content == [] then true
    else if content[0] == '[' then Section(raw) == Some("interface") || Section(raw) == Some("peer")
    else
      && i < |content|
      && (ValueOf(raw) == []
          || (within == Some("interface") && InterfaceLine(o, Lower(Trim(content[..i])), ValueOf(raw)))
          || (within == Some("peer") && PeerLine(o, Lower(Trim(content[..i])), ValueOf(raw))))
  }

  predicate LinesOk(o: Oracle, lines: seq<string>) {
    forall i :: 0 <= i < |lines| ==> LineOk(o, Within(lines[..i]), lines[i])
  }

  lemma InterfaceLineIsValid(o: Oracle, name: string, value: string)
    ensures InterfaceLine(o, name, value) <==> ValidInInterface(o, Directive(KeyNamed(name), value))
  {
    Names();
    ListRead(o.net, SplitCsv(value));
    ListRead(o.ip, SplitCsv(value));
    hide KeyNamed, ParseAll, SplitCsv, ParseMtu, AllRead, ReadAs;
    var key := KeyNamed(name);
    if key in INTERFACE_KEYS {
      assert key == PrivateKey || key == Address || key == Dns || key == Mtu || key == PreUp || key == PostUp || key == PreDown
             || key == PostDown || key == ListenPort || key == FwMark || key == Table || key == SaveConfig;
    }
  }

  lemma PeerLineIsValid(o: Oracle, name: string, value: string)
    ensures PeerLine(o, name, value) <==> ValidInPeer(o, Directive(KeyNamed(name), value))
  {
    Names();
    ListRead(o.net, SplitCsv(value));
    hide KeyNamed, ParseAll, SplitCsv, ParseU16, ParseEndpoint, AllRead, ReadAs;
    var key := KeyNamed(name);
    if key in PEER_KEYS {
      assert key == PublicKey || key == PresharedKey || key == AllowedIps || key == Endpoint || key == PersistentKeepalive;
    }
  }

  predicate ItemsOk(o: Oracle, items: seq<Item>) {
    WellSpelled(items) && SectionsOf(items).preamble == [] && AllValid(o, SectionsOf(items).sections)
  }

  /** One more item. */
  predicate ItemOk(o: Oracle, secs: seq<Sect>, item: Item) {
    match item
    case BadHeader => false
    case Malformed => false
    case Entry(key, value) =>
      value == [] || (secs != [] && if secs[|secs| - 1].isPeer then ValidInPeer(o, Directive(key, value))
                                    else ValidInInterface(o, Directive(key, value)))
    case _ => true
  }

  lemma ItemsOkStep(o: Oracle, items: seq<Item>, item: Item)
    ensures ItemsOk(o, items + [item]) <==> ItemsOk(o, items) && ItemOk(o, SectionsOf(items).sections, item)
  {
    hide ValidInInterface, ValidInPeer, ValidSection;
    var secs := SectionsOf(items).sections;
    assert (items + [item])[..|items|] == items;
    WellSpelledStep(items, item);
    AllValidLast(o, secs, Sect(false, []));
    AllValidLast(o, secs, Sect(true, []));
    EmptySectionIsValid(o);
    if item.Entry? && item.value != [] && secs != [] {
      var n := |secs| - 1;
      var d := Directive(item.key, item.value);
      assert secs == secs[..n] + [secs[n]];
      AllValidLast(o, secs[..n], secs[n]);
      AllValidLast(o, secs[..n], Sect(secs[n].isPeer, secs[n].body + [d]));
      ValidBodyStep(o, secs[n], d);
    }
  }

  lemma WellSpelledStep(items: seq<Item>, item: Item)
    ensures WellSpelled(items + [item]) <==> WellSpelled(items) && item != BadHeader && item != Malformed
  {
    assert forall x :: x in items + [item] <==> x in items || x == item;
  }

  lemma EmptySectionIsValid(o: Oracle)
    ensures ValidSection(o, Sect(false, [])) && ValidSection(o, Sect(true, []))
  {
  }

  lemma ValidBodyStep(o: Oracle, s: Sect, d: Directive)
    ensures ValidSection(o, Sect(s.isPeer, s.body + [d])) <==>
            ValidSection(o, s) && if s.isPeer then ValidInPeer(o, d) else ValidInInterface(o, d)
  {
    var b := s.body + [d];
    assert b[|s.body|] == d && forall i :: 0 <= i < |s.body| ==> b[i] == s.body[i];
    hide ValidInInterface, ValidInPeer;
  }

  lemma LineIsItem(o: Oracle, secs: seq<Sect>, within: Option<string>, raw: string)
    requires within == Some("interface") <==> secs != [] && !secs[|secs| - 1].isPeer
    requires within == Some("peer") <==> secs != [] && secs[|secs| - 1].isPeer
    ensures LineOk(o, within, raw) <==> ItemOk(o, secs, Classify(raw))
  {
    hide Trim, BeforeHash, StripSpaces, Lower, KeyNamed, IndexOf, Classify, InterfaceLine, PeerLine, ValidInInterface, ValidInPeer;
    LineItem(raw);
    var content := Content(raw);
    if content != [] && content[0] != '[' {
      var i := IndexOf(content, '=');
      if i < |content| {
        InterfaceLineIsValid(o, Lower(Trim(content[..i])), ValueOf(raw));
        PeerLineIsValid(o, Lower(Trim(content[..i])), ValueOf(raw));
      }
    }
  }

  lemma LinesOkStep(o: Oracle, front: seq<string>, last: string)
    ensures LinesOk(o, front + [last]) <==> LinesOk(o, front) && LineOk(o, Within(front), last)
  {
    hide LineOk, Within;
    var lines := front + [last];
    assert lines[|front|] == last && lines[..|front|] == front;
    assert forall i :: 0 <= i < |front| ==> front[i] == lines[i] && front[..i] == lines[..i];
  }

  lemma {:induction false} LinesAreItems(o: Oracle, lines: seq<string>)
    ensures LinesOk(o, lines) <==> ItemsOk(o, Items(lines))
  {
    hide Classify, LineOk, ItemOk, ItemsOk, SectionsOf, LinesOk, Within, Items;
    if lines == [] {
      NoLinesOk(o);
    } else {
      var n := |lines| - 1;
      var front, last := lines[..n], lines[n];
      assert lines == front + [last];
      ItemsFront(lines);
      LinesAreItems(o, front);
      LinesOkStep(o, front, last);
      ItemsOkStep(o, Items(front), Classify(last));
      if ItemsOk(o, Items(front)) {
        ItemsOkSpelled(o, Items(front));
        WithinSections(front);
        LineIsItem(o, SectionsOf(Items(front)).sections, Within(front), last);
      }
    }
  }

  lemma NoLinesOk(o: Oracle)
    ensures Items([]) == [] && ItemsOk(o, []) && LinesOk(o, [])
  {
  }

  lemma ItemsOkSpelled(o: Oracle, items: seq<Item>)
    requires ItemsOk(o, items)
    ensures WellSpelled(items)
  {
  }

  /** A peer section that gives a key and at least one network. */
  predicate PeerComplete(o: Oracle, lines: seq<string>, k: nat) {
    OfPeer(lines, k, "publickey") != [] && Listed(o.net, OfPeer(lines, k, "allowedips")) != []
  }

  /** A text is accepted exactly when every line is: a blank one, a header of an
      interface or a peer, or a directive of its section with a value that
      parses or without one; and when it gives a private key, an address, and at
      least one peer, each with a key and a network. */
  lemma AcceptedExactlyWhen(o: Oracle, text: string)
    ensures var lines := Lines(text);
            Parse(o, text).Some? <==>
            && LinesOk(o, lines)
            && OfInterface(lines, "privatekey") != [] && Listed(o.net, OfInterface(lines, "address")) != []
            && PeerHeaders(lines) > 0
            && forall k :: 0 <= k < PeerHeaders(lines) ==> PeerComplete(o, lines, k)
  {
    hide OfPeer, OfInterface, Values, SectionsOf, InterfaceBody, Items, AllValid, ReadPeers, PeerSections, Spells, Parse, Lines,
         Listed, PeerHeaders, LinesOk, LineOk, ReadPeer, ReadInterface, PeerComplete;
    ParserRefinesReading(o, text);
    var lines := Lines(text);
    LinesAreItems(o, lines);
    if ItemsOk(o, Items(lines)) {
      var d := SectionsOf(Items(lines));
      var peers := PeerSections(d.sections);
      WithinSections(lines);
      InterfaceComplete(o, lines);
      forall k | 0 <= k < |peers|
        ensures CompletePeer(o, peers[k]) <==> PeerComplete(o, lines, k)
      {
        PeersComplete(o, lines, k);
      }
      assert AllComplete(o, peers) <==> forall k :: 0 <= k < |peers| ==> PeerComplete(o, lines, k);
    }
  }

  lemma InterfaceComplete(o: Oracle, lines: seq<string>)
    requires ItemsOk(o, Items(lines))
    ensures var a := ReadInterface(o, InterfaceBody(SectionsOf(Items(lines)).sections));
            && (a.privateKey.Some? <==> OfInterface(lines, "privatekey") != [])
            && a.addresses == Listed(o.net, OfInterface(lines, "address"))
  {
    hide OfInterface, SectionsOf, Items, Spells, Listed;
    Names();
    InterfaceValues(lines, "privatekey", PrivateKey);
    InterfaceValues(lines, "address", Address);
    var secs := SectionsOf(Items(lines)).sections;
    var body := InterfaceBody(secs);
    InterfaceBodyIsValid(o, secs);
    LastParses(body, PrivateKey, o.key);
  }

  lemma PeersComplete(o: Oracle, lines: seq<string>, k: nat)
    requires ItemsOk(o, Items(lines)) && k < |PeerSections(SectionsOf(Items(lines)).sections)|
    ensures CompletePeer(o, PeerSections(SectionsOf(Items(lines)).sections)[k]) <==> PeerComplete(o, lines, k)
  {
    hide OfPeer, SectionsOf, Items, Spells, Listed;
    Names();
    PeerValuesRead(lines, k, "publickey", PublicKey);
    PeerValuesRead(lines, k, "allowedips", AllowedIps);
    var secs := SectionsOf(Items(lines)).sections;
    PeerSectionsAre(secs, k);
    LastParses(PeerSections(secs)[k].body, PublicKey, o.key);
  }

  lemma {:induction false} PeerSectionsAre(secs: seq<Sect>, k: nat)
    requires k < |PeerSections(secs)|
    ensures PeerSections(secs)[k].isPeer && PeerSections(secs)[k] in secs
  {
    var n := |secs| - 1;
    if k < |PeerSections(secs[..n])| { PeerSectionsAre(secs[..n], k); } else { assert secs[n] in secs; }
  }

  /** A last value exists, and parses, if there is one and all of them parse. */
  lemma {:induction false} LastParses<T>(body: seq<Directive>, key: Key, f: string -> Option<T>)
    requires forall i :: 0 <= i < |body| && body[i].key == key ==> f(body[i].value).Some?
    ensures Get(Last(Values(body, key)), f).Some? <==> Values(body, key) != []
  {
    if body != [] {
      var n := |body| - 1;
      LastParses(body[..n], key, f);
      assert Values(body, key) == Values(body[..n], key) || body[n].key == key;
    }
  }

  // ---- lines that change nothing ------------------------------------------------------------------------

  predicate Ignored(raw: string) { Gives(raw, "listenport") || Gives(raw, "fwmark") || Gives(raw, "table") || Gives(raw, "saveconfig") }

  lemma {:induction false} ScanSame(o: Oracle, a: seq<Item>, a': seq<Item>, b: seq<Item>)
    requires Scan(o, a) == Scan(o, a')
    ensures Scan(o, a + b) == Scan(o, a' + b)
    decreases |b|
  {
    if b == [] {
      assert a + b == a && a' + b == a';
    } else {
      var n := |b| - 1;
      assert (a + b)[..|a + b| - 1] == a + b[..n] && (a' + b)[..|a' + b| - 1] == a' + b[..n];
      ScanSame(o, a, a', b[..n]);
    }
  }

  /** The section a scan is in is the one its lines end in. */
  lemma ScanSection(o: Oracle, lines: seq<string>)
    requires Scan(o, Items(lines)).Some?
    ensures Scan(o, Items(lines)).value.section == InInterface <==> Within(lines) == Some("interface")
  {
    hide ReadInterface, ReadPeers, ReadPeer, SectionsOf, Items, AllValid, AllComplete, PeerSections;
    ScanReads(o, Items(lines));
    WithinSections(lines);
  }

  predicate IgnoredKey(key: Key) { key == ListenPort || key == FwMark || key == Table || key == SaveConfig }

  lemma IgnoredItem(raw: string)
    requires Ignored(raw)
    ensures Classify(raw).Entry? && IgnoredKey(Classify(raw).key) && Classify(raw).value != []
  {
    hide Classify, Gives, Spells;
    Names();
    GivesItem(raw, "listenport", ListenPort);
    GivesItem(raw, "fwmark", FwMark);
    GivesItem(raw, "table", Table);
    GivesItem(raw, "saveconfig", SaveConfig);
  }

  lemma IgnoredStep(o: Oracle, acc: Acc, item: Item)
    requires acc.section == InInterface && item.Entry? && IgnoredKey(item.key)
    ensures Step(o, acc, item) == Some(acc)
  {
  }

  lemma ItemsConcat(a: seq<string>, raw: string, b: seq<string>)
    ensures Items(a + [raw] + b) == (Items(a) + [Classify(raw)]) + Items(b) && Items(a + b) == Items(a) + Items(b)
  {
    hide Classify;
  }

  /** A line of an interface section for a directive that is accepted and not used
      changes nothing, whatever its value. */
  lemma IgnoredLineChangesNothing(o: Oracle, text: string, text': string, a: seq<string>, raw: string, b: seq<string>)
    requires Lines(text) == a + [raw] + b && Lines(text') == a + b
    requires Ignored(raw) && Within(a) == Some("interface")
    ensures Parse(o, text) == Parse(o, text')
  {
    hide Classify, Ignored, Within, Finish, Lines, Items, InterfaceEntry;
    IgnoredItem(raw);
    ItemsConcat(a, raw, b);
    var ia, item, ib := Items(a), Classify(raw), Items(b);
    assert (ia + [item])[..|ia|] == ia;
    if Scan(o, ia).Some? {
      ScanSection(o, a);
      IgnoredStep(o, Scan(o, ia).value, item);
    }
    ScanSame(o, ia + [item], ia, ib);
  }
}
