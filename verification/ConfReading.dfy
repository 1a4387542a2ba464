/** A declarative reading of a configuration: cut the text into sections, read
    each section by itself, each field from the directives that set it. The
    one-pass parser computes exactly this reading. */
module ConfReading {
  import opened Prelude
  import opened Cidr
  import opened Text
  import opened ConfParser

  // ---- sections --------------------------------------------------------------------

  datatype Directive = Directive(key: Key, value: string)

  datatype Sect = Sect(isPeer: bool, body: seq<Directive>)

  /** The directives before the first header, and the sections in file order. */
  datatype Document = Document(preamble: seq<Directive>, sections: seq<Sect>)

  /** Blank lines and directives without a value belong nowhere. */
  function SectionsOf(items: seq<Item>): Document {
    if items == [] then Document([], [])
    else
      var d := SectionsOf(items[..|items| - 1]);
      match items[|items| - 1]
      case InterfaceHeader => d.(sections := d.sections + [Sect(false, [])])
      case PeerHeader => d.(sections := d.sections + [Sect(true, [])])
      case Entry(key, value) => if value == [] then d else Append(d, Directive(key, value))
      case _ => d
  }

  function Append(d: Document, e: Directive): Document {
    if d.sections == [] then d.(preamble := d.preamble + [e])
    else
      var n := |d.sections| - 1;
      d.(sections := d.sections[..n] + [d.sections[n].(body := d.sections[n].body + [e])])
  }

  predicate WellSpelled(items: seq<Item>) {
    BadHeader !in items && Malformed !in items
  }

  // ---- fields ------------------------------------------------------------------------

  /** All values a body gives to a key, in order. */
  function Values(body: seq<Directive>, key: Key): seq<string> {
    if body == [] then []
    else Values(body[..|body| - 1], key) + if body[|body| - 1].key == key then [body[|body| - 1].value] else []
  }

  function Last(values: seq<string>): Option<string> {
    if values == [] then None else Some(values[|values| - 1])
  }

  /** The entries of all values of a list directive, in order. */
  function AllEntries(values: seq<string>): seq<string> {
    if values == [] then [] else AllEntries(values[..|values| - 1]) + SplitCsv(values[|values| - 1])
  }

  function Get<T>(v: Option<string>, f: string -> Option<T>): Option<T> {
    if v.None? then None else f(v.value)
  }

  function Listed<T>(f: string -> Option<T>, values: seq<string>): seq<T> {
    var r := ParseAll(f, AllEntries(values));
    if r.Some? then r.value else []
  }

  const INTERFACE_KEYS: set<Key> := {PrivateKey, Address, Dns, Mtu, PreUp, PostUp, PreDown, PostDown,
                           ListenPort, FwMark, Table, SaveConfig}
  const PEER_KEYS: set<Key> := {PublicKey, PresharedKey, AllowedIps, Endpoint, PersistentKeepalive}

  predicate ValidInInterface(o: Oracle, d: Directive) {
    && d.key in INTERFACE_KEYS
    && (d.key == PrivateKey ==> o.key(d.value).Some?)
    && (d.key == Address ==> ParseAll(o.net, SplitCsv(d.value)).Some?)
    && (d.key == Dns ==> ParseAll(o.ip, SplitCsv(d.value)).Some?)
    && (d.key == Mtu ==> ParseMtu(d.value).Some?)
  }

  predicate ValidInPeer(o: Oracle, d: Directive) {
    && d.key in PEER_KEYS
    && (d.key == PublicKey || d.key == PresharedKey ==> o.key(d.value).Some?)
    && (d.key == AllowedIps ==> ParseAll(o.net, SplitCsv(d.value)).Some?)
    && (d.key == Endpoint ==> ParseEndpoint(o, d.value).Some?)
    && (d.key == PersistentKeepalive ==> ParseU16(d.value).Some?)
  }

  predicate ValidSection(o: Oracle, s: Sect) {
    forall i :: 0 <= i < |s.body| ==> if s.isPeer then ValidInPeer(o, s.body[i]) else ValidInInterface(o, s.body[i])
  }

  /** The interface sections, run together. */
  function InterfaceBody(sections: seq<Sect>): seq<Directive> {
    if sections == [] then []
    else
      var last := sections[|sections| - 1];
      InterfaceBody(sections[..|sections| - 1]) + if last.isPeer then [] else last.body
  }

  function PeerSections(sections: seq<Sect>): seq<Sect> {
    if sections == [] then []
    else
      var last := sections[|sections| - 1];
      PeerSections(sections[..|sections| - 1]) + if last.isPeer then [last] else []
  }

  /** Lists and hooks concatenate; keys and the MTU take the last value. */
  function ReadInterface(o: Oracle, body: seq<Directive>): IfaceAcc {
    IfaceAcc(Get(Last(Values(body, PrivateKey)), o.key),
             Listed(o.net, Values(body, Address)),
             Listed(o.ip, Values(body, Dns)),
             Get(Last(Values(body, Mtu)), ParseMtu),
             Values(body, PreUp), Values(body, PostUp), Values(body, PreDown), Values(body, PostDown))
  }

  /** One peer section by itself. */
  function ReadPeer(o: Oracle, body: seq<Directive>): PeerAcc {
    PeerAcc(Get(Last(Values(body, PublicKey)), o.key),
            Get(Last(Values(body, PresharedKey)), o.key),
            Listed(o.net, Values(body, AllowedIps)),
            Get(Last(Values(body, Endpoint)), v => ParseEndpoint(o, v)),
            Last(Values(body, Endpoint)),
            Get(Last(Values(body, PersistentKeepalive)), ParseU16))
  }

  predicate CompletePeer(o: Oracle, s: Sect) { FlushPeer(ReadPeer(o, s.body)).Some? }

  predicate AllComplete(o: Oracle, peers: seq<Sect>) {
    forall i :: 0 <= i < |peers| ==> CompletePeer(o, peers[i])
  }

  predicate AllValid(o: Oracle, sections: seq<Sect>) {
    forall i :: 0 <= i < |sections| ==> ValidSection(o, sections[i])
  }

  function ReadPeers(o: Oracle, peers: seq<Sect>): seq<Peer> {
    if peers == [] then []
    else
      var last := FlushPeer(ReadPeer(o, peers[|peers| - 1].body));
      ReadPeers(o, peers[..|peers| - 1]) + if last.Some? then [last.value] else []
  }

  /** One peer per `[Peer]` header, in file order, each read from its own section. */
  lemma {:induction false} OnePeerPerSection(o: Oracle, peers: seq<Sect>)
    requires AllComplete(o, peers)
    ensures |ReadPeers(o, peers)| == |peers|
    ensures forall i :: 0 <= i < |peers| ==> Some(ReadPeers(o, peers)[i]) == FlushPeer(ReadPeer(o, peers[i].body))
  {
    hide FlushPeer, ReadPeer;
    if peers != [] {
      OnePeerPerSection(o, peers[..|peers| - 1]);
      assert CompletePeer(o, peers[|peers| - 1]);
    }
  }

  /** The declarative reading. */
  function Read(o: Oracle, items: seq<Item>): Option<Config> {
    var d := SectionsOf(items);
    var peers := PeerSections(d.sections);
    var a := ReadInterface(o, InterfaceBody(d.sections));
    if && WellSpelled(items) && d.preamble == [] && AllValid(o, d.sections) && AllComplete(o, peers)
       && a.privateKey.Some? && a.addresses != [] && peers != []
    then Some(Config(a.privateKey.value, a.addresses, a.dnsServers, a.mtu,
                     a.preUp, a.postUp, a.preDown, a.postDown, ReadPeers(o, peers)))
    else None
  }

  // ---- the scan, read declaratively ---------------------------------------------------------

  /** Everything before the last section, if that one is a peer still open. */
  function Closed(sections: seq<Sect>): seq<Sect> {
    if sections != [] && sections[|sections| - 1].isPeer then sections[..|sections| - 1] else sections
  }

  predicate OkSoFar(o: Oracle, items: seq<Item>) {
    var d := SectionsOf(items);
    && WellSpelled(items) && d.preamble == [] && AllValid(o, d.sections)
    && AllComplete(o, PeerSections(Closed(d.sections)))
  }

  function StateOf(o: Oracle, items: seq<Item>): Acc {
    var secs := SectionsOf(items).sections;
    var open := secs != [] && secs[|secs| - 1].isPeer;
    Acc(if secs == [] then NoSection else if open then InPeer else InInterface,
        ReadInterface(o, InterfaceBody(secs)),
        ReadPeers(o, PeerSections(Closed(secs))),
        if open then ReadPeer(o, secs[|secs| - 1].body) else EMPTY_PEER)
  }

  // Adding one directive to a body.

  lemma ValuesAppend(body: seq<Directive>, d: Directive, key: Key)
    ensures Values(body + [d], key) == Values(body, key) + if d.key == key then [d.value] else []
  {
    assert (body + [d])[..|body|] == body;
  }

  lemma {:induction false} ParseAllConcat<T>(f: string -> Option<T>, a: seq<string>, b: seq<string>)
    ensures ParseAll(f, a + b) ==
            if ParseAll(f, a).Some? && ParseAll(f, b).Some? then Some(ParseAll(f, a).value + ParseAll(f, b).value) else None
    decreases |b|
  {
    if b == [] {
      assert a + b == a;
      if ParseAll(f, a).Some? { assert ParseAll(f, a).value + [] == ParseAll(f, a).value; }
    } else {
      var front := b[..|b| - 1];
      assert (a + b)[..|a + b| - 1] == a + front;
      ParseAllConcat(f, a, front);
      if ParseAll(f, a).Some? && ParseAll(f, b).Some? {
        assert ParseAll(f, a).value + (ParseAll(f, front).value + [f(b[|b| - 1]).value])
            == (ParseAll(f, a).value + ParseAll(f, front).value) + [f(b[|b| - 1]).value];
      }
    }
  }

  /** Every value of the list directive parses. */
  predicate ListsParse<T>(f: string -> Option<T>, values: seq<string>) {
    forall i :: 0 <= i < |values| ==> ParseAll(f, SplitCsv(values[i])).Some?
  }

  lemma {:induction false} ListedParses<T>(f: string -> Option<T>, values: seq<string>)
    requires ListsParse(f, values)
    ensures ParseAll(f, AllEntries(values)).Some?
  {
    if values != [] {
      var front := values[..|values| - 1];
      ListedParses(f, front);
      ParseAllConcat(f, AllEntries(front), SplitCsv(values[|values| - 1]));
    }
  }

  lemma ListedAppend<T>(f: string -> Option<T>, values: seq<string>, v: string)
    requires ListsParse(f, values) && ParseAll(f, SplitCsv(v)).Some?
    ensures Listed(f, values + [v]) == Listed(f, values) + ParseAll(f, SplitCsv(v)).value
  {
    assert (values + [v])[..|values|] == values;
    ListedParses(f, values);
    ParseAllConcat(f, AllEntries(values), SplitCsv(v));
  }

  lemma {:induction false} ValuesParse<T>(f: string -> Option<T>, body: seq<Directive>, key: Key)
    requires forall i :: 0 <= i < |body| && body[i].key == key ==> ParseAll(f, SplitCsv(body[i].value)).Some?
    ensures ListsParse(f, Values(body, key))
  {
    if body != [] {
      ValuesParse(f, body[..|body| - 1], key);
    }
  }

  lemma LastAppend<T>(body: seq<Directive>, d: Directive, key: Key, f: string -> Option<T>)
    ensures Last(Values(body + [d], key)) == if d.key == key then Some(d.value) else Last(Values(body, key))
    ensures Get(Last(Values(body + [d], key)), f) == if d.key == key then f(d.value) else Get(Last(Values(body, key)), f)
  {
    ValuesAppend(body, d, key);
    assert Values(body, key) + [] == Values(body, key);
  }

  lemma ListAppend<T>(body: seq<Directive>, d: Directive, key: Key, f: string -> Option<T>)
    requires forall i :: 0 <= i < |body| && body[i].key == key ==> ParseAll(f, SplitCsv(body[i].value)).Some?
    requires d.key == key ==> ParseAll(f, SplitCsv(d.value)).Some?
    ensures Listed(f, Values(body + [d], key)) ==
            Listed(f, Values(body, key)) + if d.key == key then ParseAll(f, SplitCsv(d.value)).value else []
  {
    ValuesAppend(body, d, key);
    ValuesParse(f, body, key);
    if d.key == key {
      ListedAppend(f, Values(body, key), d.value);
    } else {
      assert Values(body, key) + [] == Values(body, key);
    }
  }

  predicate InterfaceBodyValid(o: Oracle, body: seq<Directive>) {
    forall i :: 0 <= i < |body| ==> ValidInInterface(o, body[i])
  }

  predicate PeerBodyValid(o: Oracle, body: seq<Directive>) {
    forall i :: 0 <= i < |body| ==> ValidInPeer(o, body[i])
  }

  /** Field by field, `b` is `a` with directive `d` added. */
  predicate InterfaceExtends(o: Oracle, a: IfaceAcc, b: IfaceAcc, d: Directive)
    requires ValidInInterface(o, d)
  {
    && b.privateKey == (if d.key == PrivateKey then o.key(d.value) else a.privateKey)
    && b.addresses == (if d.key == Address then a.addresses + ParseAll(o.net, SplitCsv(d.value)).value else a.addresses)
    && b.dnsServers == (if d.key == Dns then a.dnsServers + ParseAll(o.ip, SplitCsv(d.value)).value else a.dnsServers)
    && b.mtu == (if d.key == Mtu then ParseMtu(d.value) else a.mtu)
    && b.preUp == (if d.key == PreUp then a.preUp + [d.value] else a.preUp)
    && b.postUp == (if d.key == PostUp then a.postUp + [d.value] else a.postUp)
    && b.preDown == (if d.key == PreDown then a.preDown + [d.value] else a.preDown)
    && b.postDown == (if d.key == PostDown then a.postDown + [d.value] else a.postDown)
  }

  predicate PeerExtends(o: Oracle, a: PeerAcc, b: PeerAcc, d: Directive)
    requires ValidInPeer(o, d)
  {
    && b.publicKey == (if d.key == PublicKey then o.key(d.value) else a.publicKey)
    && b.presharedKey == (if d.key == PresharedKey then o.key(d.value) else a.presharedKey)
    && b.allowedIps == (if d.key == AllowedIps then a.allowedIps + ParseAll(o.net, SplitCsv(d.value)).value else a.allowedIps)
    && b.endpoint == (if d.key == Endpoint then ParseEndpoint(o, d.value) else a.endpoint)
    && b.endpointLiteral == (if d.key == Endpoint then Some(d.value) else a.endpointLiteral)
    && b.keepalive == (if d.key == PersistentKeepalive then ParseU16(d.value) else a.keepalive)
  }

  lemma ReadInterfaceExtended(o: Oracle, body: seq<Directive>, d: Directive)
    requires InterfaceBodyValid(o, body) && ValidInInterface(o, d)
    ensures InterfaceExtends(o, ReadInterface(o, body), ReadInterface(o, body + [d]), d)
  {
    LastAppend(body, d, PrivateKey, o.key);
    LastAppend(body, d, Mtu, ParseMtu);
    ListAppend(body, d, Address, o.net);
    ListAppend(body, d, Dns, o.ip);
    ValuesAppend(body, d, PreUp);
    ValuesAppend(body, d, PostUp);
    ValuesAppend(body, d, PreDown);
    ValuesAppend(body, d, PostDown);
  }

  lemma ReadPeerExtended(o: Oracle, body: seq<Directive>, d: Directive)
    requires PeerBodyValid(o, body) && ValidInPeer(o, d)
    ensures PeerExtends(o, ReadPeer(o, body), ReadPeer(o, body + [d]), d)
  {
    LastAppend(body, d, PublicKey, o.key);
    LastAppend(body, d, PresharedKey, o.key);
    ListAppend(body, d, AllowedIps, o.net);
    LastAppend(body, d, Endpoint, v => ParseEndpoint(o, v));
    LastAppend(body, d, PersistentKeepalive, ParseU16);
  }

  lemma InterfaceEntryExtends(o: Oracle, a: IfaceAcc, b: IfaceAcc, d: Directive)
    requires ValidInInterface(o, d) && InterfaceExtends(o, a, b, d)
    ensures InterfaceEntry(o, a, d.key, d.value) == Some(b)
  {
  }

  lemma PeerEntryExtends(o: Oracle, a: PeerAcc, b: PeerAcc, d: Directive)
    requires ValidInPeer(o, d) && PeerExtends(o, a, b, d)
    ensures PeerEntry(o, a, d.key, d.value) == Some(b)
  {
  }

  lemma EntriesRejected(o: Oracle, a: IfaceAcc, p: PeerAcc, d: Directive)
    ensures !ValidInInterface(o, d) ==> InterfaceEntry(o, a, d.key, d.value).None?
    ensures !ValidInPeer(o, d) ==> PeerEntry(o, p, d.key, d.value).None?
  {
  }

  /** Reading an interface body extended by one directive is one parser step. */
  lemma ReadInterfaceAppend(o: Oracle, body: seq<Directive>, d: Directive)
    requires InterfaceBodyValid(o, body)
    ensures InterfaceEntry(o, ReadInterface(o, body), d.key, d.value) ==
            if ValidInInterface(o, d) then Some(ReadInterface(o, body + [d])) else None
  {
    var a, b := ReadInterface(o, body), ReadInterface(o, body + [d]);
    if ValidInInterface(o, d) {
      ReadInterfaceExtended(o, body, d);
      InterfaceEntryExtends(o, a, b, d);
    } else {
      EntriesRejected(o, a, EMPTY_PEER, d);
    }
  }

  lemma ReadPeerAppend(o: Oracle, body: seq<Directive>, d: Directive)
    requires PeerBodyValid(o, body)
    ensures PeerEntry(o, ReadPeer(o, body), d.key, d.value) ==
            if ValidInPeer(o, d) then Some(ReadPeer(o, body + [d])) else None
  {
    var a, b := ReadPeer(o, body), ReadPeer(o, body + [d]);
    if ValidInPeer(o, d) {
      ReadPeerExtended(o, body, d);
      PeerEntryExtends(o, a, b, d);
    } else {
      EntriesRejected(o, EMPTY_IFACE, a, d);
    }
  }

  // ---- the equivalence ------------------------------------------------------------------------

  lemma {:induction false} InterfaceBodyIsValid(o: Oracle, secs: seq<Sect>)
    requires AllValid(o, secs)
    ensures InterfaceBodyValid(o, InterfaceBody(secs))
  {
    if secs != [] {
      InterfaceBodyIsValid(o, secs[..|secs| - 1]);
      assert ValidSection(o, secs[|secs| - 1]);
    }
  }

  lemma AllValidLast(o: Oracle, front: seq<Sect>, last: Sect)
    ensures AllValid(o, front + [last]) <==> AllValid(o, front) && ValidSection(o, last)
  {
    var secs := front + [last];
    assert secs[|front|] == last;
    assert forall i :: 0 <= i < |front| ==> secs[i] == front[i];
  }

  lemma AllCompleteLast(o: Oracle, front: seq<Sect>, last: Sect)
    ensures AllComplete(o, front + [last]) <==> AllComplete(o, front) && CompletePeer(o, last)
  {
    var secs := front + [last];
    assert secs[|front|] == last;
    assert forall i :: 0 <= i < |front| ==> secs[i] == front[i];
  }

  /** Sections as a front and an open last one. */
  lemma LastSection(front: seq<Sect>, last: Sect)
    ensures var secs := front + [last];
            && InterfaceBody(secs) == InterfaceBody(front) + (if last.isPeer then [] else last.body)
            && PeerSections(secs) == PeerSections(front) + (if last.isPeer then [last] else [])
            && PeerSections(Closed(secs)) == PeerSections(front)
  {
    var secs := front + [last];
    assert secs[..|front|] == front;
    assert PeerSections(front) + [] == PeerSections(front);
  }

  lemma ValidSectionExtended(o: Oracle, s: Sect, d: Directive)
    requires ValidSection(o, s)
    ensures ValidSection(o, s.(body := s.body + [d])) <==> if s.isPeer then ValidInPeer(o, d) else ValidInInterface(o, d)
  {
    var b := s.body + [d];
    assert b[|s.body|] == d;
    assert forall i :: 0 <= i < |s.body| ==> b[i] == s.body[i];
  }

  /** The items so far, with the open section split off. */
  predicate Opened(items: seq<Item>, front: seq<Sect>, last: Sect) {
    SectionsOf(items).sections == front + [last]
  }

  lemma StateOfOpened(o: Oracle, items: seq<Item>, front: seq<Sect>, last: Sect)
    requires Opened(items, front, last)
    ensures OkSoFar(o, items) <==> WellSpelled(items) && SectionsOf(items).preamble == [] && AllValid(o, front)
                                   && ValidSection(o, last) && AllComplete(o, PeerSections(front))
    ensures StateOf(o, items) == Acc(if last.isPeer then InPeer else InInterface,
                                     ReadInterface(o, InterfaceBody(front) + if last.isPeer then [] else last.body),
                                     ReadPeers(o, PeerSections(front)),
                                     if last.isPeer then ReadPeer(o, last.body) else EMPTY_PEER)
  {
    LastSection(front, last);
    AllValidLast(o, front, last);
    assert (front + [last])[|front|] == last;
  }

  lemma OpenedAfterEntry(items: seq<Item>, front: seq<Sect>, last: Sect, key: Key, value: string)
    requires Opened(items, front, last) && value != []
    ensures var items', last' := items + [Entry(key, value)], last.(body := last.body + [Directive(key, value)]);
            && Opened(items', front, last') && SectionsOf(items').preamble == SectionsOf(items).preamble
            && (WellSpelled(items') <==> WellSpelled(items))
  {
    var items' := items + [Entry(key, value)];
    assert items'[..|items|] == items;
    assert (front + [last])[..|front|] == front;
  }

  /** What one more directive does to the reading of the open section. */
  lemma EntryExtendsReading(o: Oracle, items: seq<Item>, front: seq<Sect>, last: Sect, key: Key, value: string)
    requires OkSoFar(o, items) && value != [] && Opened(items, front, last)
    ensures var items', e := items + [Entry(key, value)], Directive(key, value);
            && (OkSoFar(o, items') <==> if last.isPeer then ValidInPeer(o, e) else ValidInInterface(o, e))
            && StateOf(o, items').section == StateOf(o, items).section && StateOf(o, items').peers == StateOf(o, items).peers
  {
    OpenedAfterEntry(items, front, last, key, value);
    StateOfOpened(o, items, front, last);
    StateOfOpened(o, items + [Entry(key, value)], front, last.(body := last.body + [Directive(key, value)]));
    ValidSectionExtended(o, last, Directive(key, value));
  }

  lemma PeerEntryExtendsState(o: Oracle, items: seq<Item>, front: seq<Sect>, last: Sect, key: Key, value: string)
    requires OkSoFar(o, items) && value != [] && Opened(items, front, last) && last.isPeer
    ensures var st, st' := StateOf(o, items), StateOf(o, items + [Entry(key, value)]);
            && st.section == InPeer && st'.iface == st.iface && PeerBodyValid(o, last.body)
            && st.cur == ReadPeer(o, last.body) && st'.cur == ReadPeer(o, last.body + [Directive(key, value)])
  {
    hide ReadInterface, ReadPeer, ReadPeers, SectionsOf, PeerSections, StateOf, WellSpelled, AllComplete;
    OpenedAfterEntry(items, front, last, key, value);
    StateOfOpened(o, items, front, last);
    StateOfOpened(o, items + [Entry(key, value)], front, last.(body := last.body + [Directive(key, value)]));
  }

  lemma InterfaceEntryExtendsState(o: Oracle, items: seq<Item>, front: seq<Sect>, last: Sect, key: Key, value: string)
    requires OkSoFar(o, items) && value != [] && Opened(items, front, last) && !last.isPeer
    ensures var st, st' := StateOf(o, items), StateOf(o, items + [Entry(key, value)]);
            var body := InterfaceBody(front + [last]);
            && st.section == InInterface && st'.cur == st.cur && InterfaceBodyValid(o, body)
            && st.iface == ReadInterface(o, body) && st'.iface == ReadInterface(o, body + [Directive(key, value)])
  {
    hide ReadInterface, ReadPeer, ReadPeers, SectionsOf, PeerSections, StateOf, OkSoFar, WellSpelled, AllComplete;
    OpenedAfterEntry(items, front, last, key, value);
    StateOfOpened(o, items, front, last);
    StateOfOpened(o, items + [Entry(key, value)], front, last.(body := last.body + [Directive(key, value)]));
    LastSection(front, last);
    InterfaceBodyIsValid(o, front + [last]);
    assert InterfaceBody(front) + (last.body + [Directive(key, value)]) == InterfaceBody(front + [last]) + [Directive(key, value)];
  }

  lemma EntryStep(o: Oracle, st: Acc, key: Key, value: string)
    requires value != []
    ensures var p := PeerEntry(o, st.cur, key, value);
            st.section == InPeer ==> Step(o, st, Entry(key, value)) == if p.None? then None else Some(st.(cur := p.value))
    ensures var a := InterfaceEntry(o, st.iface, key, value);
            st.section == InInterface ==> Step(o, st, Entry(key, value)) == if a.None? then None else Some(st.(iface := a.value))
  {
  }

  lemma StepReadsEntry(o: Oracle, items: seq<Item>, key: Key, value: string)
    requires OkSoFar(o, items) && value != []
    ensures var items' := items + [Entry(key, value)];
            Step(o, StateOf(o, items), Entry(key, value)) == if OkSoFar(o, items') then Some(StateOf(o, items')) else None
  {
    hide ReadInterface, ReadPeers, ReadPeer, ValidInPeer, ValidInInterface, PeerSections, AllComplete, AllValid,
         InterfaceBody, InterfaceEntry, PeerEntry;
    var secs := SectionsOf(items).sections;
    if secs == [] {
      var items' := items + [Entry(key, value)];
      assert items'[..|items|] == items;
    } else {
      var front, last := secs[..|secs| - 1], secs[|secs| - 1];
      assert Opened(items, front, last);
      EntryStep(o, StateOf(o, items), key, value);
      EntryExtendsReading(o, items, front, last, key, value);
      if last.isPeer {
        PeerEntryExtendsState(o, items, front, last, key, value);
        ReadPeerAppend(o, last.body, Directive(key, value));
      } else {
        InterfaceEntryExtendsState(o, items, front, last, key, value);
        ReadInterfaceAppend(o, InterfaceBody(front + [last]), Directive(key, value));
      }
    }
  }

  lemma EndSectionReads(o: Oracle, items: seq<Item>)
    requires OkSoFar(o, items)
    ensures var secs := SectionsOf(items).sections;
            var ended := EndSection(StateOf(o, items));
            && (ended.Some? <==> AllComplete(o, PeerSections(secs)))
            && (ended.Some? ==> ended.value.iface == ReadInterface(o, InterfaceBody(secs))
                                && ended.value.peers == ReadPeers(o, PeerSections(secs)) && ended.value.cur == EMPTY_PEER)
  {
    var secs := SectionsOf(items).sections;
    if secs != [] {
      var front, last := secs[..|secs| - 1], secs[|secs| - 1];
      assert secs == front + [last];
      StateOfOpened(o, items, front, last);
      LastSection(front, last);
      if last.isPeer {
        AllCompleteLast(o, PeerSections(front), last);
        var peers := PeerSections(secs);
        assert peers[..|peers| - 1] == PeerSections(front);
      } else {
        assert PeerSections(secs) == PeerSections(front);
      }
    }
  }

  lemma StepReadsHeader(o: Oracle, items: seq<Item>, h: Item)
    requires OkSoFar(o, items) && (h == InterfaceHeader || h == PeerHeader)
    ensures var items' := items + [h];
            Step(o, StateOf(o, items), h) == if OkSoFar(o, items') then Some(StateOf(o, items')) else None
  {
    hide ReadInterface, ReadPeers, AllComplete, InterfaceEntry, PeerEntry, FlushPeer;
    var items' := items + [h];
    assert items'[..|items|] == items;
    var secs, last := SectionsOf(items).sections, Sect(h == PeerHeader, []);
    assert WellSpelled(items');
    StateOfOpened(o, items', secs, last);
    EndSectionReads(o, items);
    assert InterfaceBody(secs) + [] == InterfaceBody(secs);
    assert ReadPeer(o, []) == EMPTY_PEER;
  }

  lemma StepReads(o: Oracle, items: seq<Item>, item: Item)
    requires OkSoFar(o, items)
    ensures var items' := items + [item];
            Step(o, StateOf(o, items), item) == if OkSoFar(o, items') then Some(StateOf(o, items')) else None
  {
    hide ReadInterface, ReadPeers, ReadPeer, AllValid, AllComplete, EndSection, InterfaceEntry, PeerEntry;
    var items' := items + [item];
    assert items'[..|items|] == items;
    match item
    case InterfaceHeader => StepReadsHeader(o, items, item);
    case PeerHeader => StepReadsHeader(o, items, item);
    case Entry(key, value) =>
      if value != [] {
        StepReadsEntry(o, items, key, value);
      } else {
        assert WellSpelled(items');
      }
    case Blank => assert WellSpelled(items');
    case BadHeader => assert BadHeader in items';
    case Malformed => assert Malformed in items';
  }

  lemma OkBeforeHeader(o: Oracle, items: seq<Item>, h: Item)
    requires OkSoFar(o, items + [h]) && (h == InterfaceHeader || h == PeerHeader)
    ensures OkSoFar(o, items)
  {
    var items' := items + [h];
    assert items'[..|items|] == items;
    assert WellSpelled(items);
    var secs := SectionsOf(items).sections;
    StateOfOpened(o, items', secs, Sect(h == PeerHeader, []));
    CompleteBeforeLast(o, secs);
  }

  lemma OkBeforeEntry(o: Oracle, items: seq<Item>, key: Key, value: string)
    requires OkSoFar(o, items + [Entry(key, value)]) && value != []
    ensures OkSoFar(o, items)
  {
    hide StateOf, ReadInterface, ReadPeers, ReadPeer, ValidInPeer, ValidInInterface, PeerSections, AllComplete, AllValid, InterfaceBody;
    var items' := items + [Entry(key, value)];
    assert items'[..|items|] == items;
    assert WellSpelled(items);
    var d := SectionsOf(items);
    if d.sections != [] {
      var front, last := d.sections[..|d.sections| - 1], d.sections[|d.sections| - 1];
      assert d.sections == front + [last];
      var last' := last.(body := last.body + [Directive(key, value)]);
      StateOfOpened(o, items, front, last);
      OpenedAfterEntry(items, front, last, key, value);
      StateOfOpened(o, items', front, last');
      ValidBeforeEntry(o, last, Directive(key, value));
      hide ValidSection;
    }
  }

  lemma ValidBeforeEntry(o: Oracle, s: Sect, d: Directive)
    requires ValidSection(o, s.(body := s.body + [d]))
    ensures ValidSection(o, s)
  {
    var s' := s.(body := s.body + [d]);
    assert forall i :: 0 <= i < |s.body| ==> s'.body[i] == s.body[i];
  }

  lemma OkSoFarBefore(o: Oracle, items: seq<Item>, item: Item)
    requires OkSoFar(o, items + [item])
    ensures OkSoFar(o, items)
  {
    var items' := items + [item];
    assert items'[..|items|] == items;
    if item == InterfaceHeader || item == PeerHeader {
      OkBeforeHeader(o, items, item);
    } else if item.Entry? && item.value != [] {
      OkBeforeEntry(o, items, item.key, item.value);
    } else {
      assert WellSpelled(items);
    }
  }

  /** Scanning is reading so far. */
  lemma {:induction false} ScanReads(o: Oracle, items: seq<Item>)
    ensures Scan(o, items) == if OkSoFar(o, items) then Some(StateOf(o, items)) else None
  {
    if items != [] {
      var front, item := items[..|items| - 1], items[|items| - 1];
      assert items == front + [item];
      ScanReads(o, front);
      if OkSoFar(o, front) {
        StepReads(o, front, item);
      } else if OkSoFar(o, items) {
        OkSoFarBefore(o, front, item);
      }
    }
  }

  /** The one-pass parser computes the declarative reading: it succeeds exactly
      when that does, and with the same configuration. */
  lemma ParserRefinesReading(o: Oracle, text: string)
    ensures Parse(o, text) == Read(o, Items(Lines(text)))
  {
    var items := Items(Lines(text));
    ScanReads(o, items);
    var d := SectionsOf(items);
    if OkSoFar(o, items) {
      EndSectionReads(o, items);
      PeersPresent(o, PeerSections(d.sections));
    } else {
      CompleteBeforeLast(o, d.sections);
    }
  }

  lemma PeersPresent(o: Oracle, peers: seq<Sect>)
    ensures AllComplete(o, peers) ==> (ReadPeers(o, peers) == [] <==> peers == [])
  {
    if AllComplete(o, peers) { OnePeerPerSection(o, peers); }
  }

  lemma CompleteBeforeLast(o: Oracle, secs: seq<Sect>)
    ensures AllComplete(o, PeerSections(secs)) ==> AllComplete(o, PeerSections(Closed(secs)))
  {
    if secs != [] {
      var front, last := secs[..|secs| - 1], secs[|secs| - 1];
      assert secs == front + [last];
      LastSection(front, last);
      if last.isPeer { AllCompleteLast(o, PeerSections(front), last); }
    }
  }
}
