/** Why the length prefixes of the identity encoding never wrap: everything a
    text parses to is bounded by the text, and the daemon bounds the text. */
module FingerprintBounds {
  import opened Prelude
  import opened Cidr
  import opened Text
  import opened ConfParser
  import opened Fingerprint
  import opened FingerprintIdentity

  /** Far above the 64 KiB the daemon accepts, an inserted MTU directive
      included; a text has no more characters than bytes. */
  const AMPLE := 0x1000_0000

  function Weight(item: Item): nat { if item.Entry? then |item.value| + 1 else 1 }

  function Total(items: seq<Item>): nat {
    if items == [] then 0 else Total(items[..|items| - 1]) + Weight(items[|items| - 1])
  }

  // ---- lengths ---------------------------------------------------------------------

  lemma {:induction false} SplitLength(s: string, c: char)
    ensures |Text.Split(s, c)| <= |s| + 1
    decreases |s|
  {
    var i := IndexOf(s, c);
    if i < |s| { SplitLength(s[i + 1..], c); }
  }

  lemma {:induction false} NonEmptyLength(entries: seq<string>)
    ensures |NonEmpty(entries)| <= |entries|
  {
    if entries != [] { NonEmptyLength(entries[..|entries| - 1]); }
  }

  lemma {:induction false} ParseAllLength<T>(f: string -> Option<T>, entries: seq<string>)
    ensures ParseAll(f, entries).Some? ==> |ParseAll(f, entries).value| == |entries|
  {
    if entries != [] { ParseAllLength(f, entries[..|entries| - 1]); }
  }

  lemma ListLength<T>(f: string -> Option<T>, value: string)
    ensures var r := ParseAll(f, SplitCsv(value)); r.Some? ==> |r.value| <= |value| + 1
  {
    SplitLength(value, ',');
    NonEmptyLength(Text.Split(value, ','));
    ParseAllLength(f, SplitCsv(value));
  }

  lemma TrimLength(s: string)
    ensures |Trim(s)| <= |s|
  {
    TrimStartSuffix(s);
    TrimEndPrefix(TrimStart(s));
  }

  lemma ClassifyWeight(raw: string)
    ensures Weight(Classify(raw)) <= |raw| + 1
  {
    var line := Trim(BeforeHash(raw));
    TrimLength(BeforeHash(raw));
    var kv := SplitOnce(line, '=');
    if kv.Some? { TrimLength(kv.value.1); }
  }

  lemma {:induction false} TotalFront(item: Item, items: seq<Item>)
    ensures Total([item] + items) == Weight(item) + Total(items)
  {
    var all := [item] + items;
    if items == [] {
      assert all[..0] == [];
    } else {
      assert all[..|all| - 1] == [item] + items[..|items| - 1];
      TotalFront(item, items[..|items| - 1]);
    }
  }

  lemma TotalOfLines(l: string, rest: seq<string>)
    ensures Total(Items([l] + rest)) <= |l| + 1 + Total(Items(rest))
  {
    hide Classify;
    assert Items([l] + rest) == [Classify(l)] + Items(rest);
    TotalFront(Classify(l), Items(rest));
    ClassifyWeight(l);
  }

  lemma {:induction false} LinesWeight(s: string)
    ensures Total(Items(Lines(s))) <= |s| + 1
    decreases |s|
  {
    if s == [] {
      assert Items(Lines(s)) == [];
    } else {
      hide Items, Total, StripCr;
      var i := IndexOf(s, '\n');
      if i == |s| {
        TotalOfLines(s, []);
        assert [s] + [] == [s];
        NoItemsWeigh();
      } else {
        TotalOfLines(StripCr(s[..i]), Lines(s[i + 1..]));
        StripCrLength(s[..i]);
        LinesWeight(s[i + 1..]);
      }
    }
  }

  lemma NoItemsWeigh()
    ensures Total(Items([])) == 0
  {
  }

  lemma StripCrLength(s: string)
    ensures |StripCr(s)| <= |s|
  {
  }

  lemma {:induction false} Utf8Length(s: string)
    ensures |Utf8(s)| <= 4 * |s|
  {
    if s != [] { Utf8Length(s[..|s| - 1]); }
  }

  // ---- the scan ------------------------------------------------------------------------

  predicate Within(xs: seq<string>, n: nat) { |xs| <= n && forall i :: 0 <= i < |xs| ==> |xs[i]| <= n }

  predicate IfaceWithin(a: IfaceAcc, n: nat) {
    && |a.addresses| <= n && |a.dnsServers| <= n
    && (a.mtu.Some? ==> a.mtu.value < 0x10000)
    && Within(a.preUp, n) && Within(a.postUp, n) && Within(a.preDown, n) && Within(a.postDown, n)
  }

  predicate CurWithin(p: PeerAcc, n: nat) {
    && |p.allowedIps| <= n
    && (p.endpointLiteral.Some? ==> |p.endpointLiteral.value| <= n)
    && (p.keepalive.Some? ==> p.keepalive.value < 0x10000)
  }

  predicate PeerWithin(p: Peer, n: nat) {
    CurWithin(PeerAcc(None, None, p.allowedIps, None, p.endpointLiteral, p.keepalive), n)
  }

  predicate PeersWithin(ps: seq<Peer>, n: nat) { |ps| <= n && forall i :: 0 <= i < |ps| ==> PeerWithin(ps[i], n) }

  /** A section in progress has used up its header already. */
  predicate AccWithin(acc: Acc, n: nat) {
    && IfaceWithin(acc.iface, n) && CurWithin(acc.cur, n) && PeersWithin(acc.peers, n)
    && (acc.section == InPeer ==> |acc.peers| < n)
  }

  lemma EndSectionWithin(acc: Acc, n: nat)
    requires AccWithin(acc, n) && EndSection(acc).Some?
    ensures var e := EndSection(acc).value;
            IfaceWithin(e.iface, n) && CurWithin(e.cur, n) && PeersWithin(e.peers, n)
  {
  }

  lemma InterfaceEntryWithin(o: Oracle, a: IfaceAcc, key: Key, value: string, n: nat)
    requires IfaceWithin(a, n) && InterfaceEntry(o, a, key, value).Some?
    ensures IfaceWithin(InterfaceEntry(o, a, key, value).value, n + |value| + 1)
  {
    hide Within, ParseAll, SplitCsv, ParseMtu;
    var m := n + |value| + 1;
    ListLength(o.net, value);
    ListLength(o.ip, value);
    MtuIsShort(value);
    forall xs: seq<string> | Within(xs, n)
      ensures Within(xs, m) && Within(xs + [value], m)
    {
      WithinGrows(xs, value, n);
    }
  }

  lemma WithinGrows(xs: seq<string>, x: string, n: nat)
    requires Within(xs, n)
    ensures Within(xs, n + |x| + 1) && Within(xs + [x], n + |x| + 1)
  {
  }

  lemma MtuIsShort(value: string)
    ensures ParseMtu(value).Some? ==> ParseMtu(value).value < 0x10000
  {
  }

  lemma PeerEntryWithin(o: Oracle, p: PeerAcc, key: Key, value: string, n: nat)
    requires CurWithin(p, n) && PeerEntry(o, p, key, value).Some?
    ensures CurWithin(PeerEntry(o, p, key, value).value, n + |value| + 1)
  {
    ListLength(o.net, value);
  }

  lemma StepWithin(o: Oracle, acc: Acc, item: Item, n: nat)
    requires AccWithin(acc, n) && Step(o, acc, item).Some?
    ensures AccWithin(Step(o, acc, item).value, n + Weight(item))
  {
    hide InterfaceEntry, PeerEntry, EndSection;
    match item {
      case InterfaceHeader => EndSectionWithin(acc, n);
      case PeerHeader => EndSectionWithin(acc, n);
      case Entry(key, value) =>
        if value != [] && acc.section == InInterface {
          InterfaceEntryWithin(o, acc.iface, key, value, n);
        } else if value != [] && acc.section == InPeer {
          PeerEntryWithin(o, acc.cur, key, value, n);
        }
      case _ =>
    }
  }

  lemma {:induction false} ScanWithin(o: Oracle, items: seq<Item>)
    requires Scan(o, items).Some?
    ensures AccWithin(Scan(o, items).value, Total(items))
  {
    if items != [] {
      ScanWithin(o, items[..|items| - 1]);
      StepWithin(o, Scan(o, items[..|items| - 1]).value, items[|items| - 1], Total(items[..|items| - 1]));
    }
  }

  lemma ShortTextsWithin(xs: seq<string>, n: nat)
    requires Within(xs, n) && 4 * n < WRAP
    ensures ShortTexts(xs)
  {
    forall i | 0 <= i < |xs|
      ensures ShortText(xs[i])
    {
      Utf8Length(xs[i]);
    }
  }

  lemma PeerFitsWithin(p: Peer, n: nat)
    requires PeerWithin(p, n) && 4 * n < WRAP
    ensures PeerFits(p)
  {
    if p.endpointLiteral.Some? { Utf8Length(p.endpointLiteral.value); }
  }

  /** Every configuration the daemon accepts fits its encoding, with room to spare. */
  lemma AcceptedTextsFit(o: Oracle, text: string)
    requires |text| <= AMPLE && Parse(o, text).Some?
    ensures Fits(Parse(o, text).value)
  {
    var items := Items(Lines(text));
    var c := Parse(o, text).value;
    var n := AMPLE + 1;
    LinesWeight(text);
    ScanWithin(o, items);
    EndSectionWithin(Scan(o, items).value, Total(items));
    ShortTextsWithin(c.preUp, n);
    ShortTextsWithin(c.postUp, n);
    ShortTextsWithin(c.preDown, n);
    ShortTextsWithin(c.postDown, n);
    forall i | 0 <= i < |c.peers|
      ensures PeerFits(c.peers[i])
    {
      PeerFitsWithin(c.peers[i], n);
    }
  }

  /** So, without any condition on lengths: two accepted texts have the same
      identity exactly when they parse to the same configuration, resolved
      endpoints aside. */
  lemma SameIdentityIff(o: Oracle, text: string, o': Oracle, text': string)
    requires |text| <= AMPLE && |text'| <= AMPLE
    requires Parse(o, text).Some? && Parse(o', text').Some?
    ensures Encode(Parse(o, text).value) == Encode(Parse(o', text').value) <==>
            Identity(Parse(o, text).value) == Identity(Parse(o', text').value)
  {
    AcceptedTextsFit(o, text);
    AcceptedTextsFit(o', text');
    BytesAreIdentity(Parse(o, text).value, Parse(o', text').value);
  }
}
