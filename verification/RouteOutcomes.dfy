/** What the tunnel routes cover, in terms of the AllowedIPs and of the families
    the tunnel has an address of, and what a setup without failures leaves. */
module RouteOutcomes {
  import opened Prelude
  import opened Cidr
  import opened Routes
  import opened RouteProofs
  import opened RouteRuns
  import opened RouteOwnership

  /** The tunnel has an address of the block's family. */
  predicate Addressed(inputs: Inputs, n: Net) {
    (n.ip.family == V4 && inputs.hasIpv4) || (n.ip.family == V6 && inputs.hasIpv6)
  }

  /** An AllowedIPs entry of an addressed family covers `a`. */
  predicate Allowed(inputs: Inputs, a: IpAddr) {
    exists n :: n in inputs.allowedIps && Addressed(inputs, n) && Covers(n, a)
  }

  predicate OnLan(subnets: seq<Net>, r: Route) {
    exists lan :: lan in subnets && SubnetContains(lan, RouteKey(r))
  }

  /** Every address of an AllowedIPs entry of an addressed family has a tunnel
      route covering it, which is desired unless a connected subnet holds it. */
  lemma AllowedIsRouted(inputs: Inputs, fp: Fingerprint, n: Net, a: IpAddr)
    requires n in inputs.allowedIps && Addressed(inputs, n) && Covers(n, a)
    ensures exists r: Route :: IsTunnelBound(r) && HolderOf(r) == Device(inputs.interface) && Covers(RouteNet(r), a)
                               && (r in Desired(inputs, fp) <==> !OnLan(fp.localSubnets, r))
  {
    RoutesForCoverEntry(inputs, n, a);
    var r :| r in RoutesFor(inputs, n) && Covers(RouteNet(r), a);
    assert ComesFrom(inputs, r, n);
    AllowedRoutesMembers(inputs, inputs.allowedIps, r);
    FirstContainingFinds(fp.localSubnets, RouteKey(r));
    DesiredMembers(inputs, fp, r);
    AllowedRoutesAreTunnelBound(inputs, r);
    assert r !in Pins(inputs, fp);
  }

  /** And a tunnel route is desired for nothing else: it covers only addresses
      some AllowedIPs entry of an addressed family covers, none on a LAN. */
  lemma RoutedIsAllowed(inputs: Inputs, fp: Fingerprint, r: Route, a: IpAddr)
    requires r in Desired(inputs, fp) && IsTunnelBound(r) && Covers(RouteNet(r), a)
    ensures Allowed(inputs, a) && !OnLan(fp.localSubnets, r)
  {
    DesiredMembers(inputs, fp, r);
    AllowedRoutesMembers(inputs, inputs.allowedIps, r);
    var n :| n in inputs.allowedIps && ComesFrom(inputs, r, n);
    assert Addressed(inputs, n);
    RoutesForCoverEntry(inputs, n, a);
    FirstContainingFinds(fp.localSubnets, RouteKey(r));
  }

  /** The one desired route that is not bound to the tunnel is the host route of
      a pinned endpoint through the gateway. */
  lemma PinIsTheEndpoint(inputs: Inputs, fp: Fingerprint, r: Route)
    requires r in Desired(inputs, fp) && !IsTunnelBound(r)
    ensures inputs.endpointNeedsPin && fp.endpointGateway.Some?
    ensures HolderOf(r) == Via(fp.endpointGateway.value) && RouteKey(r) == PinKey(inputs)
    ensures forall a: IpAddr :: Covers(RouteNet(r), a) <==> a == inputs.endpoint
  {
    DesiredMembers(inputs, fp, r);
    HostNetIsItsKey(inputs.endpoint);
    if r in AllowedRoutes(inputs, inputs.allowedIps) { AllowedRoutesAreTunnelBound(inputs, r); }
    forall a: IpAddr
      ensures Covers(HostNet(inputs.endpoint), a) <==> a == inputs.endpoint
    {
      assert a.family == inputs.endpoint.family ==>
          a.bits[..Width(a.family)] == a.bits && inputs.endpoint.bits[..Width(a.family)] == inputs.endpoint.bits;
    }
  }

  // ---- a setup without failures ---------------------------------------------------------------

  /** No desired tunnel route meets a physical entry on its key. */
  ghost predicate NothingRefused(inputs: Inputs, fp: Fingerprint, t: Table) {
    forall r :: r in Desired(inputs, fp) && IsTunnelBound(r) && RouteKey(r) in t ==> IsTunnelOwned(t[RouteKey(r)])
  }

  /** Installing with working commands puts every tunnel route it does not leave
      to a physical holder in place. */
  lemma {:induction false} InstallAllInstalls(cmds: Commands, s: Sys, routes: seq<Route>, r: Route)
    requires AddsWork(cmds) && LooksWork(cmds) && DeletesWork(cmds) && r in routes
    requires KeysDistinct(routes) && forall q :: q in routes ==> IsTunnelBound(q)
    requires RouteKey(r) in s.table ==> IsTunnelOwned(s.table[RouteKey(r)])
    ensures InstallAll(cmds, s, routes).2 && r in InstallAll(cmds, s, routes).1
    ensures var t := InstallAll(cmds, s, routes).0.table; RouteKey(r) in t && t[RouteKey(r)] == HolderOf(r)
    decreases |routes|
  {
    hide RouteKey, HolderOf, IsTunnelBound;
    var s1 := AddRoute(cmds, s, routes[0]).0;
    AddRouteAdds(cmds, s, routes[0], RouteKey(r));
    if r == routes[0] {
      InstallAllLeaves(cmds, s1, routes[1..], RouteKey(r));
    } else {
      var i :| 0 <= i < |routes| && routes[i] == r;
      assert routes[1..][i - 1] == r;
      assert RouteKey(routes[0]) != RouteKey(routes[i]);
      InstallAllInstalls(cmds, s1, routes[1..], r);
    }
  }

  lemma AddRouteAdds(cmds: Commands, s: Sys, q: Route, k: Net)
    requires AddsWork(cmds) && LooksWork(cmds) && DeletesWork(cmds) && IsTunnelBound(q)
    ensures var (s', outcome) := AddRoute(cmds, s, q);
            && outcome != Failed
            && (k != RouteKey(q) ==> (k in s'.table <==> k in s.table) && (k in s.table ==> s'.table[k] == s.table[k]))
            && ((RouteKey(q) in s.table ==> IsTunnelOwned(s.table[RouteKey(q)])) ==>
                  outcome == Owned && RouteKey(q) in s'.table && s'.table[RouteKey(q)] == HolderOf(q))
  {
    hide RouteKey, HolderOf;
  }

  lemma {:induction false} InstallAllLeaves(cmds: Commands, s: Sys, routes: seq<Route>, k: Net)
    requires AddsWork(cmds) && LooksWork(cmds) && DeletesWork(cmds)
    requires forall q :: q in routes ==> IsTunnelBound(q) && RouteKey(q) != k
    requires k in s.table
    ensures InstallAll(cmds, s, routes).2
    ensures var t := InstallAll(cmds, s, routes).0.table; k in t && t[k] == s.table[k]
    decreases |routes|
  {
    if routes != [] {
      hide RouteKey, HolderOf, IsTunnelBound;
      assert routes[0] in routes;
      AddRouteAdds(cmds, s, routes[0], k);
      InstallAllLeaves(cmds, AddRoute(cmds, s, routes[0]).0, routes[1..], k);
    }
  }

  /** A tunnel entry of ours covers `a`, and only a longer entry can answer its
      lookups otherwise. */
  ghost predicate TunnelHas(inputs: Inputs, t: Table, a: IpAddr) {
    exists k :: k in t && t[k] == Device(inputs.interface) && Covers(k, a)
                && forall m: Net :: Answers(t, a, m) ==> IsTunnelOwned(t[m]) || m.prefix > k.prefix
  }

  lemma SameBlock(m: Net, k: Net, a: IpAddr)
    requires Key(m) == m && Key(k) == k && m.prefix == k.prefix && Covers(m, a) && Covers(k, a)
    ensures m == k
  {
    SameBase(m.ip, k.ip, m.prefix);
    SameBase(a, k.ip, m.prefix);
  }

  /** The table is indexed by network bases. */
  ghost predicate ByBase(t: Table) { forall m :: m in t ==> Key(m) == m }

  lemma KeyIsBase(n: Net)
    ensures Key(Key(n)) == Key(n)
  {
    BaseComposes(n.ip, n.prefix, n.prefix);
  }

  lemma InPlaceMeansHas(inputs: Inputs, t: Table, r: Route, a: IpAddr)
    requires IsUtun(inputs.interface) && HolderOf(r) == Device(inputs.interface) && Covers(RouteNet(r), a)
    requires RouteKey(r) in t && t[RouteKey(r)] == HolderOf(r)
    requires ByBase(t)
    ensures TunnelHas(inputs, t, a)
  {
    var k := RouteKey(r);
    KeyCovers(RouteNet(r), a);
    KeyIsBase(RouteNet(r));
    forall m: Net | Answers(t, a, m)
      ensures IsTunnelOwned(t[m]) || m.prefix > k.prefix
    {
      assert k.prefix <= m.prefix;
      if m.prefix == k.prefix { SameBlock(m, k, a); }
    }
  }

  /** No connected subnet holds `a`, and `a` is not an endpoint that is pinned. */
  predicate OffLan(inputs: Inputs, subnets: seq<Net>, a: IpAddr) {
    (forall lan :: lan in subnets ==> !Covers(lan, a)) && !(inputs.endpointNeedsPin && a == inputs.endpoint)
  }

  /** The route of such an address is desired, and not on the pin's key. */
  lemma RouteOf(inputs: Inputs, fp: Fingerprint, a: IpAddr) returns (r: Route)
    requires GoodInputs(inputs) && Allowed(inputs, a) && OffLan(inputs, fp.localSubnets, a)
    ensures r in Kept(inputs, fp) && r in Desired(inputs, fp) && IsTunnelBound(r) && HolderOf(r) == Device(inputs.interface)
    ensures Covers(RouteNet(r), a) && (inputs.endpointNeedsPin ==> RouteKey(r) != PinKey(inputs))
  {
    var n :| n in inputs.allowedIps && Addressed(inputs, n) && Covers(n, a);
    AllowedIsRouted(inputs, fp, n, a);
    r :| IsTunnelBound(r) && HolderOf(r) == Device(inputs.interface) && Covers(RouteNet(r), a)
         && (r in Desired(inputs, fp) <==> !OnLan(fp.localSubnets, r));
    hide Covers, OnLan, OffLan, GoodInputs, PinKey, RouteNet, Addressed, HolderOf, AllowedRoutes, NotExcluded;
    OffLanRoute(inputs, fp, a, r);
    DesiredKeys(inputs, fp);
    assert r !in Pins(inputs, fp);
  }

  /** A route that covers an address off the LANs is on no LAN, and is not the pin's. */
  lemma OffLanRoute(inputs: Inputs, fp: Fingerprint, a: IpAddr, r: Route)
    requires OffLan(inputs, fp.localSubnets, a) && Covers(RouteNet(r), a)
    ensures !OnLan(fp.localSubnets, r) && (inputs.endpointNeedsPin ==> RouteKey(r) != PinKey(inputs))
  {
    KeyCovers(RouteNet(r), a);
    forall lan | lan in fp.localSubnets
      ensures !SubnetContains(lan, RouteKey(r))
    {
      ContainsIsInclusion(lan, RouteKey(r));
    }
    if RouteKey(r) == PinKey(inputs) {
      var w := Width(a.family);
      assert a.bits[..w] == a.bits && inputs.endpoint.bits[..w] == inputs.endpoint.bits;
    }
  }

  lemma SetupInPlace(inputs: Inputs, cmds: Commands, s: Sys, obs: Observation, fp: Fingerprint, r: Route)
    requires CleanHost(inputs, cmds, s, obs) && AddsWork(cmds) && DeletesWork(cmds)
    requires r in Kept(inputs, fp) && (inputs.endpointNeedsPin ==> fp.endpointGateway.Some? && RouteKey(r) != PinKey(inputs))
    requires RouteKey(r) in s.table ==> IsTunnelOwned(s.table[RouteKey(r)])
    ensures InstallAll(cmds, s, Desired(inputs, fp)).2
    ensures var t := InstallAll(cmds, s, Desired(inputs, fp)).0.table; RouteKey(r) in t && t[RouteKey(r)] == HolderOf(r)
  {
    hide Kept, Desired, RouteKey, HolderOf, AddRoute, PinsFirst;
    DesiredKeys(inputs, fp);
    if inputs.endpointNeedsPin {
      assert !Mine(inputs, s.table, PinKey(inputs));
      var pin := PinRoute(inputs, fp.endpointGateway.value);
      PinInstalls(inputs, cmds, s, [], [], fp);
      PinIsAdded(inputs, cmds, s, fp.endpointGateway.value);
      assert Pins(inputs, fp) == [pin];
      assert Desired(inputs, fp)[0] == pin && Desired(inputs, fp)[1..] == Kept(inputs, fp);
      InstallAllInstalls(cmds, AddRoute(cmds, s, pin).0, Kept(inputs, fp), r);
    } else {
      assert Desired(inputs, fp) == Kept(inputs, fp);
      InstallAllInstalls(cmds, s, Kept(inputs, fp), r);
    }
  }

  lemma PinIsAdded(inputs: Inputs, cmds: Commands, s: Sys, gateway: string)
    requires AddsWork(cmds)
    ensures AddRoute(cmds, s, PinRoute(inputs, gateway)).1 == Owned
  {
  }

  /** After a setup whose commands work and that no physical entry refuses, every
      address of an AllowedIPs entry of an addressed family is routed into the
      tunnel, unless a connected subnet or a longer entry holds it, or it is the
      endpoint itself. */
  lemma SetupRoutesWhatIsAllowed(inputs: Inputs, cmds: Commands, s: Sys, obs: Observation, a: IpAddr)
    requires CleanHost(inputs, cmds, s, obs) && AddsWork(cmds) && DeletesWork(cmds) && ByBase(s.table)
    requires inputs.endpointNeedsPin ==> obs.gateway.Some?
    requires NothingRefused(inputs, CurrentFingerprint(inputs, obs, None), s.table)
    requires Allowed(inputs, a) && OffLan(inputs, obs.subnets, a)
    ensures Setup(inputs, cmds, s, obs, true).1.Some?
    ensures TunnelHas(inputs, Setup(inputs, cmds, s, obs, true).1.value.sys.table, a)
  {
    hide Kept, Desired, RouteKey, HolderOf, InstallAll, Mine, OffLan, Allowed;
    var fp := CurrentFingerprint(inputs, obs, None);
    var r := RouteOf(inputs, fp, a);
    SetupInPlace(inputs, cmds, s, obs, fp, r);
    SetupInstalls(inputs, cmds, s, obs, fp);
    InstallAllRecords(cmds, s, Desired(inputs, fp));
    var (s1, added, ok) := InstallAll(cmds, s, Desired(inputs, fp));
    StaysByBase(s.table, s1.table, added);
    InPlaceMeansHas(inputs, s1.table, r, a);
  }

  lemma StaysByBase(t: Table, t': Table, routes: seq<Route>)
    requires ByBase(t) && forall k :: k in t' && k !in t ==> HasKey(routes, k)
    ensures ByBase(t')
  {
    forall k | k in t'
      ensures Key(k) == k
    {
      if k !in t {
        var q :| q in routes && RouteKey(q) == k;
        KeyIsBase(RouteNet(q));
      }
    }
  }

  // ---- a tick without failures --------------------------------------------------------------------

  lemma {:induction false} AddMissingInstallsAll(cmds: Commands, s: Sys, routes: seq<Route>, current: seq<Route>, r: Route)
    requires AddsWork(cmds) && LooksWork(cmds) && DeletesWork(cmds) && r in routes
    requires KeysDistinct(routes) && forall q :: q in routes ==> IsTunnelBound(q)
    requires if r in current then RouteKey(r) in s.table && s.table[RouteKey(r)] == HolderOf(r)
             else RouteKey(r) in s.table ==> IsTunnelOwned(s.table[RouteKey(r)])
    ensures r in AddMissing(cmds, s, routes, current).1
    ensures var t := AddMissing(cmds, s, routes, current).0.table; RouteKey(r) in t && t[RouteKey(r)] == HolderOf(r)
    decreases |routes|
  {
    hide RouteKey, HolderOf, IsTunnelBound;
    var s1 := if routes[0] in current then s else AddRoute(cmds, s, routes[0]).0;
    AddRouteAdds(cmds, s, routes[0], RouteKey(r));
    if r == routes[0] {
      AddMissingLeavesKey(cmds, s1, routes[1..], current, RouteKey(r));
    } else {
      var i :| 0 <= i < |routes| && routes[i] == r;
      assert routes[1..][i - 1] == r;
      assert RouteKey(routes[0]) != RouteKey(routes[i]);
      AddMissingInstallsAll(cmds, s1, routes[1..], current, r);
    }
  }

  lemma {:induction false} AddMissingLeavesKey(cmds: Commands, s: Sys, routes: seq<Route>, current: seq<Route>, k: Net)
    requires AddsWork(cmds) && LooksWork(cmds) && DeletesWork(cmds)
    requires forall q :: q in routes ==> IsTunnelBound(q) && RouteKey(q) != k
    requires k in s.table
    ensures var t := AddMissing(cmds, s, routes, current).0.table; k in t && t[k] == s.table[k]
    decreases |routes|
  {
    if routes != [] {
      hide RouteKey, HolderOf, IsTunnelBound;
      assert routes[0] in routes;
      AddRouteAdds(cmds, s, routes[0], k);
      AddMissingLeavesKey(cmds, if routes[0] in current then s else AddRoute(cmds, s, routes[0]).0, routes[1..], current, k);
    }
  }

  /** The table a tick installs into holds the kept routes, and of the others no
      physical entry on a desired key that was not there before. */
  lemma RemovalLeavesReady(inputs: Inputs, cmds: Commands, h: Helper, obs: Observation, fp: Fingerprint, r: Route)
    requires RecordExact(inputs, h, obs.subnets) && PhysicalDevices(obs) && DeletesWork(cmds) && fp.localSubnets == obs.subnets
    requires r in Kept(inputs, fp) && (RouteKey(r) in h.sys.table ==> IsTunnelOwned(h.sys.table[RouteKey(r)]))
    ensures var t := RemoveStale(cmds, h.sys, h.routesAdded, Desired(inputs, fp), obs).table;
            if r in h.routesAdded then RouteKey(r) in t && t[RouteKey(r)] == HolderOf(r)
            else RouteKey(r) in t ==> IsTunnelOwned(t[RouteKey(r)])
  {
    hide Kept, Desired, RouteKey, HolderOf, RemoveStale, Mine;
    var keep := Desired(inputs, fp);
    DesiredKeys(inputs, fp);
    RemoveStaleFrame(cmds, h.sys, h.routesAdded, keep, obs);
    RemoveStaleRestores(cmds, h.sys, h.routesAdded, keep, obs);
    RecordedInjective(inputs, h.fp, h.sys.table, h.routesAdded);
    KeptIsOffLan(inputs, fp, r);
    if r in h.routesAdded { assert !Removes(h.routesAdded, keep, RouteKey(r)); }
  }

  lemma KeptIsOffLan(inputs: Inputs, fp: Fingerprint, r: Route)
    requires GoodInputs(inputs) && r in Kept(inputs, fp)
    ensures r in Desired(inputs, fp) && RouteKey(r) !in fp.localSubnets
  {
    DesiredKeys(inputs, fp);
    NotExcludedMembers(AllowedRoutes(inputs, inputs.allowedIps), fp.localSubnets, r);
    FirstContainingFinds(fp.localSubnets, RouteKey(r));
    assert SubnetContains(RouteKey(r), RouteKey(r));
  }

  lemma TickInPlace(inputs: Inputs, cmds: Commands, h: Helper, obs: Observation, fp: Fingerprint, r: Route)
    requires RecordExact(inputs, h, obs.subnets) && PhysicalDevices(obs) && fp.localSubnets == obs.subnets
    requires AddsWork(cmds) && DeletesWork(cmds) && LooksWork(cmds)
    requires r in Kept(inputs, fp) && (RouteKey(r) in h.sys.table ==> IsTunnelOwned(h.sys.table[RouteKey(r)]))
    requires inputs.endpointNeedsPin ==> fp.endpointGateway.Some? && RouteKey(r) != PinKey(inputs)
    ensures var s1 := RemoveStale(cmds, h.sys, h.routesAdded, Desired(inputs, fp), obs);
            var t := AddMissing(cmds, s1, Desired(inputs, fp), h.routesAdded).0.table;
            RouteKey(r) in t && t[RouteKey(r)] == HolderOf(r)
  {
    hide Kept, Desired, RouteKey, HolderOf, RemoveStale, PinsFirst;
    var s1 := RemoveStale(cmds, h.sys, h.routesAdded, Desired(inputs, fp), obs);
    RemovalLeavesReady(inputs, cmds, h, obs, fp, r);
    DesiredKeys(inputs, fp);
    if inputs.endpointNeedsPin {
      var pin := PinRoute(inputs, fp.endpointGateway.value);
      assert Pins(inputs, fp) == [pin];
      assert Desired(inputs, fp)[0] == pin && Desired(inputs, fp)[1..] == Kept(inputs, fp);
      var s2 := if pin in h.routesAdded then s1 else AddRoute(cmds, s1, pin).0;
      PinTouchesOnlyItsKey(inputs, cmds, s1, fp.endpointGateway.value, RouteKey(r));
      AddMissingInstallsAll(cmds, s2, Kept(inputs, fp), h.routesAdded, r);
    } else {
      assert Desired(inputs, fp) == Kept(inputs, fp);
      AddMissingInstallsAll(cmds, s1, Kept(inputs, fp), h.routesAdded, r);
    }
  }

  lemma PinTouchesOnlyItsKey(inputs: Inputs, cmds: Commands, s: Sys, gateway: string, k: Net)
    requires k != PinKey(inputs)
    ensures var t := AddRoute(cmds, s, PinRoute(inputs, gateway)).0.table;
            (k in t <==> k in s.table) && (k in s.table ==> t[k] == s.table[k])
  {
    HostNetIsItsKey(inputs.endpoint);
  }

  /** After a tick whose commands work, acting on a change, the same holds: what
      AllowedIPs ask for is routed into the tunnel, for the subnets and the
      gateway of now. */
  lemma TickRoutesWhatIsAllowed(inputs: Inputs, cmds: Commands, h: Helper, obs: Observation, a: IpAddr)
    requires RecordExact(inputs, h, obs.subnets) && GoodTick(inputs, cmds, obs, obs.subnets) && ByBase(h.sys.table)
    requires AddsWork(cmds) && DeletesWork(cmds) && !TickMisrecords(inputs, cmds, h, obs)
    requires CurrentFingerprint(inputs, obs, h.fp.endpointGateway) != h.fp
    requires NothingRefused(inputs, CurrentFingerprint(inputs, obs, h.fp.endpointGateway), h.sys.table)
    requires Allowed(inputs, a) && OffLan(inputs, obs.subnets, a)
    ensures TunnelHas(inputs, Tick(inputs, cmds, h, obs).sys.table, a)
  {
    hide Kept, Desired, RouteKey, HolderOf, RemoveStale, AddMissing, Mine, OffLan, Allowed;
    var fp := CurrentFingerprint(inputs, obs, h.fp.endpointGateway);
    var r := RouteOf(inputs, fp, a);
    TickInPlace(inputs, cmds, h, obs, fp, r);
    WorkingDeletesWork(cmds, h.sys, h.routesAdded, Desired(inputs, fp), obs);
    TickKeepsRecord(inputs, cmds, h, obs, obs.subnets);
    TickByBase(inputs, cmds, h, obs, fp);
    InPlaceMeansHas(inputs, Tick(inputs, cmds, h, obs).sys.table, r, a);
  }

  lemma {:induction false} AddMissingByBase(cmds: Commands, s: Sys, routes: seq<Route>, current: seq<Route>)
    requires ByBase(s.table)
    ensures ByBase(AddMissing(cmds, s, routes, current).0.table)
    decreases |routes|
  {
    if routes != [] {
      KeyIsBase(RouteNet(routes[0]));
      AddMissingByBase(cmds, if routes[0] in current then s else AddRoute(cmds, s, routes[0]).0, routes[1..], current);
    }
  }

  lemma TickByBase(inputs: Inputs, cmds: Commands, h: Helper, obs: Observation, fp: Fingerprint)
    requires ByBase(h.sys.table) && PhysicalDevices(obs) && GoodSubnets(inputs, obs.subnets)
    requires fp == CurrentFingerprint(inputs, obs, h.fp.endpointGateway) && fp != h.fp
    ensures ByBase(Tick(inputs, cmds, h, obs).sys.table)
  {
    hide Desired, RemoveStale, AddMissing;
    var desired := Desired(inputs, fp);
    RemoveStaleRestores(cmds, h.sys, h.routesAdded, desired, obs);
    AddMissingByBase(cmds, RemoveStale(cmds, h.sys, h.routesAdded, desired, obs), desired, h.routesAdded);
  }
}
