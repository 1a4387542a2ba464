/** What the route reconciler guarantees: single-shot facts about the desired
    routes first, then invariants over whole runs. */
module RouteProofs {
  import opened Prelude
  import opened Cidr
  import opened Routes

  // ---- the desired routes -----------------------------------------------------

  lemma {:induction false} FirstContainingFinds(subnets: seq<Net>, n: Net)
    ensures FirstContaining(subnets, n).Some? <==> exists c :: c in subnets && SubnetContains(c, n)
    ensures FirstContaining(subnets, n).Some? ==>
              FirstContaining(subnets, n).value in subnets && SubnetContains(FirstContaining(subnets, n).value, n)
  {
    if subnets != [] {
      FirstContainingFinds(subnets[1..], n);
      assert forall c :: c in subnets <==> c == subnets[0] || c in subnets[1..];
    }
  }

  lemma {:induction false} NotExcludedMembers(routes: seq<Route>, subnets: seq<Net>, r: Route)
    ensures r in NotExcluded(routes, subnets) <==> r in routes && ExcludedBy(r, subnets).None?
  {
    if routes != [] {
      NotExcludedMembers(routes[..|routes| - 1], subnets, r);
      assert routes == routes[..|routes| - 1] + [routes[|routes| - 1]];
    }
  }

  /** Route `r` was produced from AllowedIPs entry `n`. */
  predicate ComesFrom(inputs: Inputs, r: Route, n: Net) {
    r in RoutesFor(inputs, n)
  }

  lemma {:induction false} AllowedRoutesMembers(inputs: Inputs, allowed: seq<Net>, r: Route)
    ensures r in AllowedRoutes(inputs, allowed) <==> exists n :: n in allowed && ComesFrom(inputs, r, n)
  {
    if allowed != [] {
      var front, last := allowed[..|allowed| - 1], allowed[|allowed| - 1];
      assert allowed == front + [last];
      AllowedRoutesMembers(inputs, front, r);
      if ComesFrom(inputs, r, last) {
        assert last in allowed;
      }
    }
  }

  /** The routes of one entry cover exactly the addresses of that entry. */
  lemma RoutesForCoverEntry(inputs: Inputs, n: Net, a: IpAddr)
    requires HasFamily(inputs, n.ip.family)
    ensures Covers(n, a) <==> exists r :: r in RoutesFor(inputs, n) && Covers(RouteNet(r), a)
    ensures forall r :: r in RoutesFor(inputs, n) ==> IsTunnelBound(r) && HolderOf(r) == Device(inputs.interface)
  {
    var f := n.ip.family;
    if n == Everything(f) {
      HalvesPartition(f, a);
      var low, high := TunnelRoute(inputs, LowHalf(f)), TunnelRoute(inputs, HighHalf(f));
      assert RoutesFor(inputs, n) == [low, high];
      assert low in RoutesFor(inputs, n) && high in RoutesFor(inputs, n);
      assert RouteNet(low) == LowHalf(f) && RouteNet(high) == HighHalf(f);
      assert forall r :: r in RoutesFor(inputs, n) ==> r == low || r == high;
    } else {
      assert RoutesFor(inputs, n) == [TunnelRoute(inputs, n)];
      assert TunnelRoute(inputs, n) in RoutesFor(inputs, n);
    }
  }

  lemma AllowedRoutesAreTunnelBound(inputs: Inputs, r: Route)
    requires r in AllowedRoutes(inputs, inputs.allowedIps)
    ensures IsTunnelBound(r) && HolderOf(r) == Device(inputs.interface)
    ensures HasFamily(inputs, RouteNet(r).ip.family)
  {
    AllowedRoutesMembers(inputs, inputs.allowedIps, r);
  }

  lemma DesiredMembers(inputs: Inputs, fp: Fingerprint, r: Route)
    ensures r in Desired(inputs, fp) <==>
            || r in Pins(inputs, fp)
            || (r in AllowedRoutes(inputs, inputs.allowedIps) && ExcludedBy(r, fp.localSubnets).None?)
  {
    NotExcludedMembers(AllowedRoutes(inputs, inputs.allowedIps), fp.localSubnets, r);
  }

  /** When the helper decides not to pin, no route it may ever install covers
      the endpoint. */
  lemma UnpinnedMeansUncovered(inputs: Inputs, r: Route)
    requires PinDecision(inputs) && !inputs.endpointNeedsPin
    requires r in AllowedRoutes(inputs, inputs.allowedIps)
    ensures !Covers(RouteKey(r), inputs.endpoint)
  {
    AllowedRoutesMembers(inputs, inputs.allowedIps, r);
    var n :| n in inputs.allowedIps && ComesFrom(inputs, r, n);
    KeyCovers(RouteNet(r), inputs.endpoint);
    RoutesForCoverEntry(inputs, n, inputs.endpoint);
    NothingCovers(inputs.allowedIps, inputs.endpoint, n);
  }

  lemma NothingCovers(allowed: seq<Net>, endpoint: IpAddr, n: Net)
    requires n in allowed
    ensures Covers(n, endpoint) ==> AnyCovers(allowed, endpoint)
  {
    var i :| 0 <= i < |allowed| && allowed[i] == n;
    CoverTestIsMembership(allowed[i], endpoint);
  }

  // ---- the LAN is never hijacked ----------------------------------------------

  /** Every tunnel entry of `t` is a route the helper wants under `fp`. */
  ghost predicate TunnelEntriesDesired(inputs: Inputs, fp: Fingerprint, t: Table) {
    forall k :: k in t && IsTunnelOwned(t[k]) ==>
      exists r :: r in Desired(inputs, fp) && IsTunnelBound(r) && RouteKey(r) == k
  }

  /** Whatever the AllowedIPs and the connected subnets are: in a table holding
      the connected subnets and, as tunnel entries, only desired routes, no
      address of a connected subnet is ever answered by the tunnel. */
  lemma LanNeverHijacked(inputs: Inputs, fp: Fingerprint, t: Table, lan: Net, a: IpAddr)
    requires lan in fp.localSubnets && lan in t && Covers(lan, a)
    requires TunnelEntriesDesired(inputs, fp, t)
    ensures NeverTunnelled(t, a)
  {
    forall n | Answers(t, a, n)
      ensures !IsTunnelOwned(t[n])
    {
      if IsTunnelOwned(t[n]) {
        var r :| r in Desired(inputs, fp) && IsTunnelBound(r) && RouteKey(r) == n;
        NestedOrDisjoint(lan, n, a);
        FirstContainingFinds(fp.localSubnets, n);
        DesiredMembers(inputs, fp, r);
      }
    }
  }

  // ---- DNS pull-back agrees with route exclusion ------------------------------

  /** No resolver on a LAN: every AllowedIPs entry of an addressed family that
      covers a resolver still has a desired route covering it. */
  lemma ReachableResolverStaysRouted(inputs: Inputs, fp: Fingerprint, server: IpAddr, n: Net)
    requires server in inputs.dnsServers && !DnsCollision(inputs.dnsServers, fp.localSubnets)
    requires n in inputs.allowedIps && HasFamily(inputs, n.ip.family) && Covers(n, server)
    ensures exists r :: r in Desired(inputs, fp) && ComesFrom(inputs, r, n) && Covers(RouteNet(r), server)
  {
    RoutesForCoverEntry(inputs, n, server);
    var r :| r in RoutesFor(inputs, n) && Covers(RouteNet(r), server);
    AllowedRoutesMembers(inputs, inputs.allowedIps, r);
    assert ComesFrom(inputs, r, n);
    KeyCovers(RouteNet(r), server);
    FirstContainingFinds(fp.localSubnets, RouteKey(r));
    FirstContainingFinds(fp.localSubnets, HostNet(server));
    var i :| 0 <= i < |inputs.dnsServers| && inputs.dnsServers[i] == server;
    assert FirstContaining(fp.localSubnets, HostNet(inputs.dnsServers[i])).None?;
    forall lan | lan in fp.localSubnets
      ensures !SubnetContains(lan, RouteKey(r))
    {
      ContainsIsInclusion(lan, RouteKey(r));
      HostInSubnet(lan, server);
    }
    DesiredMembers(inputs, fp, r);
  }

  lemma HostInSubnet(lan: Net, a: IpAddr)
    ensures SubnetContains(lan, HostNet(a)) <==> Covers(lan, a)
  {
    ContainsIsInclusion(lan, HostNet(a));
    HostNetIsItsKey(a);
  }

  /** A resolver that collides with a LAN is answered by that LAN. */
  lemma CollidingResolverGoesToLan(inputs: Inputs, fp: Fingerprint, t: Table, server: IpAddr)
    requires forall lan :: lan in fp.localSubnets ==> lan in t
    requires TunnelEntriesDesired(inputs, fp, t)
    requires FirstContaining(fp.localSubnets, HostNet(server)).Some?
    ensures NeverTunnelled(t, server)
  {
    FirstContainingFinds(fp.localSubnets, HostNet(server));
    var lan := FirstContaining(fp.localSubnets, HostNet(server)).value;
    HostInSubnet(lan, server);
    LanNeverHijacked(inputs, fp, t, lan, server);
  }
}
