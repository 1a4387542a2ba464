/** What the helper decides from what it sees: whether the endpoint needs a pin,
    whose table entries it may replace, and when a tick has anything to do. */
module RouteDecisions {
  import opened Prelude
  import opened Cidr
  import opened Routes
  import opened RouteProofs

  /** The endpoint is pinned exactly when the AllowedIPs cover it, an IPv6 one
      only if the interface has an IPv6 address. */
  lemma PinnedIff(inputs: Inputs)
    requires PinDecision(inputs)
    ensures inputs.endpointNeedsPin <==>
              (inputs.endpoint.family == V6 ==> inputs.hasIpv6) && exists n :: n in inputs.allowedIps && Covers(n, inputs.endpoint)
  {
    if n :| n in inputs.allowedIps && Covers(n, inputs.endpoint) {
      NothingCovers(inputs.allowedIps, inputs.endpoint, n);
    }
    if AnyCovers(inputs.allowedIps, inputs.endpoint) {
      var i :| 0 <= i < |inputs.allowedIps| && EndpointCoverTest(inputs.allowedIps[i], inputs.endpoint);
      CoverTestIsMembership(inputs.allowedIps[i], inputs.endpoint);
    }
  }

  /** Each route is handed to the command of its own address family. */
  lemma RoutesNameTheirFamily(inputs: Inputs, fp: Fingerprint, r: Route)
    requires r in Desired(inputs, fp)
    ensures r.isIpv6 <==> RouteKey(r).ip.family == V6
  {
    DesiredMembers(inputs, fp, r);
    if r in AllowedRoutes(inputs, inputs.allowedIps) {
      AllowedRoutesMembers(inputs, inputs.allowedIps, r);
    }
  }

  /** The desired tunnel routes of some AllowedIPs entries. */
  function TunnelRoutes(inputs: Inputs, fp: Fingerprint, allowed: seq<Net>): seq<Route> {
    NotExcluded(AllowedRoutes(inputs, allowed), fp.localSubnets)
  }

  lemma {:induction false} AllowedRoutesConcat(inputs: Inputs, a: seq<Net>, b: seq<Net>)
    ensures AllowedRoutes(inputs, a + b) == AllowedRoutes(inputs, a) + AllowedRoutes(inputs, b)
  {
    hide RoutesFor;
    if b == [] {
      assert a + b == a && AllowedRoutes(inputs, b) == [];
    } else {
      AllowedRoutesConcat(inputs, a, b[..|b| - 1]);
      assert (a + b)[..|a + b| - 1] == a + b[..|b| - 1];
      assert AllowedRoutes(inputs, a + b) == AllowedRoutes(inputs, a + b[..|b| - 1]) + RoutesFor(inputs, b[|b| - 1]);
    }
  }

  lemma {:induction false} NotExcludedConcat(a: seq<Route>, b: seq<Route>, subnets: seq<Net>)
    ensures NotExcluded(a + b, subnets) == NotExcluded(a, subnets) + NotExcluded(b, subnets)
  {
    if b == [] {
      assert a + b == a;
    } else {
      NotExcludedConcat(a, b[..|b| - 1], subnets);
      assert (a + b)[..|a + b| - 1] == a + b[..|b| - 1];
    }
  }

  /** The pin is installed first and removed last, the tunnel routes in the order
      of their AllowedIPs entries. */
  lemma DesiredInOrder(inputs: Inputs, fp: Fingerprint, a: seq<Net>, b: seq<Net>)
    requires inputs.allowedIps == a + b
    ensures Desired(inputs, fp) == Pins(inputs, fp) + (TunnelRoutes(inputs, fp, a) + TunnelRoutes(inputs, fp, b))
  {
    AllowedRoutesConcat(inputs, a, b);
    NotExcludedConcat(AllowedRoutes(inputs, a), AllowedRoutes(inputs, b), fp.localSubnets);
  }

  // ---- whose entries the helper may replace ---------------------------------------------

  /** An entry on any utun device counts as a tunnel's, and is replaced. */
  lemma StaleTunnelEntryIsReplaced(cmds: Commands, s: Sys, r: Route, unit: string)
    requires IsTunnelBound(r) && RouteKey(r) in s.table && s.table[RouteKey(r)] == Device("utun" + unit)
    requires cmds.looks(s.clock) && cmds.dels(s.clock + 1) && cmds.adds(s.clock + 2)
    ensures AddRoute(cmds, s, r) == (Sys(s.table[RouteKey(r) := Device(r.interface.value)], s.clock + 3), Owned)
  {
    assert ("utun" + unit)[..4] == "utun";
    assert (s.table - {RouteKey(r)})[RouteKey(r) := HolderOf(r)] == s.table[RouteKey(r) := HolderOf(r)];
  }

  /** Any other entry, through a gateway or on another device, is left alone
      and the route is not recorded. */
  lemma PhysicalEntryIsKept(cmds: Commands, s: Sys, r: Route)
    requires IsTunnelBound(r) && RouteKey(r) in s.table && cmds.looks(s.clock)
    requires match s.table[RouteKey(r)] case Via(_) => true case Device(name) => |name| < 4 || name[..4] != "utun"
    ensures AddRoute(cmds, s, r) == (Sys(s.table, s.clock + 1), Foreign)
  {
  }

  /** A free destination, or one whose entry the lookup missed, is added; a
      destination already there stays as it is and counts as added. */
  lemma UnseenEntryIsAdded(cmds: Commands, s: Sys, r: Route)
    requires IsTunnelBound(r) && (RouteKey(r) !in s.table || !cmds.looks(s.clock))
    ensures AddRoute(cmds, s, r)
         == if !cmds.adds(s.clock + 1) then (Sys(s.table, s.clock + 2), Failed)
            else (Sys(if RouteKey(r) in s.table then s.table else s.table[RouteKey(r) := Device(r.interface.value)], s.clock + 2), Owned)
  {
  }

  /** Dropping a pin touches its own destination only, even on a LAN. */
  lemma DroppingThePin(inputs: Inputs, cmds: Commands, s: Sys, obs: Observation, gateway: string)
    ensures DropRoute(cmds, s, PinRoute(inputs, gateway), obs)
         == Sys(if cmds.dels(s.clock) then s.table - {HostNet(inputs.endpoint)} else s.table, s.clock + 1)
  {
    HostNetIsItsKey(inputs.endpoint);
  }

  // ---- when a tick acts --------------------------------------------------------------------

  /** The host looks as the last pass saw it; a gateway matters only to a pinned
      endpoint, and a failed gateway lookup to nobody. */
  predicate Unchanged(inputs: Inputs, fp: Fingerprint, obs: Observation) {
    obs.subnets == fp.localSubnets && (inputs.endpointNeedsPin ==> obs.gateway.None? || obs.gateway == fp.endpointGateway)
  }

  /** What a helper has on record about the host. */
  predicate Saw(inputs: Inputs, fp: Fingerprint, obs: Observation, before: Option<string>) {
    && fp.localSubnets == obs.subnets
    && fp.endpointGateway == (if inputs.endpointNeedsPin && obs.gateway.Some? then obs.gateway else before)
  }

  lemma SetupSees(inputs: Inputs, cmds: Commands, s: Sys, obs: Observation, laterOk: bool)
    requires Setup(inputs, cmds, s, obs, laterOk).1.Some?
    ensures Saw(inputs, Setup(inputs, cmds, s, obs, laterOk).1.value.fp, obs, None)
    ensures inputs.endpointNeedsPin ==> obs.gateway.Some?
  {
  }

  /** A tick does nothing at all if the host has not changed; otherwise it runs
      and records what it saw. */
  lemma TickActsIff(inputs: Inputs, cmds: Commands, h: Helper, obs: Observation)
    requires !inputs.endpointNeedsPin ==> h.fp.endpointGateway == None
    ensures var t := Tick(inputs, cmds, h, obs);
            && (Unchanged(inputs, h.fp, obs) ==> t == h)
            && (!Unchanged(inputs, h.fp, obs) ==> t.fp != h.fp)
            && Saw(inputs, t.fp, obs, h.fp.endpointGateway)
            && (!inputs.endpointNeedsPin ==> t.fp.endpointGateway == None)
  {
    hide RemoveStale, AddMissing, Desired;
  }
}
