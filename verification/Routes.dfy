/** The routing side of the userspace helper: which routes the tunnel wants,
    what each `route` command does to the kernel table, and what setup, one
    reconcile tick and teardown compute. `RouteReconciler` runs these step by
    step; `RouteProofs` says what they guarantee over whole runs. */
module Routes {
  import opened Prelude
  import opened Cidr

  // ---- inputs and observations ----------------------------------------------

  /** A destination as the helper writes it: the endpoint pin is a bare
      address, everything else is a CIDR whose host bits are kept. */
  datatype Destination = Host(ip: IpAddr) | Block(net: Net)

  datatype Route = Route(isIpv6: bool, destination: Destination,
                         interface: Option<string>, gateway: Option<string>)

  datatype Inputs = Inputs(interface: string, endpoint: IpAddr, endpointNeedsPin: bool,
                           allowedIps: seq<Net>, dnsServers: seq<IpAddr>,
                           hasIpv4: bool, hasIpv6: bool)

  datatype Fingerprint = Fingerprint(localSubnets: seq<Net>, endpointGateway: Option<string>)

  /** What one tick reads from the host: the connected subnets, the device that
      carries each, and the default gateway (`None` when the lookup fails). */
  datatype Observation = Observation(subnets: seq<Net>, devices: map<Net, string>, gateway: Option<string>)

  predicate IsUtun(device: string) { "utun" <= device }

  // ---- the routes the tunnel wants -------------------------------------------

  function TunnelRoute(inputs: Inputs, net: Net): Route {
    Route(net.ip.family == V6, Block(net), Some(inputs.interface), None)
  }

  function PinRoute(inputs: Inputs, gateway: string): Route {
    Route(inputs.endpoint.family == V6, Host(inputs.endpoint), None, Some(gateway))
  }

  predicate IsTunnelBound(r: Route) { r.interface.Some? && r.gateway.None? }

  function RouteNet(r: Route): Net {
    match r.destination
    case Host(ip) => HostNet(ip)
    case Block(net) => net
  }

  /** `macos_route_destination`. */
  function RouteKey(r: Route): Net { Key(RouteNet(r)) }

  function HasFamily(inputs: Inputs, f: Family): bool {
    if f == V6 then inputs.hasIpv6 else inputs.hasIpv4
  }

  /** The routes one AllowedIPs entry stands for. */
  function RoutesFor(inputs: Inputs, allowed: Net): seq<Route> {
    if !HasFamily(inputs, allowed.ip.family) then []
    else if allowed == Everything(allowed.ip.family) then
      [TunnelRoute(inputs, LowHalf(allowed.ip.family)), TunnelRoute(inputs, HighHalf(allowed.ip.family))]
    else [TunnelRoute(inputs, allowed)]
  }

  function AllowedRoutes(inputs: Inputs, allowed: seq<Net>): seq<Route> {
    if allowed == [] then []
    else AllowedRoutes(inputs, allowed[..|allowed| - 1]) + RoutesFor(inputs, allowed[|allowed| - 1])
  }

  /** The first connected subnet that contains `n`. */
  function FirstContaining(subnets: seq<Net>, n: Net): Option<Net> {
    if subnets == [] then None
    else if SubnetContains(subnets[0], n) then Some(subnets[0])
    else FirstContaining(subnets[1..], n)
  }

  /** `macos_route_excluded_by_local_subnet`. */
  function ExcludedBy(r: Route, subnets: seq<Net>): Option<Net> {
    if !IsTunnelBound(r) then None else FirstContaining(subnets, RouteKey(r))
  }

  function NotExcluded(routes: seq<Route>, subnets: seq<Net>): seq<Route> {
    if routes == [] then []
    else
      var front := NotExcluded(routes[..|routes| - 1], subnets);
      var last := routes[|routes| - 1];
      if ExcludedBy(last, subnets).Some? then front else front + [last]
  }

  function Pins(inputs: Inputs, fp: Fingerprint): seq<Route> {
    if inputs.endpointNeedsPin && fp.endpointGateway.Some? then [PinRoute(inputs, fp.endpointGateway.value)] else []
  }

  /** What `macos_desired_routes` returns. */
  function Desired(inputs: Inputs, fp: Fingerprint): seq<Route> {
    Pins(inputs, fp) + NotExcluded(AllowedRoutes(inputs, inputs.allowedIps), fp.localSubnets)
  }

  function AnyCovers(allowed: seq<Net>, endpoint: IpAddr): bool {
    exists i :: 0 <= i < |allowed| && EndpointCoverTest(allowed[i], endpoint)
  }

  /** How `configure_network_macos` fixes `endpoint_needs_pin`. */
  predicate PinDecision(inputs: Inputs) {
    inputs.endpointNeedsPin ==
      ((inputs.endpoint.family == V4 || inputs.hasIpv6) && AnyCovers(inputs.allowedIps, inputs.endpoint))
  }

  /** `macos_dns_server_in_local_subnet`: is some tunnel resolver on a LAN? */
  predicate DnsCollision(servers: seq<IpAddr>, subnets: seq<Net>) {
    exists i :: 0 <= i < |servers| && FirstContaining(subnets, HostNet(servers[i])).Some?
  }

  // ---- the kernel table and the commands -------------------------------------

  datatype Holder = Device(name: string) | Via(gateway: string)

  /** `MacosRouteEntry::is_tunnel_owned`. */
  predicate IsTunnelOwned(h: Holder) { h.Device? && IsUtun(h.name) }

  type Table = map<Net, Holder>

  /** Every command takes a tick of `clock`; whether it succeeds is the
      environment's choice, made separately for each tick. */
  datatype Commands = Commands(looks: nat -> bool, dels: nat -> bool, adds: nat -> bool)

  datatype Sys = Sys(table: Table, clock: nat)

  function HolderOf(r: Route): Holder {
    match r.gateway
    case Some(g) => Via(g)
    case None => Device(match r.interface case Some(d) => d case None => "")
  }

  /** `macos_route_table_entry`: the entry for exactly this prefix. */
  function Lookup(cmds: Commands, s: Sys, key: Net): Option<Holder> {
    if cmds.looks(s.clock) && key in s.table then Some(s.table[key]) else None
  }

  function Ticked(s: Sys): Sys { s.(clock := s.clock + 1) }

  /** `route delete`: "not in table" counts as success. */
  function DeleteKey(cmds: Commands, s: Sys, key: Net): Sys {
    if cmds.dels(s.clock) then Ticked(s.(table := s.table - {key})) else Ticked(s)
  }

  /** `route add`: "File exists" counts as success and changes nothing. */
  function AddKey(cmds: Commands, s: Sys, key: Net, h: Holder): Sys {
    if cmds.adds(s.clock) && key !in s.table then Ticked(s.(table := s.table[key := h])) else Ticked(s)
  }

  datatype Install = Owned | Foreign | Failed

  /** `add_macos_route`. */
  function AddRoute(cmds: Commands, s: Sys, r: Route): (Sys, Install) {
    var key := RouteKey(r);
    if IsTunnelBound(r) then
      var entry := Lookup(cmds, s, key);
      var s1 := Ticked(s);
      if entry.Some? && !IsTunnelOwned(entry.value) then (s1, Foreign)
      else
        var s2 := if entry.Some? then DeleteKey(cmds, s1, key) else s1;
        (AddKey(cmds, s2, key, HolderOf(r)), if cmds.adds(s2.clock) then Owned else Failed)
    else (AddKey(cmds, s, key, HolderOf(r)), if cmds.adds(s.clock) then Owned else Failed)
  }

  /** `macos_restore_shadowed_lan_route`. */
  function RestoreShadowed(cmds: Commands, s: Sys, r: Route, obs: Observation): Sys {
    var subnet := ExcludedBy(r, obs.subnets);
    if subnet.None? then s
    else if Lookup(cmds, s, subnet.value).Some? then Ticked(s)
    else if subnet.value !in obs.devices then Ticked(s)
    else AddKey(cmds, Ticked(s), subnet.value, Device(obs.devices[subnet.value]))
  }

  /** Delete one route and, if that worked, repair the LAN behind it. */
  function DropRoute(cmds: Commands, s: Sys, r: Route, obs: Observation): Sys {
    var s1 := DeleteKey(cmds, s, RouteKey(r));
    if cmds.dels(s.clock) then RestoreShadowed(cmds, s1, r, obs) else s1
  }

  /** Drop every route of `current` that is not in `keep`, in order. */
  function RemoveStale(cmds: Commands, s: Sys, current: seq<Route>, keep: seq<Route>, obs: Observation): Sys
    decreases |current|
  {
    if current == [] then s
    else
      var s1 := if current[0] in keep then s else DropRoute(cmds, s, current[0], obs);
      RemoveStale(cmds, s1, current[1..], keep, obs)
  }

  /** Every delete this removal issues succeeds. */
  predicate StaleDeletesWork(cmds: Commands, s: Sys, current: seq<Route>, keep: seq<Route>, obs: Observation)
    decreases |current|
  {
    current == [] ||
    if current[0] in keep then StaleDeletesWork(cmds, s, current[1..], keep, obs)
    else cmds.dels(s.clock) && StaleDeletesWork(cmds, DropRoute(cmds, s, current[0], obs), current[1..], keep, obs)
  }

  /** Install every route of `desired` that is not in `current`; the second
      part is the new `routes_added`. */
  function AddMissing(cmds: Commands, s: Sys, desired: seq<Route>, current: seq<Route>): (Sys, seq<Route>)
    decreases |desired|
  {
    if desired == [] then (s, [])
    else
      var r := desired[0];
      if r in current then
        var (s1, rest) := AddMissing(cmds, s, desired[1..], current);
        (s1, [r] + rest)
      else
        var (s1, outcome) := AddRoute(cmds, s, r);
        var (s2, rest) := AddMissing(cmds, s1, desired[1..], current);
        (s2, if outcome == Owned then [r] + rest else rest)
  }

  /** Setup's variant of the loop stops at the first failing command. */
  function InstallAll(cmds: Commands, s: Sys, desired: seq<Route>): (Sys, seq<Route>, bool)
    decreases |desired|
  {
    if desired == [] then (s, [], true)
    else
      var (s1, outcome) := AddRoute(cmds, s, desired[0]);
      if outcome == Failed then (s1, [], false)
      else
        var (s2, rest, ok) := InstallAll(cmds, s1, desired[1..]);
        (s2, if outcome == Owned then [desired[0]] + rest else rest, ok)
  }

  function Reversed(rs: seq<Route>): seq<Route> {
    if rs == [] then [] else [rs[|rs| - 1]] + Reversed(rs[..|rs| - 1])
  }

  // ---- setup, tick, teardown -----------------------------------------------------

  datatype Helper = Helper(sys: Sys, routesAdded: seq<Route>, fp: Fingerprint)

  /** `macos_current_fingerprint` with `GatewayFallback::Keep`. */
  function CurrentFingerprint(inputs: Inputs, obs: Observation, previous: Option<string>): Fingerprint {
    Fingerprint(obs.subnets,
                if !inputs.endpointNeedsPin then None
                else if obs.gateway.Some? then obs.gateway else previous)
  }

  /** The route part of `configure_network_macos`. `laterOk` says whether the
      DNS step that follows succeeds; if not, everything is rolled back. */
  function Setup(inputs: Inputs, cmds: Commands, s: Sys, obs: Observation, laterOk: bool): (Sys, Option<Helper>) {
    if inputs.endpointNeedsPin && obs.gateway.None? then (s, None)
    else
      var fp := CurrentFingerprint(inputs, obs, None);
      var (s1, added, ok) := InstallAll(cmds, s, Desired(inputs, fp));
      if ok && laterOk then (s1, Some(Helper(s1, added, fp)))
      else (RemoveStale(cmds, s1, Reversed(added), [], obs), None)
  }

  /** `macos_reconcile_routes`. */
  function Tick(inputs: Inputs, cmds: Commands, h: Helper, obs: Observation): Helper {
    var fp := CurrentFingerprint(inputs, obs, h.fp.endpointGateway);
    if fp == h.fp then h
    else
      var desired := Desired(inputs, fp);
      var s1 := RemoveStale(cmds, h.sys, h.routesAdded, desired, obs);
      var (s2, installed) := AddMissing(cmds, s1, desired, h.routesAdded);
      Helper(s2, installed, fp)
  }

  /** The route half of `cleanup_network_macos`. */
  function Teardown(cmds: Commands, h: Helper, obs: Observation): Sys {
    RemoveStale(cmds, h.sys, Reversed(h.routesAdded), [], obs)
  }

  // ---- longest-prefix match -------------------------------------------------------

  /** Entry `n` answers the lookup of `a`: no entry covering `a` is longer
      (section 5.1 of RFC 4632). */
  ghost predicate Answers(t: Table, a: IpAddr, n: Net) {
    n in t && Covers(n, a) && forall m :: m in t && Covers(m, a) ==> m.prefix <= n.prefix
  }

  /** No lookup of `a` is answered by a tunnel device. */
  ghost predicate NeverTunnelled(t: Table, a: IpAddr) {
    forall n :: Answers(t, a, n) ==> !IsTunnelOwned(t[n])
  }
}
