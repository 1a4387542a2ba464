/** `routes_added` is the only record of what teardown must undo. Over whole
    runs it matches the table exactly, no physical route is lost, and every
    connected LAN keeps its route. */
module RouteOwnership {
  import opened Prelude
  import opened Cidr
  import opened Routes
  import opened RouteProofs
  import opened RouteRuns

  /** Entry `k` is the tunnel's: held by a tunnel device, or the endpoint pin. */
  predicate Mine(inputs: Inputs, t: Table, k: Net) {
    k in t && (IsTunnelOwned(t[k]) || (inputs.endpointNeedsPin && k == PinKey(inputs)))
  }

  ghost predicate NoneOfOurs(inputs: Inputs, t: Table) { forall k :: !Mine(inputs, t, k) }

  predicate HasKey(routes: seq<Route>, k: Net) {
    exists r :: r in routes && RouteKey(r) == k
  }

  /** The record and the table agree: every recorded route is in the table as
      installed, and every entry of ours is recorded. */
  ghost predicate Matches(inputs: Inputs, t: Table, routes: seq<Route>) {
    && (forall r :: r in routes ==> RouteKey(r) in t && t[RouteKey(r)] == HolderOf(r))
    && (forall k :: Mine(inputs, t, k) ==> HasKey(routes, k))
  }

  predicate KeysDistinct(routes: seq<Route>) {
    forall i, j :: 0 <= i < j < |routes| ==> RouteKey(routes[i]) != RouteKey(routes[j])
  }

  /** The AllowedIPs are distinct as networks and the tunnel device is a utun. */
  predicate GoodInputs(inputs: Inputs) {
    IsUtun(inputs.interface) && KeysDistinct(AllowedRoutes(inputs, inputs.allowedIps))
  }

  /** Connected subnets are network bases, pairwise disjoint, and none is the
      endpoint itself. */
  predicate GoodSubnets(inputs: Inputs, subnets: seq<Net>) {
    && (forall c :: c in subnets ==> Key(c) == c && c != PinKey(inputs))
    && (forall c, d :: c in subnets && d in subnets && SubnetContains(c, d) ==> c == d)
  }

  predicate PhysicalOnlyConnected(t: Table, subnets: seq<Net>) {
    forall k :: k in t && t[k].Device? && !IsTunnelOwned(t[k]) ==> k in subnets
  }

  /** Every connected subnet has its own, physical, route. */
  predicate LansRouted(inputs: Inputs, t: Table, subnets: seq<Net>) {
    forall c :: c in subnets ==> c in t && !Mine(inputs, t, c)
  }

  // ---- the desired routes, by key -----------------------------------------------------

  lemma {:induction false} NotExcludedKeysDistinct(routes: seq<Route>, subnets: seq<Net>)
    requires KeysDistinct(routes)
    ensures KeysDistinct(NotExcluded(routes, subnets))
  {
    if routes != [] {
      var front, last := routes[..|routes| - 1], routes[|routes| - 1];
      NotExcludedKeysDistinct(front, subnets);
      var kept := NotExcluded(front, subnets);
      forall i | 0 <= i < |kept|
        ensures RouteKey(kept[i]) != RouteKey(last)
      {
        NotExcludedMembers(front, subnets, kept[i]);
      }
    }
  }

  /** Two desired routes share a key only if the first is the pin and the second
      the tunnel's own route for the endpoint. */
  predicate PinsFirst(routes: seq<Route>) {
    forall i, j :: 0 <= i < j < |routes| && RouteKey(routes[i]) == RouteKey(routes[j]) ==>
      !IsTunnelBound(routes[i]) && IsTunnelBound(routes[j])
  }

  /** The tunnel routes among the desired ones. */
  function Kept(inputs: Inputs, fp: Fingerprint): seq<Route> {
    NotExcluded(AllowedRoutes(inputs, inputs.allowedIps), fp.localSubnets)
  }

  lemma DesiredKeys(inputs: Inputs, fp: Fingerprint)
    requires GoodInputs(inputs)
    ensures Desired(inputs, fp) == Pins(inputs, fp) + Kept(inputs, fp)
    ensures KeysDistinct(Kept(inputs, fp)) && PinsFirst(Desired(inputs, fp))
    ensures forall r :: r in Kept(inputs, fp) ==> IsTunnelBound(r) && HolderOf(r) == Device(inputs.interface)
  {
    var routes := AllowedRoutes(inputs, inputs.allowedIps);
    NotExcludedKeysDistinct(routes, fp.localSubnets);
    var kept := Kept(inputs, fp);
    forall r | r in kept
      ensures IsTunnelBound(r) && HolderOf(r) == Device(inputs.interface)
    {
      NotExcludedMembers(routes, fp.localSubnets, r);
      AllowedRoutesAreTunnelBound(inputs, r);
    }
    var pins, desired := Pins(inputs, fp), Desired(inputs, fp);
    assert desired == pins + kept;
    assert forall i :: |pins| <= i < |desired| ==> desired[i] == kept[i - |pins|];
    forall i, j | 0 <= i < j < |desired| && RouteKey(desired[i]) == RouteKey(desired[j])
      ensures !IsTunnelBound(desired[i]) && IsTunnelBound(desired[j])
    {
    }
  }

  lemma SameKeySameRoute(routes: seq<Route>, r: Route, q: Route)
    requires KeysDistinct(routes) && r in routes && q in routes && RouteKey(r) == RouteKey(q)
    ensures r == q
  {
  }

  /** A desired route is the pin or a tunnel route. */
  lemma DesiredShape(inputs: Inputs, fp: Fingerprint, r: Route)
    requires GoodInputs(inputs) && r in Desired(inputs, fp)
    ensures if IsTunnelBound(r) then IsTunnelOwned(HolderOf(r)) && ExcludedBy(r, fp.localSubnets).None?
            else inputs.endpointNeedsPin && RouteKey(r) == PinKey(inputs)
  {
    DesiredMembers(inputs, fp, r);
    HostNetIsItsKey(inputs.endpoint);
    if r in AllowedRoutes(inputs, inputs.allowedIps) {
      AllowedRoutesAreTunnelBound(inputs, r);
    }
  }

  // ---- removing --------------------------------------------------------------------------

  /** Whatever removal puts in the table is the route of a connected subnet. */
  lemma {:induction false} RemoveStaleRestores(cmds: Commands, s: Sys, current: seq<Route>, keep: seq<Route>, obs: Observation)
    requires PhysicalDevices(obs)
    ensures var t := RemoveStale(cmds, s, current, keep, obs).table;
            forall k :: k in t && (k !in s.table || t[k] != s.table[k]) ==>
              k in obs.subnets && t[k].Device? && !IsTunnelOwned(t[k])
    decreases |current|
  {
    if current != [] && current[0] !in keep {
      DropRouteRestores(cmds, s, current[0], obs);
      RemoveStaleRestores(cmds, DropRoute(cmds, s, current[0], obs), current[1..], keep, obs);
    } else if current != [] {
      RemoveStaleRestores(cmds, s, current[1..], keep, obs);
    }
  }

  lemma DropRouteRestores(cmds: Commands, s: Sys, r: Route, obs: Observation)
    requires PhysicalDevices(obs)
    ensures var t := DropRoute(cmds, s, r, obs).table;
            forall k :: k in t && (k !in s.table || t[k] != s.table[k]) ==>
              k in obs.subnets && t[k].Device? && !IsTunnelOwned(t[k])
    ensures cmds.dels(s.clock) && RouteKey(r) in DropRoute(cmds, s, r, obs).table ==>
              RouteKey(r) in obs.subnets && !IsTunnelOwned(DropRoute(cmds, s, r, obs).table[RouteKey(r)])
  {
    FirstContainingFinds(obs.subnets, RouteKey(r));
  }

  lemma {:induction false} WorkingDeletesWork(cmds: Commands, s: Sys, current: seq<Route>, keep: seq<Route>, obs: Observation)
    requires DeletesWork(cmds)
    ensures StaleDeletesWork(cmds, s, current, keep, obs)
    decreases |current|
  {
    if current != [] {
      WorkingDeletesWork(cmds, if current[0] in keep then s else DropRoute(cmds, s, current[0], obs), current[1..], keep, obs);
    }
  }

  /** With working deletes a removed route leaves its key to a LAN or to nobody. */
  lemma {:induction false} RemoveStaleDeletes(cmds: Commands, s: Sys, current: seq<Route>, keep: seq<Route>, obs: Observation, k: Net)
    requires PhysicalDevices(obs) && StaleDeletesWork(cmds, s, current, keep, obs) && Removes(current, keep, k)
    ensures var t := RemoveStale(cmds, s, current, keep, obs).table;
            k in t ==> k in obs.subnets && !IsTunnelOwned(t[k])
    decreases |current|
  {
    var s1 := if current[0] in keep then s else DropRoute(cmds, s, current[0], obs);
    if current[0] !in keep && RouteKey(current[0]) == k {
      DropRouteRestores(cmds, s, current[0], obs);
      RemoveStaleRestores(cmds, s1, current[1..], keep, obs);
    } else {
      assert Removes(current[1..], keep, k);
      RemoveStaleDeletes(cmds, s1, current[1..], keep, obs, k);
    }
  }

  /** Removal turns a matching record into a matching record of what it kept. */
  lemma RemoveStaleMatches(inputs: Inputs, cmds: Commands, s: Sys, current: seq<Route>, keep: seq<Route>,
                           obs: Observation, kept: seq<Route>)
    requires Matches(inputs, s.table, current) && KeysInjective(current)
    requires StaleDeletesWork(cmds, s, current, keep, obs) && PhysicalDevices(obs) && GoodSubnets(inputs, obs.subnets)
    requires forall r :: r in kept <==> r in current && r in keep
    ensures Matches(inputs, RemoveStale(cmds, s, current, keep, obs).table, kept)
  {
    var t := RemoveStale(cmds, s, current, keep, obs).table;
    RemoveStaleFrame(cmds, s, current, keep, obs);
    RemoveStaleRestores(cmds, s, current, keep, obs);
    forall k | Mine(inputs, t, k)
      ensures HasKey(kept, k)
    {
      assert Mine(inputs, s.table, k);
      var r :| r in current && RouteKey(r) == k;
      if r !in keep {
        assert Removes(current, keep, k);
        RemoveStaleDeletes(cmds, s, current, keep, obs, k);
      }
    }
  }

  predicate KeysInjective(routes: seq<Route>) {
    forall r, q :: r in routes && q in routes && RouteKey(r) == RouteKey(q) ==> r == q
  }

  /** Physical entries survive removal: their keys are nobody's. */
  lemma RemoveStaleKeepsPhysical(inputs: Inputs, cmds: Commands, s: Sys, current: seq<Route>, keep: seq<Route>, obs: Observation)
    requires PhysicalDevices(obs)
    requires forall r :: r in current ==> Mine(inputs, s.table, RouteKey(r))
    ensures var t := RemoveStale(cmds, s, current, keep, obs).table;
            forall k :: k in s.table && !Mine(inputs, s.table, k) ==> k in t && t[k] == s.table[k]
  {
    RemoveStaleFrame(cmds, s, current, keep, obs);
  }

  /** Dropping the tunnel route that shadows a LAN puts the LAN's route back. */
  lemma {:induction false} RemoveStaleKeepsLans(inputs: Inputs, cmds: Commands, s: Sys, current: seq<Route>,
                                                keep: seq<Route>, obs: Observation, lan: Net)
    requires AddsWork(cmds) && GoodSubnets(inputs, obs.subnets) && lan in obs.subnets && lan in obs.devices
    requires forall r :: r in current && RouteKey(r) == lan ==> IsTunnelBound(r)
    requires lan in s.table
    ensures lan in RemoveStale(cmds, s, current, keep, obs).table
    decreases |current|
  {
    if current != [] {
      var r := current[0];
      var s1 := if r in keep then s else DropRoute(cmds, s, r, obs);
      if r !in keep && RouteKey(r) == lan {
        FirstContainingFinds(obs.subnets, lan);
        assert SubnetContains(lan, lan);
        assert ExcludedBy(r, obs.subnets) == Some(lan);
      }
      RemoveStaleKeepsLans(inputs, cmds, s1, current[1..], keep, obs, lan);
    }
  }

  // ---- installing -------------------------------------------------------------------------

  /** The key of a tunnel route is held by someone else, who keeps it. */
  predicate Refused(t: Table, r: Route) {
    IsTunnelBound(r) && RouteKey(r) in t && !IsTunnelOwned(t[RouteKey(r)])
  }

  /** Ready to install `r`: it is already there, its key is not ours, or the key
      is the pin's and `r` will be refused. */
  predicate Ready(inputs: Inputs, t: Table, current: seq<Route>, r: Route) {
    if r in current then RouteKey(r) in t && t[RouteKey(r)] == HolderOf(r)
    else !Mine(inputs, t, RouteKey(r)) || Refused(t, r)
  }

  predicate Shaped(inputs: Inputs, r: Route) {
    if IsTunnelBound(r) then IsTunnelOwned(HolderOf(r))
    else inputs.endpointNeedsPin && RouteKey(r) == PinKey(inputs)
  }

  lemma AddRouteOwns(inputs: Inputs, cmds: Commands, s: Sys, r: Route)
    requires LooksWork(cmds) && Shaped(inputs, r) && (!Mine(inputs, s.table, RouteKey(r)) || Refused(s.table, r))
    ensures var (s', outcome) := AddRoute(cmds, s, r);
            && (outcome == Owned ==> s'.table == s.table[RouteKey(r) := HolderOf(r)] && RouteKey(r) !in s.table)
            && (outcome != Owned ==> s'.table == s.table)
  {
  }

  /** What is recorded was wanted, and what was wanted and present is recorded. */
  lemma {:induction false} AddMissingRecords(cmds: Commands, s: Sys, desired: seq<Route>, current: seq<Route>)
    ensures var installed := AddMissing(cmds, s, desired, current).1;
            && (forall r :: r in desired && r in current ==> r in installed)
            && (forall r :: r in installed ==> r in desired)
    decreases |desired|
  {
    if desired != [] {
      var r := desired[0];
      var s1 := if r in current then s else AddRoute(cmds, s, r).0;
      AddMissingRecords(cmds, s1, desired[1..], current);
      var tail := AddMissing(cmds, s1, desired[1..], current).1;
      var installed := AddMissing(cmds, s, desired, current).1;
      assert forall q :: q in installed ==> q == r || q in tail;
      assert forall q :: q in tail ==> q in installed;
      assert forall q :: q in desired <==> q == r || q in desired[1..];
    }
  }

  predicate AllReady(inputs: Inputs, t: Table, current: seq<Route>, desired: seq<Route>) {
    forall r :: r in desired ==> Shaped(inputs, r) && Ready(inputs, t, current, r)
  }

  lemma ReadyAfterFirst(inputs: Inputs, cmds: Commands, s: Sys, desired: seq<Route>, current: seq<Route>)
    requires LooksWork(cmds) && KeysDistinct(desired) && desired != [] && AllReady(inputs, s.table, current, desired)
    ensures var s1 := if desired[0] in current then s else AddRoute(cmds, s, desired[0]).0;
            KeysDistinct(desired[1..]) && AllReady(inputs, s1.table, current, desired[1..])
  {
    var r, rest := desired[0], desired[1..];
    var s1 := if r in current then s else AddRoute(cmds, s, r).0;
    if r !in current { AddRouteOwns(inputs, cmds, s, r); }
    forall q | q in rest
      ensures Shaped(inputs, q) && Ready(inputs, s1.table, current, q)
    {
      var j :| 0 <= j < |rest| && rest[j] == q;
      assert desired[j + 1] == q;
    }
  }

  /** Installing keeps every entry that was there and records exactly what it
      put in, even when adds fail. */
  lemma {:induction false} AddMissingOwns(inputs: Inputs, cmds: Commands, s: Sys, desired: seq<Route>, current: seq<Route>)
    requires LooksWork(cmds) && KeysDistinct(desired) && AllReady(inputs, s.table, current, desired)
    ensures var (s', installed) := AddMissing(cmds, s, desired, current);
            && (forall k :: k in s.table ==> k in s'.table && s'.table[k] == s.table[k])
            && (forall k :: k in s'.table && k !in s.table ==> HasKey(installed, k) && Mine(inputs, s'.table, k))
            && (forall r :: r in installed ==> RouteKey(r) in s'.table && s'.table[RouteKey(r)] == HolderOf(r))
    decreases |desired|
  {
    hide AddRoute, HolderOf, RouteKey;
    if desired != [] {
      var r, rest := desired[0], desired[1..];
      var s1 := if r in current then s else AddRoute(cmds, s, r).0;
      assert Ready(inputs, s.table, current, r);
      if r !in current { AddRouteOwns(inputs, cmds, s, r); }
      ReadyAfterFirst(inputs, cmds, s, desired, current);
      AddMissingOwns(inputs, cmds, s1, rest, current);
      var tail := AddMissing(cmds, s1, rest, current).1;
      var installed := AddMissing(cmds, s, desired, current).1;
      assert forall q :: q in installed ==> q in tail || (q == r && RouteKey(r) in s1.table && s1.table[RouteKey(r)] == HolderOf(r));
      assert forall q :: q in tail ==> q in installed;
      assert forall k :: HasKey(tail, k) ==> HasKey(installed, k);
      assert forall k :: k in s1.table && k !in s.table ==> r in installed && k == RouteKey(r);
    }
  }

  // ---- one tick -----------------------------------------------------------------------------

  /** The state between steps. */
  ghost predicate RecordExact(inputs: Inputs, h: Helper, subnets: seq<Net>) {
    && GoodInputs(inputs) && GoodSubnets(inputs, subnets)
    && Matches(inputs, h.sys.table, h.routesAdded)
    && PhysicalOnlyConnected(h.sys.table, subnets)
    && (forall r :: r in h.routesAdded ==> r in Desired(inputs, h.fp)) && KeysDistinct(h.routesAdded)
    && (inputs.endpointNeedsPin ==> h.fp.endpointGateway.Some?)
  }

  /** A tick whose lookups work and whose reading is right; adds and deletes
      may fail. */
  ghost predicate GoodTick(inputs: Inputs, cmds: Commands, obs: Observation, subnets: seq<Net>) {
    && LooksWork(cmds) && PhysicalDevices(obs)
    && obs.subnets == subnets && (forall c :: c in subnets ==> c in obs.devices)
  }

  /** Of the pin and a tunnel route on its key at most one is in the table, so
      at most one is on record. */
  lemma RecordedInjective(inputs: Inputs, fp: Fingerprint, t: Table, routes: seq<Route>)
    requires GoodInputs(inputs) && forall r :: r in routes ==> r in Desired(inputs, fp)
    requires forall r :: r in routes ==> RouteKey(r) in t && t[RouteKey(r)] == HolderOf(r)
    ensures KeysInjective(routes)
  {
    DesiredKeys(inputs, fp);
    forall r, q | r in routes && q in routes && RouteKey(r) == RouteKey(q)
      ensures r == q
    {
      assert HolderOf(r) == HolderOf(q);
      if r in Kept(inputs, fp) && q in Kept(inputs, fp) { SameKeySameRoute(Kept(inputs, fp), r, q); }
    }
  }

  lemma RecordedAreMine(inputs: Inputs, h: Helper, subnets: seq<Net>, r: Route)
    requires RecordExact(inputs, h, subnets) && r in h.routesAdded
    ensures Mine(inputs, h.sys.table, RouteKey(r)) && Shaped(inputs, r)
    ensures RouteKey(r) in subnets ==> IsTunnelBound(r)
  {
    DesiredShape(inputs, h.fp, r);
  }

  function Both(a: seq<Route>, b: seq<Route>): (c: seq<Route>)
    ensures forall r :: r in c <==> r in a && r in b
  {
    if a == [] then [] else if a[0] in b then [a[0]] + Both(a[1..], b) else Both(a[1..], b)
  }

  /** Every delete this tick issues for a route it no longer wants succeeds. */
  predicate TickDeletesWork(inputs: Inputs, cmds: Commands, h: Helper, obs: Observation) {
    var fp := CurrentFingerprint(inputs, obs, h.fp.endpointGateway);
    fp == h.fp || StaleDeletesWork(cmds, h.sys, h.routesAdded, Desired(inputs, fp), obs)
  }

  lemma {:induction false} AddMissingPinsFirst(cmds: Commands, s: Sys, desired: seq<Route>, current: seq<Route>)
    requires PinsFirst(desired)
    ensures PinsFirst(AddMissing(cmds, s, desired, current).1)
    decreases |desired|
  {
    if desired != [] {
      var r, rest := desired[0], desired[1..];
      var s1 := if r in current then s else AddRoute(cmds, s, r).0;
      AddMissingPinsFirst(cmds, s1, rest, current);
      AddMissingRecords(cmds, s1, rest, current);
      var tail := AddMissing(cmds, s1, rest, current).1;
      forall i | 0 <= i < |tail| && RouteKey(tail[i]) == RouteKey(r)
        ensures !IsTunnelBound(r) && IsTunnelBound(tail[i])
      {
        assert tail[i] in rest;
        var j :| 0 <= j < |rest| && rest[j] == tail[i];
        assert desired[j + 1] == tail[i];
      }
    }
  }

  /** The key of the pin is taken by a tunnel route when the pin is added: the
      add reports success and changes nothing. */
  predicate Misrecords(inputs: Inputs, cmds: Commands, s: Sys, current: seq<Route>, fp: Fingerprint) {
    && inputs.endpointNeedsPin && fp.endpointGateway.Some?
    && PinRoute(inputs, fp.endpointGateway.value) !in current
    && PinKey(inputs) in s.table && IsTunnelOwned(s.table[PinKey(inputs)])
    && cmds.adds(s.clock)
  }

  /** This tick puts a pin on record that is not in the table. */
  predicate TickMisrecords(inputs: Inputs, cmds: Commands, h: Helper, obs: Observation) {
    var fp := CurrentFingerprint(inputs, obs, h.fp.endpointGateway);
    fp != h.fp && Misrecords(inputs, cmds, RemoveStale(cmds, h.sys, h.routesAdded, Desired(inputs, fp), obs), h.routesAdded, fp)
  }

  lemma TickKeepsRecord(inputs: Inputs, cmds: Commands, h: Helper, obs: Observation, subnets: seq<Net>)
    requires RecordExact(inputs, h, subnets) && GoodTick(inputs, cmds, obs, subnets)
    requires TickDeletesWork(inputs, cmds, h, obs) && !TickMisrecords(inputs, cmds, h, obs)
    ensures RecordExact(inputs, Tick(inputs, cmds, h, obs), subnets)
    ensures var t := Tick(inputs, cmds, h, obs).sys.table;
            forall k :: k in h.sys.table && !Mine(inputs, h.sys.table, k) ==> k in t && t[k] == h.sys.table[k]
    ensures AddsWork(cmds) ==> forall c :: c in subnets && c in h.sys.table ==> c in Tick(inputs, cmds, h, obs).sys.table
  {
    var fp := CurrentFingerprint(inputs, obs, h.fp.endpointGateway);
    if fp != h.fp {
      var desired, current := Desired(inputs, fp), h.routesAdded;
      var kept := Both(current, desired);
      forall r | r in current
        ensures Mine(inputs, h.sys.table, RouteKey(r)) && (RouteKey(r) in subnets ==> IsTunnelBound(r))
      {
        RecordedAreMine(inputs, h, subnets, r);
      }
      RecordedInjective(inputs, h.fp, h.sys.table, current);
      var s1 := RemoveStale(cmds, h.sys, current, desired, obs);
      RemoveStaleMatches(inputs, cmds, h.sys, current, desired, obs, kept);
      RemoveStaleKeepsPhysical(inputs, cmds, h.sys, current, desired, obs);
      RemoveStaleRestores(cmds, h.sys, current, desired, obs);
      if AddsWork(cmds) {
        forall c | c in subnets && c in h.sys.table
          ensures c in s1.table
        {
          RemoveStaleKeepsLans(inputs, cmds, h.sys, current, desired, obs, c);
        }
      }
      InstallKeepsRecord(inputs, cmds, s1, current, kept, fp, subnets);
    }
  }

  /** The pin, which comes first: where it was, newly in place, or refused. */
  lemma PinInstalls(inputs: Inputs, cmds: Commands, s: Sys, current: seq<Route>, kept: seq<Route>, fp: Fingerprint)
    requires GoodInputs(inputs) && inputs.endpointNeedsPin && fp.endpointGateway.Some?
    requires Matches(inputs, s.table, kept) && !Misrecords(inputs, cmds, s, current, fp)
    requires forall r :: r in kept <==> r in current && r in Desired(inputs, fp)
    ensures var pin := PinRoute(inputs, fp.endpointGateway.value);
            var (s1, outcome) := AddRoute(cmds, s, pin);
            && RouteKey(pin) == PinKey(inputs) && pin in Desired(inputs, fp)
            && (pin !in current ==>
                  if outcome == Owned then PinKey(inputs) !in s.table && s1.table == s.table[PinKey(inputs) := HolderOf(pin)]
                  else s1.table == s.table)
  {
    var pin := PinRoute(inputs, fp.endpointGateway.value);
    HostNetIsItsKey(inputs.endpoint);
    assert pin in Pins(inputs, fp);
    DesiredMembers(inputs, fp, pin);
    DesiredKeys(inputs, fp);
    if pin !in current && PinKey(inputs) in s.table {
      assert Mine(inputs, s.table, PinKey(inputs));
      var q :| q in kept && RouteKey(q) == PinKey(inputs);
      assert q in Kept(inputs, fp) && IsUtun(inputs.interface);
      assert IsTunnelOwned(s.table[PinKey(inputs)]);
    }
  }

  /** After the pin, every tunnel route is ready. */
  lemma KeptReady(inputs: Inputs, s: Sys, s1: Sys, current: seq<Route>, kept: seq<Route>, fp: Fingerprint)
    requires GoodInputs(inputs) && Matches(inputs, s.table, kept)
    requires forall r :: r in kept <==> r in current && r in Desired(inputs, fp)
    requires s1.table == s.table ||
             (inputs.endpointNeedsPin && fp.endpointGateway.Some? && PinKey(inputs) !in s.table
              && s1.table == s.table[PinKey(inputs) := Via(fp.endpointGateway.value)])
    ensures AllReady(inputs, s1.table, current, Kept(inputs, fp))
  {
    DesiredKeys(inputs, fp);
    forall r | r in Kept(inputs, fp)
      ensures Shaped(inputs, r) && Ready(inputs, s1.table, current, r)
    {
      DesiredShape(inputs, fp, r);
      if r !in current && Mine(inputs, s.table, RouteKey(r)) {
        var q :| q in kept && RouteKey(q) == RouteKey(r);
        if q in Kept(inputs, fp) { SameKeySameRoute(Kept(inputs, fp), q, r); }
        assert HolderOf(q).Via?;
      }
    }
  }

  /** The install half, shared by setup and tick, from the state behind the pin. */
  lemma InstallRest(inputs: Inputs, cmds: Commands, s: Sys, s1: Sys, pins: seq<Route>, current: seq<Route>,
                    kept: seq<Route>, fp: Fingerprint)
    requires GoodInputs(inputs) && LooksWork(cmds) && Matches(inputs, s.table, kept)
    requires forall r :: r in kept <==> r in current && r in Desired(inputs, fp)
    requires s1.table == s.table ||
             (inputs.endpointNeedsPin && fp.endpointGateway.Some? && PinKey(inputs) !in s.table
              && s1.table == s.table[PinKey(inputs) := Via(fp.endpointGateway.value)])
    requires forall q :: q in pins ==> RouteKey(q) in s1.table && s1.table[RouteKey(q)] == HolderOf(q)
    requires s1.table != s.table ==> HasKey(pins, PinKey(inputs))
    requires forall q :: q in kept ==> q in pins || q in Kept(inputs, fp)
    ensures var (s2, tail) := AddMissing(cmds, s1, Kept(inputs, fp), current);
            && Matches(inputs, s2.table, pins + tail)
            && (forall k :: k in s.table ==> k in s2.table && s2.table[k] == s.table[k])
            && (forall k :: k in s2.table && k !in s.table ==> Mine(inputs, s2.table, k))
  {
    hide RouteKey, HolderOf, Kept, Desired, AllReady;
    KeptReady(inputs, s, s1, current, kept, fp);
    DesiredKeys(inputs, fp);
    AddMissingOwns(inputs, cmds, s1, Kept(inputs, fp), current);
    AddMissingRecords(cmds, s1, Kept(inputs, fp), current);
    var (s2, tail) := AddMissing(cmds, s1, Kept(inputs, fp), current);
    forall k | Mine(inputs, s2.table, k)
      ensures HasKey(pins + tail, k)
    {
      if k in s.table {
        assert Mine(inputs, s.table, k);
        var q :| q in kept && RouteKey(q) == k;
        assert q in pins + tail;
      } else if k in s1.table {
        var q :| q in pins && RouteKey(q) == PinKey(inputs);
        assert q in pins + tail;
      } else {
        var q :| q in tail && RouteKey(q) == k;
        assert q in pins + tail;
      }
    }
  }

  /** Installing turns a matching record of what was kept into an exact record. */
  lemma InstallMatches(inputs: Inputs, cmds: Commands, s: Sys, current: seq<Route>, kept: seq<Route>, fp: Fingerprint)
    requires GoodInputs(inputs) && LooksWork(cmds) && !Misrecords(inputs, cmds, s, current, fp)
    requires inputs.endpointNeedsPin ==> fp.endpointGateway.Some?
    requires Matches(inputs, s.table, kept)
    requires forall r :: r in kept <==> r in current && r in Desired(inputs, fp)
    ensures var (s2, installed) := AddMissing(cmds, s, Desired(inputs, fp), current);
            && Matches(inputs, s2.table, installed)
            && (forall k :: k in s.table ==> k in s2.table && s2.table[k] == s.table[k])
            && (forall k :: k in s2.table && k !in s.table ==> Mine(inputs, s2.table, k))
  {
    hide Matches, Kept, Mine, Misrecords;
    DesiredKeys(inputs, fp);
    var desired := Desired(inputs, fp);
    if inputs.endpointNeedsPin {
      var pin := PinRoute(inputs, fp.endpointGateway.value);
      PinInstalls(inputs, cmds, s, current, kept, fp);
      assert Pins(inputs, fp) == [pin];
      assert desired[0] == pin && desired[1..] == Kept(inputs, fp);
      var s1 := if pin in current then s else AddRoute(cmds, s, pin).0;
      var pins := if pin in current || AddRoute(cmds, s, pin).1 == Owned then [pin] else [];
      PinKept(inputs, s.table, current, kept, fp, pin);
      assert pins != [] ==> pin in pins && HasKey(pins, PinKey(inputs));
      InstallRest(inputs, cmds, s, s1, pins, current, kept, fp);
      assert AddMissing(cmds, s, desired, current).1 == pins + AddMissing(cmds, s1, Kept(inputs, fp), current).1;
    } else {
      assert desired == Kept(inputs, fp);
      InstallRest(inputs, cmds, s, s, [], current, kept, fp);
      var installed := AddMissing(cmds, s, desired, current).1;
      assert [] + installed == installed;
    }
  }

  /** A pin that was kept is in the table. */
  lemma PinKept(inputs: Inputs, t: Table, current: seq<Route>, kept: seq<Route>, fp: Fingerprint, pin: Route)
    requires Matches(inputs, t, kept) && pin in Desired(inputs, fp)
    requires forall r :: r in kept <==> r in current && r in Desired(inputs, fp)
    ensures pin in current ==> RouteKey(pin) in t && t[RouteKey(pin)] == HolderOf(pin)
  {
  }

  lemma InstallKeepsRecord(inputs: Inputs, cmds: Commands, s: Sys, current: seq<Route>, kept: seq<Route>,
                          fp: Fingerprint, subnets: seq<Net>)
    requires GoodInputs(inputs) && GoodSubnets(inputs, subnets) && LooksWork(cmds) && !Misrecords(inputs, cmds, s, current, fp)
    requires inputs.endpointNeedsPin ==> fp.endpointGateway.Some?
    requires Matches(inputs, s.table, kept) && PhysicalOnlyConnected(s.table, subnets)
    requires forall r :: r in kept <==> r in current && r in Desired(inputs, fp)
    ensures var (s2, installed) := AddMissing(cmds, s, Desired(inputs, fp), current);
            && RecordExact(inputs, Helper(s2, installed, fp), subnets)
            && (forall k :: k in s.table ==> k in s2.table && s2.table[k] == s.table[k])
  {
    hide Misrecords, Desired, RouteKey, HolderOf;
    var desired := Desired(inputs, fp);
    InstallMatches(inputs, cmds, s, current, kept, fp);
    AddMissingRecords(cmds, s, desired, current);
    DesiredKeys(inputs, fp);
    AddMissingPinsFirst(cmds, s, desired, current);
    var (s2, installed) := AddMissing(cmds, s, desired, current);
    RecordedInjective(inputs, fp, s2.table, installed);
    assert KeysDistinct(installed);
    forall k | k in s2.table && s2.table[k].Device? && !IsTunnelOwned(s2.table[k])
      ensures k in subnets
    {
      if k !in s.table {
        var q :| q in installed && RouteKey(q) == k;
        NewHoldersAreOurs(inputs, fp, q);
      }
    }
  }

  lemma NewHoldersAreOurs(inputs: Inputs, fp: Fingerprint, q: Route)
    requires GoodInputs(inputs) && q in Desired(inputs, fp)
    ensures HolderOf(q).Via? || IsTunnelOwned(HolderOf(q))
  {
    DesiredKeys(inputs, fp);
  }

  // ---- setup and teardown --------------------------------------------------------------------

  lemma {:induction false} ReversedMembers(rs: seq<Route>, r: Route)
    ensures r in Reversed(rs) <==> r in rs
  {
    if rs != [] {
      ReversedMembers(rs[..|rs| - 1], r);
      assert rs == rs[..|rs| - 1] + [rs[|rs| - 1]];
    }
  }

  /** Undoing everything on record leaves no entry of ours and every physical one. */
  lemma UndoLeavesNothing(inputs: Inputs, cmds: Commands, s: Sys, routes: seq<Route>, obs: Observation)
    requires Matches(inputs, s.table, routes) && KeysInjective(routes)
    requires forall r :: r in routes ==> Mine(inputs, s.table, RouteKey(r))
    requires StaleDeletesWork(cmds, s, Reversed(routes), [], obs) && PhysicalDevices(obs) && GoodSubnets(inputs, obs.subnets)
    ensures var t := RemoveStale(cmds, s, Reversed(routes), [], obs).table;
            && NoneOfOurs(inputs, t)
            && (forall k :: k in s.table && !Mine(inputs, s.table, k) ==> k in t && t[k] == s.table[k])
  {
    hide RouteKey, HolderOf, RemoveStale, Reversed, StaleDeletesWork;
    forall r ensures r in Reversed(routes) <==> r in routes { ReversedMembers(routes, r); }
    assert forall k :: HasKey(routes, k) ==> HasKey(Reversed(routes), k);
    RemoveStaleMatches(inputs, cmds, s, Reversed(routes), [], obs, []);
    RemoveStaleKeepsPhysical(inputs, cmds, s, Reversed(routes), [], obs);
  }

  /** Every delete of a teardown succeeds, which is when it reports no error. */
  predicate TeardownWorks(cmds: Commands, h: Helper, obs: Observation) {
    StaleDeletesWork(cmds, h.sys, Reversed(h.routesAdded), [], obs)
  }

  lemma TeardownLeavesNothing(inputs: Inputs, cmds: Commands, h: Helper, obs: Observation, subnets: seq<Net>)
    requires RecordExact(inputs, h, subnets)
    requires TeardownWorks(cmds, h, obs) && PhysicalDevices(obs) && obs.subnets == subnets
    ensures var t := Teardown(cmds, h, obs).table;
            && NoneOfOurs(inputs, t)
            && (forall k :: k in h.sys.table && !Mine(inputs, h.sys.table, k) ==> k in t && t[k] == h.sys.table[k])
  {
    RecordedInjective(inputs, h.fp, h.sys.table, h.routesAdded);
    forall r | r in h.routesAdded
      ensures Mine(inputs, h.sys.table, RouteKey(r))
    {
      RecordedAreMine(inputs, h, subnets, r);
    }
    UndoLeavesNothing(inputs, cmds, h.sys, h.routesAdded, obs);
  }

  lemma {:induction false} InstallAllRecords(cmds: Commands, s: Sys, desired: seq<Route>)
    ensures forall r :: r in InstallAll(cmds, s, desired).1 ==> r in desired
    decreases |desired|
  {
    if desired != [] {
      var s1 := AddRoute(cmds, s, desired[0]).0;
      InstallAllRecords(cmds, s1, desired[1..]);
      var tail := InstallAll(cmds, s1, desired[1..]).1;
      assert forall q :: q in InstallAll(cmds, s, desired).1 ==> q == desired[0] || q in tail;
      assert forall q :: q in desired[1..] ==> q in desired;
    }
  }

  /** Setup's install loop records exactly what it put in, also when it stops early. */
  lemma {:induction false} InstallAllOwns(inputs: Inputs, cmds: Commands, s: Sys, desired: seq<Route>)
    requires LooksWork(cmds) && KeysDistinct(desired) && AllReady(inputs, s.table, [], desired)
    ensures var (s', added, ok) := InstallAll(cmds, s, desired);
            && (forall k :: k in s.table ==> k in s'.table && s'.table[k] == s.table[k])
            && (forall k :: k in s'.table && k !in s.table ==> HasKey(added, k))
            && (forall r :: r in added ==> RouteKey(r) in s'.table && s'.table[RouteKey(r)] == HolderOf(r))
    decreases |desired|
  {
    hide AddRoute, HolderOf, RouteKey;
    if desired != [] {
      var r, rest := desired[0], desired[1..];
      var (s1, outcome) := AddRoute(cmds, s, r);
      assert Ready(inputs, s.table, [], r);
      AddRouteOwns(inputs, cmds, s, r);
      if outcome != Failed {
        ReadyAfterFirst(inputs, cmds, s, desired, []);
        InstallAllOwns(inputs, cmds, s1, rest);
        var tail := InstallAll(cmds, s1, rest).1;
        var added := InstallAll(cmds, s, desired).1;
        assert added == if outcome == Install.Owned then [r] + tail else tail;
        assert forall q :: q in added ==> q in tail || (q == r && outcome == Install.Owned);
        assert forall k :: HasKey(tail, k) ==> HasKey(added, k);
        assert outcome == Install.Owned ==> r in added && HasKey(added, RouteKey(r));
      }
    }
  }

  /** A host on which setup may start: no entries of ours, physical ones only
      for connected subnets; lookups work. */
  ghost predicate CleanHost(inputs: Inputs, cmds: Commands, s: Sys, obs: Observation) {
    && GoodInputs(inputs) && GoodSubnets(inputs, obs.subnets) && PhysicalDevices(obs) && LooksWork(cmds)
    && PhysicalOnlyConnected(s.table, obs.subnets) && NoneOfOurs(inputs, s.table)
  }

  /** What setup's loop leaves, also when it stops early. */
  ghost predicate Installed(s: Sys, s': Sys, added: seq<Route>) {
    && (forall k :: k in s.table ==> k in s'.table && s'.table[k] == s.table[k])
    && (forall k :: k in s'.table && k !in s.table ==> HasKey(added, k))
    && (forall r :: r in added ==> RouteKey(r) in s'.table && s'.table[RouteKey(r)] == HolderOf(r))
  }

  lemma SetupInstalls(inputs: Inputs, cmds: Commands, s: Sys, obs: Observation, fp: Fingerprint)
    requires CleanHost(inputs, cmds, s, obs)
    ensures Installed(s, InstallAll(cmds, s, Desired(inputs, fp)).0, InstallAll(cmds, s, Desired(inputs, fp)).1)
  {
    hide Kept, Desired, AllReady, RouteKey, HolderOf, AddRoute, PinsFirst, KeysDistinct, InstallAll, Installed;
    DesiredKeys(inputs, fp);
    if inputs.endpointNeedsPin && fp.endpointGateway.Some? {
      SetupInstallsPinned(inputs, cmds, s, obs, fp);
    } else {
      assert Desired(inputs, fp) == Kept(inputs, fp);
      KeptInstalled(inputs, cmds, s, s, fp);
    }
  }

  lemma KeptInstalled(inputs: Inputs, cmds: Commands, s: Sys, s1: Sys, fp: Fingerprint)
    requires GoodInputs(inputs) && LooksWork(cmds) && NoneOfOurs(inputs, s.table)
    requires s1.table == s.table ||
             (inputs.endpointNeedsPin && fp.endpointGateway.Some? && PinKey(inputs) !in s.table
              && s1.table == s.table[PinKey(inputs) := Via(fp.endpointGateway.value)])
    ensures Installed(s1, InstallAll(cmds, s1, Kept(inputs, fp)).0, InstallAll(cmds, s1, Kept(inputs, fp)).1)
  {
    hide Kept, Desired, AllReady, RouteKey, HolderOf, AddRoute, PinsFirst, InstallAll, Mine;
    DesiredKeys(inputs, fp);
    KeptReady(inputs, s, s1, [], [], fp);
    InstallAllOwns(inputs, cmds, s1, Kept(inputs, fp));
  }

  lemma SetupInstallsPinned(inputs: Inputs, cmds: Commands, s: Sys, obs: Observation, fp: Fingerprint)
    requires CleanHost(inputs, cmds, s, obs) && inputs.endpointNeedsPin && fp.endpointGateway.Some?
    ensures Installed(s, InstallAll(cmds, s, Desired(inputs, fp)).0, InstallAll(cmds, s, Desired(inputs, fp)).1)
  {
    hide Kept, Desired, RouteKey, HolderOf, AddRoute, PinsFirst, KeysDistinct;
    assert !Mine(inputs, s.table, PinKey(inputs));
    DesiredKeys(inputs, fp);
    var pin := PinRoute(inputs, fp.endpointGateway.value);
    var (s1, outcome) := AddRoute(cmds, s, pin);
    PinInstalls(inputs, cmds, s, [], [], fp);
    PinHolder(inputs, fp.endpointGateway.value);
    assert Desired(inputs, fp)[0] == pin && Desired(inputs, fp)[1..] == Kept(inputs, fp);
    if outcome != Failed {
      KeptInstalled(inputs, cmds, s, s1, fp);
      InstalledAfterPin(s, s1, InstallAll(cmds, s1, Kept(inputs, fp)).0, pin, InstallAll(cmds, s1, Kept(inputs, fp)).1, outcome);
    }
  }

  lemma InstalledAfterPin(s: Sys, s1: Sys, s2: Sys, pin: Route, tail: seq<Route>, outcome: Install)
    requires if outcome == Owned then RouteKey(pin) !in s.table && s1.table == s.table[RouteKey(pin) := HolderOf(pin)]
             else s1.table == s.table
    requires Installed(s1, s2, tail)
    ensures Installed(s, s2, if outcome == Owned then [pin] + tail else tail)
  {
    hide RouteKey, HolderOf;
    var added := if outcome == Owned then [pin] + tail else tail;
    forall k | k in s2.table && k !in s.table
      ensures HasKey(added, k)
    {
      if k in s1.table {
        assert pin in added;
      } else {
        var q :| q in tail && RouteKey(q) == k;
        assert q in added;
      }
    }
    assert forall q :: q in added ==> q in tail || (outcome == Owned && q == pin);
  }

  lemma PinHolder(inputs: Inputs, gateway: string)
    ensures HolderOf(PinRoute(inputs, gateway)) == Via(gateway)
  {
  }

  lemma SetupRecords(inputs: Inputs, cmds: Commands, s: Sys, obs: Observation, fp: Fingerprint)
    requires CleanHost(inputs, cmds, s, obs) && fp == CurrentFingerprint(inputs, obs, None)
    requires !(inputs.endpointNeedsPin && obs.gateway.None?) && InstallAll(cmds, s, Desired(inputs, fp)).2
    ensures var (s1, added, _) := InstallAll(cmds, s, Desired(inputs, fp));
            && RecordExact(inputs, Helper(s1, added, fp), obs.subnets)
            && forall k :: k in s.table ==> k in s1.table && s1.table[k] == s.table[k]
  {
    hide InstallAll, AddMissing, Desired, RecordExact;
    assert !Mine(inputs, s.table, PinKey(inputs));
    InstallAllIsAddMissing(cmds, s, Desired(inputs, fp));
    InstallKeepsRecord(inputs, cmds, s, [], [], fp, obs.subnets);
  }

  lemma SetupUndoes(inputs: Inputs, cmds: Commands, s: Sys, obs: Observation, fp: Fingerprint)
    requires CleanHost(inputs, cmds, s, obs) && DeletesWork(cmds)
    ensures var (s1, added, _) := InstallAll(cmds, s, Desired(inputs, fp));
            var t := RemoveStale(cmds, s1, Reversed(added), [], obs).table;
            && NoneOfOurs(inputs, t)
            && (forall k :: k in s.table ==> k in t && t[k] == s.table[k])
  {
    hide InstallAll, Desired, RouteKey, HolderOf, RemoveStale, Reversed;
    var desired := Desired(inputs, fp);
    SetupInstalls(inputs, cmds, s, obs, fp);
    InstallAllRecords(cmds, s, desired);
    var (s1, added, ok) := InstallAll(cmds, s, desired);
    AddedAreMine(inputs, fp, s1.table, added);
    forall k | Mine(inputs, s1.table, k)
      ensures HasKey(added, k)
    {
      assert !Mine(inputs, s.table, k);
    }
    RecordedInjective(inputs, fp, s1.table, added);
    WorkingDeletesWork(cmds, s1, Reversed(added), [], obs);
    UndoLeavesNothing(inputs, cmds, s1, added, obs);
    forall k | k in s.table
      ensures !Mine(inputs, s1.table, k)
    {
      assert !Mine(inputs, s.table, k);
    }
  }

  lemma FailedSetupUndoes(inputs: Inputs, cmds: Commands, s: Sys, obs: Observation, laterOk: bool)
    requires CleanHost(inputs, cmds, s, obs) && DeletesWork(cmds)
    requires Setup(inputs, cmds, s, obs, laterOk).1.None? && !(inputs.endpointNeedsPin && obs.gateway.None?)
    ensures var t := Setup(inputs, cmds, s, obs, laterOk).0.table;
            && NoneOfOurs(inputs, t)
            && (forall k :: k in s.table ==> k in t && t[k] == s.table[k])
  {
    hide InstallAll, Desired, NoneOfOurs;
    SetupUndoes(inputs, cmds, s, obs, CurrentFingerprint(inputs, obs, None));
  }

  lemma AddedAreMine(inputs: Inputs, fp: Fingerprint, t: Table, added: seq<Route>)
    requires GoodInputs(inputs) && forall r :: r in added ==> r in Desired(inputs, fp)
    requires forall r :: r in added ==> RouteKey(r) in t && t[RouteKey(r)] == HolderOf(r)
    ensures forall r :: r in added ==> Mine(inputs, t, RouteKey(r))
  {
    forall r | r in added
      ensures Mine(inputs, t, RouteKey(r))
    {
      DesiredShape(inputs, fp, r);
    }
  }

  /** From a host without tunnel entries, setup either comes up with an exact
      record or, its deletes working, leaves no entry of ours behind. */
  lemma SetupRecordsOrUndoes(inputs: Inputs, cmds: Commands, s: Sys, obs: Observation, laterOk: bool)
    requires CleanHost(inputs, cmds, s, obs) && DeletesWork(cmds)
    ensures var (s', up) := Setup(inputs, cmds, s, obs, laterOk);
            if up.Some? then RecordExact(inputs, up.value, obs.subnets)
            else NoneOfOurs(inputs, s'.table)
    ensures var (s', up) := Setup(inputs, cmds, s, obs, laterOk);
            forall k :: k in s.table ==> k in s'.table && s'.table[k] == s.table[k]
  {
    hide Desired, RecordExact, CleanHost, NoneOfOurs;
    if !(inputs.endpointNeedsPin && obs.gateway.None?) {
      var fp := CurrentFingerprint(inputs, obs, None);
      var (s1, added, ok) := InstallAll(cmds, s, Desired(inputs, fp));
      if ok && laterOk {
        SetupRecords(inputs, cmds, s, obs, fp);
      } else {
        FailedSetupUndoes(inputs, cmds, s, obs, laterOk);
      }
    } else {
      NothingSetUp(inputs, cmds, s, obs);
    }
  }

  lemma NothingSetUp(inputs: Inputs, cmds: Commands, s: Sys, obs: Observation)
    requires CleanHost(inputs, cmds, s, obs)
    ensures NoneOfOurs(inputs, s.table)
  {
  }

  // ---- runs --------------------------------------------------------------------------------------

  /** What a step may do: between ticks physical entries come and go with the
      connected subnets, each connected subnet having its entry unless the
      tunnel holds the prefix; lookups and the deletes of stale routes work, adds
      may fail, and no pin is misrecorded (`RouteForgetting` says when that can be). */
  ghost predicate OwnershipStep(inputs: Inputs, w: World, step: Step) {
    match step
    case Environment(t, ns) =>
      var before := w.helper.sys.table;
      && GoodSubnets(inputs, ns) && PhysicalOnlyConnected(t, ns)
      && (forall k :: Mine(inputs, t, k) ==> k in before && before[k] == t[k])
      && (forall k :: Mine(inputs, before, k) ==> k in t && before[k] == t[k])
      && (forall c :: c in ns ==> c in t)
    case Reconcile(cmds, obs) =>
      && GoodTick(inputs, cmds, obs, w.subnets)
      && TickDeletesWork(inputs, cmds, w.helper, obs) && !TickMisrecords(inputs, cmds, w.helper, obs)
  }

  ghost predicate OwnershipRun(inputs: Inputs, w: World, steps: seq<Step>) {
    steps == [] ||
    (var front := steps[..|steps| - 1];
     OwnershipRun(inputs, w, front) && OwnershipStep(inputs, Run(inputs, w, front), steps[|steps| - 1]))
  }

  predicate Connected(w: World) {
    forall c :: c in w.subnets ==> c in w.helper.sys.table
  }

  ghost predicate AllAddsWork(steps: seq<Step>) {
    forall i :: 0 <= i < |steps| && steps[i].Reconcile? ==> AddsWork(steps[i].cmds)
  }

  lemma {:induction false} RecordExactAlongRun(inputs: Inputs, w: World, steps: seq<Step>)
    requires RecordExact(inputs, w.helper, w.subnets) && OwnershipRun(inputs, w, steps)
    ensures var w' := Run(inputs, w, steps);
            && RecordExact(inputs, w'.helper, w'.subnets)
            && (Connected(w) && AllAddsWork(steps) ==> Connected(w'))
  {
    if steps != [] {
      var front, last := steps[..|steps| - 1], steps[|steps| - 1];
      RecordExactAlongRun(inputs, w, front);
      var w1 := Run(inputs, w, front);
      match last
      case Reconcile(cmds, obs) =>
        TickKeepsRecord(inputs, cmds, w1.helper, obs, w1.subnets);
        assert AllAddsWork(steps) ==> AllAddsWork(front) && AddsWork(cmds);
      case Environment(t, ns) =>
        EnvironmentKeepsRecord(inputs, w1, t, ns);
        assert AllAddsWork(steps) ==> AllAddsWork(front);
    }
  }

  lemma EnvironmentKeepsRecord(inputs: Inputs, w: World, t: Table, ns: seq<Net>)
    requires RecordExact(inputs, w.helper, w.subnets) && OwnershipStep(inputs, w, Environment(t, ns))
    ensures RecordExact(inputs, Next(inputs, w, Environment(t, ns)).helper, ns)
  {
    forall r | r in w.helper.routesAdded
      ensures RouteKey(r) in t && t[RouteKey(r)] == HolderOf(r)
    {
      RecordedAreMine(inputs, w.helper, w.subnets, r);
    }
    assert forall k :: Mine(inputs, t, k) ==> Mine(inputs, w.helper.sys.table, k);
  }

  /** Route ownership over whole runs: from a host with no tunnel entries and
      after any run, the record matches the table, and a teardown whose deletes
      work leaves no tunnel entry and every physical one. */
  lemma RouteOwnershipOverRuns(inputs: Inputs, cmds0: Commands, s: Sys, obs0: Observation, steps: seq<Step>,
                               cmds: Commands, obs: Observation)
    requires CleanHost(inputs, cmds0, s, obs0) && DeletesWork(cmds0)
    requires Setup(inputs, cmds0, s, obs0, true).1.Some?
    requires OwnershipRun(inputs, World(Setup(inputs, cmds0, s, obs0, true).1.value, obs0.subnets), steps)
    requires PhysicalDevices(obs)
    requires var w := Run(inputs, World(Setup(inputs, cmds0, s, obs0, true).1.value, obs0.subnets), steps);
             obs.subnets == w.subnets && TeardownWorks(cmds, w.helper, obs)
    ensures var h := Run(inputs, World(Setup(inputs, cmds0, s, obs0, true).1.value, obs0.subnets), steps).helper;
            && Matches(inputs, h.sys.table, h.routesAdded)
            && var t := Teardown(cmds, h, obs).table;
            && NoneOfOurs(inputs, t)
            && (forall k :: k in h.sys.table && !Mine(inputs, h.sys.table, k) ==> k in t && t[k] == h.sys.table[k])
  {
    SetupRecordsOrUndoes(inputs, cmds0, s, obs0, true);
    var w := World(Setup(inputs, cmds0, s, obs0, true).1.value, obs0.subnets);
    RecordExactAlongRun(inputs, w, steps);
    var w' := Run(inputs, w, steps);
    TeardownLeavesNothing(inputs, cmds, w'.helper, obs, w'.subnets);
  }

  /** After any tick of any run in which adds work, every connected subnet has
      its own route and no address of one is answered by the tunnel. */
  lemma LansRoutedAfterTick(inputs: Inputs, w: World, cmds: Commands, obs: Observation)
    requires RecordExact(inputs, w.helper, w.subnets) && Connected(w)
    requires GoodTick(inputs, cmds, obs, w.subnets) && AddsWork(cmds)
    requires TickDeletesWork(inputs, cmds, w.helper, obs) && !TickMisrecords(inputs, cmds, w.helper, obs)
    ensures var t := Tick(inputs, cmds, w.helper, obs).sys.table;
            && LansRouted(inputs, t, w.subnets)
            && (forall c, a :: c in w.subnets && Covers(c, a) ==> NeverTunnelled(t, a))
  {
    TickKeepsRecord(inputs, cmds, w.helper, obs, w.subnets);
    var h := Tick(inputs, cmds, w.helper, obs);
    var t := h.sys.table;
    assert h.fp.localSubnets == w.subnets;
    forall c | c in w.subnets
      ensures !Mine(inputs, t, c)
    {
      forall r | r in h.routesAdded
        ensures RouteKey(r) != c
      {
        DesiredShape(inputs, h.fp, r);
        FirstContainingFinds(w.subnets, RouteKey(r));
        assert SubnetContains(c, c);
      }
    }
    forall k | k in t && IsTunnelOwned(t[k])
      ensures exists r :: r in Desired(inputs, h.fp) && IsTunnelBound(r) && RouteKey(r) == k
    {
      assert Mine(inputs, t, k);
      var r :| r in h.routesAdded && RouteKey(r) == k;
      DesiredMembers(inputs, h.fp, r);
      if r in AllowedRoutes(inputs, inputs.allowedIps) { AllowedRoutesAreTunnelBound(inputs, r); }
    }
    forall c, a | c in w.subnets && Covers(c, a)
      ensures NeverTunnelled(t, a)
    {
      LanNeverHijacked(inputs, h.fp, t, c, a);
    }
  }
}
