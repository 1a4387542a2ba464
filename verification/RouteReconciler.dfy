/** The routing half of the helper as it runs: loops over routes and commands
    that update the kernel table, `routes_added` and the fingerprint in place.
    Every method computes the function of the same step in `Routes`. */
module RouteReconciler {
  import opened Prelude
  import opened Cidr
  import opened Routes

  /** `macos_allowed_routes`. */
  method CollectAllowedRoutes(inputs: Inputs) returns (routes: seq<Route>)
    ensures routes == AllowedRoutes(inputs, inputs.allowedIps)
  {
    routes := [];
    for i := 0 to |inputs.allowedIps|
      invariant routes == AllowedRoutes(inputs, inputs.allowedIps[..i])
    {
      var allowed := inputs.allowedIps[i];
      assert inputs.allowedIps[..i + 1][..i] == inputs.allowedIps[..i];
      if HasFamily(inputs, allowed.ip.family) {
        if allowed == Everything(allowed.ip.family) {
          routes := routes + [TunnelRoute(inputs, LowHalf(allowed.ip.family)), TunnelRoute(inputs, HighHalf(allowed.ip.family))];
        } else {
          routes := routes + [TunnelRoute(inputs, allowed)];
        }
      }
    }
    assert inputs.allowedIps[..|inputs.allowedIps|] == inputs.allowedIps;
  }

  /** `macos_desired_routes`. */
  method CollectDesiredRoutes(inputs: Inputs, fp: Fingerprint) returns (routes: seq<Route>)
    ensures routes == Desired(inputs, fp)
  {
    hide AllowedRoutes, ExcludedBy, PinRoute;
    routes := [];
    if inputs.endpointNeedsPin && fp.endpointGateway.Some? {
      routes := routes + [PinRoute(inputs, fp.endpointGateway.value)];
    }
    var allowed := CollectAllowedRoutes(inputs);
    for i := 0 to |allowed|
      invariant routes == Pins(inputs, fp) + NotExcluded(allowed[..i], fp.localSubnets)
    {
      assert allowed[..i + 1][..i] == allowed[..i];
      if ExcludedBy(allowed[i], fp.localSubnets).None? {
        routes := routes + [allowed[i]];
      }
    }
    assert allowed[..|allowed|] == allowed;
  }

  class Reconciler {
    const inputs: Inputs
    const cmds: Commands
    var table: Table
    var clock: nat
    var routesAdded: seq<Route>
    var fingerprint: Fingerprint

    constructor (inputs: Inputs, cmds: Commands, table: Table)
      ensures this.inputs == inputs && this.cmds == cmds && this.table == table && clock == 0
      ensures routesAdded == [] && fingerprint == Fingerprint([], None)
    {
      this.inputs, this.cmds, this.table, this.clock := inputs, cmds, table, 0;
      this.routesAdded, this.fingerprint := [], Fingerprint([], None);
    }

    ghost function TheSys(): Sys
      reads this
    {
      Sys(table, clock)
    }

    ghost function TheHelper(): Helper
      reads this
    {
      Helper(TheSys(), routesAdded, fingerprint)
    }

    method RouteTableEntry(key: Net) returns (entry: Option<Holder>)
      modifies this`clock
      ensures entry == Lookup(cmds, old(TheSys()), key) && TheSys() == Ticked(old(TheSys()))
    {
      entry := if cmds.looks(clock) && key in table then Some(table[key]) else None;
      clock := clock + 1;
    }

    method DelMacosRoute(key: Net) returns (ok: bool)
      modifies this`clock, this`table
      ensures ok == cmds.dels(old(clock)) && TheSys() == DeleteKey(cmds, old(TheSys()), key)
    {
      ok := cmds.dels(clock);
      if ok {
        table := table - {key};
      }
      clock := clock + 1;
    }

    method RouteAdd(key: Net, holder: Holder) returns (ok: bool)
      modifies this`clock, this`table
      ensures ok == cmds.adds(old(clock)) && TheSys() == AddKey(cmds, old(TheSys()), key, holder)
    {
      ok := cmds.adds(clock);
      if ok && key !in table {
        table := table[key := holder];
      }
      clock := clock + 1;
    }

    method AddMacosRoute(route: Route) returns (outcome: Install)
      modifies this`clock, this`table
      ensures (TheSys(), outcome) == AddRoute(cmds, old(TheSys()), route)
    {
      var key := RouteKey(route);
      if IsTunnelBound(route) {
        var entry := RouteTableEntry(key);
        match entry {
          case Some(holder) =>
            if !IsTunnelOwned(holder) {
              return Foreign;
            }
            var _ := DelMacosRoute(key);
          case None =>
        }
      }
      var ok := RouteAdd(key, HolderOf(route));
      outcome := if ok then Owned else Failed;
    }

    method RestoreShadowedLanRoute(route: Route, obs: Observation)
      modifies this`clock, this`table
      ensures TheSys() == RestoreShadowed(cmds, old(TheSys()), route, obs)
    {
      var excluded := ExcludedBy(route, obs.subnets);
      if excluded.Some? {
        var subnet := excluded.value;
        var entry := RouteTableEntry(subnet);
        if entry.None? && subnet in obs.devices {
          var _ := RouteAdd(subnet, Device(obs.devices[subnet]));
        }
      }
    }

    /** Drop the routes of `current` that are not in `keep`; counts the deletes
        that failed, which is all that survives of them in the helper. */
    method RemoveStaleRoutes(current: seq<Route>, keep: seq<Route>, obs: Observation) returns (errors: nat)
      modifies this`clock, this`table
      ensures TheSys() == RemoveStale(cmds, old(TheSys()), current, keep, obs)
      ensures errors == 0 <==> StaleDeletesWork(cmds, old(TheSys()), current, keep, obs)
    {
      errors := 0;
      var i := 0;
      while i < |current|
        invariant 0 <= i <= |current|
        invariant RemoveStale(cmds, TheSys(), current[i..], keep, obs) == RemoveStale(cmds, old(TheSys()), current, keep, obs)
        invariant StaleDeletesWork(cmds, old(TheSys()), current, keep, obs) <==>
                  errors == 0 && StaleDeletesWork(cmds, TheSys(), current[i..], keep, obs)
      {
        var route := current[i];
        if route !in keep {
          var ok := DelMacosRoute(RouteKey(route));
          if ok {
            RestoreShadowedLanRoute(route, obs);
          } else {
            errors := errors + 1;
          }
        }
        i := i + 1;
      }
    }

    /** Install what is missing; a failing add only skips its route. */
    method InstallMissingRoutes(desired: seq<Route>, current: seq<Route>) returns (installed: seq<Route>)
      modifies this`clock, this`table
      ensures (TheSys(), installed) == AddMissing(cmds, old(TheSys()), desired, current)
    {
      hide AddRoute;
      installed := [];
      ghost var all := AddMissing(cmds, TheSys(), desired, current);
      assert desired[0..] == desired && [] + all.1 == all.1;
      var i := 0;
      while i < |desired|
        invariant 0 <= i <= |desired|
        invariant AddMissing(cmds, TheSys(), desired[i..], current).0 == all.0
        invariant installed + AddMissing(cmds, TheSys(), desired[i..], current).1 == all.1
      {
        var route := desired[i];
        var isOurs := route in current;
        assert desired[i..][0] == route && desired[i..][1..] == desired[i + 1..];
        if !isOurs {
          var outcome := AddMacosRoute(route);
          isOurs := outcome == Owned;
        }
        ghost var rest := AddMissing(cmds, TheSys(), desired[i + 1..], current).1;
        if isOurs {
          assert installed + ([route] + rest) == (installed + [route]) + rest;
          installed := installed + [route];
        }
        i := i + 1;
      }
      assert installed + [] == installed;
    }

    /** `macos_reconcile_routes`. */
    method ReconcileRoutes(obs: Observation) returns (acted: bool)
      modifies this
      ensures TheHelper() == Tick(inputs, cmds, old(TheHelper()), obs)
      ensures !acted ==> TheHelper() == old(TheHelper())
    {
      var fp := CurrentFingerprint(inputs, obs, fingerprint.endpointGateway);
      if fp == fingerprint {
        return false;
      }
      var desired := CollectDesiredRoutes(inputs, fp);
      var _ := RemoveStaleRoutes(routesAdded, desired, obs);
      var installed := InstallMissingRoutes(desired, routesAdded);
      routesAdded := installed;
      fingerprint := fp;
      acted := true;
    }

    /** Setup's loop: the first failing command stops it. */
    method InstallUntilFailure(desired: seq<Route>) returns (added: seq<Route>, ok: bool)
      modifies this`clock, this`table
      ensures (TheSys(), added, ok) == InstallAll(cmds, old(TheSys()), desired)
    {
      hide AddRoute;
      added, ok := [], true;
      ghost var all := InstallAll(cmds, TheSys(), desired);
      assert desired[0..] == desired && [] + all.1 == all.1;
      var i := 0;
      while ok && i < |desired|
        invariant 0 <= i <= |desired|
        invariant ok ==> InstallAll(cmds, TheSys(), desired[i..]).0 == all.0
        invariant ok ==> added + InstallAll(cmds, TheSys(), desired[i..]).1 == all.1
        invariant ok ==> InstallAll(cmds, TheSys(), desired[i..]).2 == all.2
        invariant !ok ==> all == (TheSys(), added, false)
        decreases ok, |desired| - i
      {
        var route := desired[i];
        assert desired[i..][0] == route && desired[i..][1..] == desired[i + 1..];
        var outcome := AddMacosRoute(route);
        ghost var rest := InstallAll(cmds, TheSys(), desired[i + 1..]).1;
        if outcome == Failed {
          ok := false;
          assert added + [] == added;
        } else if outcome == Owned {
          assert added + ([route] + rest) == (added + [route]) + rest;
          added := added + [route];
        }
        i := i + 1;
      }
      assert added + [] == added;
    }

    /** The route half of `configure_network_macos`, with its rollback. */
    method ConfigureRoutes(obs: Observation, laterOk: bool) returns (up: bool)
      requires routesAdded == []
      modifies this
      ensures var (s, h) := Setup(inputs, cmds, old(TheSys()), obs, laterOk);
              TheSys() == s && up == h.Some? && (up ==> h.value == TheHelper())
    {
      if inputs.endpointNeedsPin && obs.gateway.None? {
        return false;
      }
      var fp := CurrentFingerprint(inputs, obs, None);
      var desired := CollectDesiredRoutes(inputs, fp);
      var added, ok := InstallUntilFailure(desired);
      if !ok || !laterOk {
        var _ := RemoveStaleRoutes(Reversed(added), [], obs);
        return false;
      }
      routesAdded, fingerprint := added, fp;
      up := true;
    }

    /** The route half of `cleanup_network_macos`. */
    method CleanupRoutes(obs: Observation) returns (errors: nat)
      modifies this`clock, this`table
      ensures TheSys() == Teardown(cmds, old(TheHelper()), obs)
      ensures errors == 0 <==> StaleDeletesWork(cmds, old(TheSys()), Reversed(old(routesAdded)), [], obs)
    {
      errors := RemoveStaleRoutes(Reversed(routesAdded), [], obs);
    }
  }
}
