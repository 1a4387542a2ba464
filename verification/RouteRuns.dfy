/** Whole runs of the route reconciler: the environment changes the table and
    the connected subnets between ticks, and every command may fail. */
module RouteRuns {
  import opened Prelude
  import opened Cidr
  import opened Routes
  import opened RouteProofs

  // ---- what each loop leaves alone ----------------------------------------------

  /** Devices that carry a LAN are physical. */
  predicate PhysicalDevices(obs: Observation) {
    forall n :: n in obs.devices ==> !IsUtun(obs.devices[n])
  }

  predicate Removes(current: seq<Route>, keep: seq<Route>, k: Net) {
    exists r :: r in current && r !in keep && RouteKey(r) == k
  }

  lemma DropRouteFrame(cmds: Commands, s: Sys, r: Route, obs: Observation)
    requires PhysicalDevices(obs)
    ensures var t := DropRoute(cmds, s, r, obs).table;
            && (forall k :: k in t && IsTunnelOwned(t[k]) ==> k in s.table && t[k] == s.table[k])
            && (forall k :: k in s.table && k != RouteKey(r) ==> k in t && t[k] == s.table[k])
  {
  }

  /** Removing stale routes creates no tunnel entry and touches only the keys
      of the routes it removes. */
  lemma {:induction false} RemoveStaleFrame(cmds: Commands, s: Sys, current: seq<Route>, keep: seq<Route>, obs: Observation)
    requires PhysicalDevices(obs)
    ensures var t := RemoveStale(cmds, s, current, keep, obs).table;
            && (forall k :: k in t && IsTunnelOwned(t[k]) ==> k in s.table && t[k] == s.table[k])
            && (forall k :: k in s.table && !Removes(current, keep, k) ==> k in t && t[k] == s.table[k])
    decreases |current|
  {
    if current != [] {
      var s1 := if current[0] in keep then s else DropRoute(cmds, s, current[0], obs);
      if current[0] !in keep { DropRouteFrame(cmds, s, current[0], obs); }
      RemoveStaleFrame(cmds, s1, current[1..], keep, obs);
      assert forall k :: Removes(current[1..], keep, k) ==> Removes(current, keep, k);
      assert forall k :: current[0] !in keep && k == RouteKey(current[0]) ==> Removes(current, keep, k);
    }
  }

  ghost predicate LooksWork(cmds: Commands) { forall n: nat :: cmds.looks(n) }
  ghost predicate DeletesWork(cmds: Commands) { forall n: nat :: cmds.dels(n) }
  ghost predicate AddsWork(cmds: Commands) { forall n: nat :: cmds.adds(n) }

  predicate Adds(desired: seq<Route>, current: seq<Route>, k: Net) {
    exists r :: r in desired && r !in current && IsTunnelBound(r) && RouteKey(r) == k
  }

  lemma AddRouteFrame(cmds: Commands, s: Sys, r: Route)
    requires LooksWork(cmds)
    ensures var (s', outcome) := AddRoute(cmds, s, r);
            && (forall k :: k in s.table && !IsTunnelOwned(s.table[k]) ==> k in s'.table && s'.table[k] == s.table[k])
            && (forall k :: k in s'.table && IsTunnelOwned(s'.table[k]) ==>
                  (k in s.table && s'.table[k] == s.table[k]) || (IsTunnelBound(r) && k == RouteKey(r)))
            && (outcome == Owned && IsTunnelBound(r) && RouteKey(r) in s.table ==> IsTunnelOwned(s.table[RouteKey(r)]))
  {
  }

  /** With working lookups, installing routes never displaces a physical entry,
      and every tunnel entry it leaves was there before or belongs to a route
      it added. */
  lemma {:induction false} AddMissingFrame(cmds: Commands, s: Sys, desired: seq<Route>, current: seq<Route>)
    requires LooksWork(cmds)
    ensures var t := AddMissing(cmds, s, desired, current).0.table;
            && (forall k :: k in s.table && !IsTunnelOwned(s.table[k]) ==> k in t && t[k] == s.table[k])
            && (forall k :: k in t && IsTunnelOwned(t[k]) ==>
                  (k in s.table && t[k] == s.table[k]) || Adds(desired, current, k))
    decreases |desired|
  {
    if desired != [] {
      var r := desired[0];
      var s1 := if r in current then s else AddRoute(cmds, s, r).0;
      if r !in current { AddRouteFrame(cmds, s, r); }
      AddMissingFrame(cmds, s1, desired[1..], current);
      assert forall k :: Adds(desired[1..], current, k) ==> Adds(desired, current, k);
      assert r !in current && IsTunnelBound(r) ==> Adds(desired, current, RouteKey(r));
    }
  }

  /** Only desired routes are recorded, and a newly recorded tunnel route never
      took a prefix from a physical holder. */
  lemma {:induction false} AddMissingInstalls(cmds: Commands, s: Sys, desired: seq<Route>, current: seq<Route>, x: Route)
    requires LooksWork(cmds)
    requires x in AddMissing(cmds, s, desired, current).1
    ensures x in desired
    ensures x !in current && IsTunnelBound(x) && RouteKey(x) in s.table ==> IsTunnelOwned(s.table[RouteKey(x)])
    decreases |desired|
  {
    if desired != [] {
      var r := desired[0];
      var s1 := if r in current then s else AddRoute(cmds, s, r).0;
      if r !in current { AddRouteFrame(cmds, s, r); }
      var rest := AddMissing(cmds, s1, desired[1..], current).1;
      if x in rest {
        AddMissingInstalls(cmds, s1, desired[1..], current, x);
      }
    }
  }

  // ---- runs -----------------------------------------------------------------------

  datatype World = World(helper: Helper, subnets: seq<Net>)

  /** Between ticks the environment replaces the table and the set of connected
      subnets; a tick reads the host and runs commands. */
  datatype Step = Environment(table: Table, subnets: seq<Net>) | Reconcile(cmds: Commands, obs: Observation)

  function Next(inputs: Inputs, w: World, step: Step): World {
    match step
    case Environment(t, ns) => World(w.helper.(sys := w.helper.sys.(table := t)), ns)
    case Reconcile(cmds, obs) => w.(helper := Tick(inputs, cmds, w.helper, obs))
  }

  function Run(inputs: Inputs, w: World, steps: seq<Step>): World {
    if steps == [] then w
    else Next(inputs, Run(inputs, w, steps[..|steps| - 1]), steps[|steps| - 1])
  }

  // ---- the endpoint never routes into its own tunnel --------------------------------

  function PinKey(inputs: Inputs): Net { HostNet(inputs.endpoint) }

  /** The add of a new pin this tick issues, which comes first, works. */
  predicate PinAddWorks(inputs: Inputs, cmds: Commands, h: Helper, obs: Observation) {
    var fp := CurrentFingerprint(inputs, obs, h.fp.endpointGateway);
    || fp == h.fp || !inputs.endpointNeedsPin || fp.endpointGateway.None?
    || PinRoute(inputs, fp.endpointGateway.value) in h.routesAdded
    || cmds.adds(RemoveStale(cmds, h.sys, h.routesAdded, Desired(inputs, fp), obs).clock)
  }

  /** What the claim assumes of a step: the environment adds no tunnel entries
      and leaves the pin alone; lookups and the add of a new pin work, while
      every other command and the gateway lookup may fail and the subnet listing
      may be wrong. */
  ghost predicate EndpointStep(inputs: Inputs, w: World, step: Step) {
    match step
    case Environment(t, _) =>
      var before := w.helper.sys.table;
      && (forall k :: k in t && IsTunnelOwned(t[k]) ==> k in before && before[k] == t[k])
      && (PinKey(inputs) in before ==> PinKey(inputs) in t && t[PinKey(inputs)] == before[PinKey(inputs)])
    case Reconcile(cmds, obs) =>
      LooksWork(cmds) && PhysicalDevices(obs) && PinAddWorks(inputs, cmds, w.helper, obs)
  }

  ghost predicate EndpointRun(inputs: Inputs, w: World, steps: seq<Step>) {
    steps == [] ||
    (var front := steps[..|steps| - 1];
     EndpointRun(inputs, w, front) && EndpointStep(inputs, Run(inputs, w, front), steps[|steps| - 1]))
  }

  /** A pinned endpoint has a host entry that is not the tunnel's, and of the
      recorded routes only the pin itself sits on that key; an unpinned one is
      covered by no tunnel entry. */
  ghost predicate EndpointSafe(inputs: Inputs, h: Helper) {
    var t := h.sys.table;
    if inputs.endpointNeedsPin then
      && PinKey(inputs) in t && !IsTunnelOwned(t[PinKey(inputs)])
      && h.fp.endpointGateway.Some?
      && (forall r :: r in h.routesAdded && RouteKey(r) == PinKey(inputs) ==>
            r == PinRoute(inputs, h.fp.endpointGateway.value))
    else
      forall k :: k in t && IsTunnelOwned(t[k]) ==> !Covers(k, inputs.endpoint)
  }

  lemma EndpointSafeMeansNeverTunnelled(inputs: Inputs, h: Helper)
    requires EndpointSafe(inputs, h)
    ensures NeverTunnelled(h.sys.table, inputs.endpoint)
  {
    HostNetIsItsKey(inputs.endpoint);
    if inputs.endpointNeedsPin {
      forall n | Answers(h.sys.table, inputs.endpoint, n)
        ensures n == PinKey(inputs)
      {
        assert PinKey(inputs).prefix <= n.prefix;
        assert n.ip.bits[..n.prefix] == n.ip.bits;
        assert inputs.endpoint.bits[..n.prefix] == inputs.endpoint.bits;
      }
    }
  }

  lemma TickKeepsUnpinnedSafe(inputs: Inputs, cmds: Commands, h: Helper, obs: Observation)
    requires PinDecision(inputs) && !inputs.endpointNeedsPin && EndpointSafe(inputs, h)
    requires LooksWork(cmds) && PhysicalDevices(obs)
    ensures EndpointSafe(inputs, Tick(inputs, cmds, h, obs))
  {
    var fp := CurrentFingerprint(inputs, obs, h.fp.endpointGateway);
    var desired := Desired(inputs, fp);
    var s1 := RemoveStale(cmds, h.sys, h.routesAdded, desired, obs);
    RemoveStaleFrame(cmds, h.sys, h.routesAdded, desired, obs);
    AddMissingFrame(cmds, s1, desired, h.routesAdded);
    forall k | Adds(desired, h.routesAdded, k)
      ensures !Covers(k, inputs.endpoint)
    {
      var r :| r in desired && RouteKey(r) == k;
      DesiredMembers(inputs, fp, r);
      UnpinnedMeansUncovered(inputs, r);
    }
  }

  /** Installing the desired routes with the pin first makes a pinned endpoint
      safe, from any table whose tunnel entries are not on the pin's key. */
  lemma PinnedInstallIsSafe(inputs: Inputs, cmds: Commands, s: Sys, current: seq<Route>, fp: Fingerprint)
    requires inputs.endpointNeedsPin && fp.endpointGateway.Some? && LooksWork(cmds)
    requires PinKey(inputs) in s.table ==> !IsTunnelOwned(s.table[PinKey(inputs)])
    requires var pin := PinRoute(inputs, fp.endpointGateway.value);
             if pin in current then PinKey(inputs) in s.table else AddRoute(cmds, s, pin).1 == Owned
    requires forall r :: r in current && RouteKey(r) == PinKey(inputs) ==> !IsTunnelBound(r)
    ensures var (s2, installed) := AddMissing(cmds, s, Desired(inputs, fp), current);
            EndpointSafe(inputs, Helper(s2, installed, fp))
  {
    var desired := Desired(inputs, fp);
    var pin := PinRoute(inputs, fp.endpointGateway.value);
    HostNetIsItsKey(inputs.endpoint);
    assert desired[0] == pin && RouteKey(pin) == PinKey(inputs);
    var s1 := if pin in current then s else AddRoute(cmds, s, pin).0;
    assert PinKey(inputs) in s1.table && !IsTunnelOwned(s1.table[PinKey(inputs)]);
    AddMissingFrame(cmds, s1, desired[1..], current);
    var installed := AddMissing(cmds, s1, desired[1..], current).1;
    assert AddMissing(cmds, s, desired, current).1 == [pin] + installed;
    forall r | r in installed && RouteKey(r) == PinKey(inputs)
      ensures r == pin
    {
      AddMissingInstalls(cmds, s1, desired[1..], current, r);
      DesiredMembers(inputs, fp, r);
      if r != pin {
        AllowedRoutesAreTunnelBound(inputs, r);
      }
    }
  }

  lemma TickKeepsPinnedSafe(inputs: Inputs, cmds: Commands, h: Helper, obs: Observation)
    requires inputs.endpointNeedsPin && EndpointSafe(inputs, h)
    requires LooksWork(cmds) && PinAddWorks(inputs, cmds, h, obs) && PhysicalDevices(obs)
    ensures EndpointSafe(inputs, Tick(inputs, cmds, h, obs))
  {
    var fp := CurrentFingerprint(inputs, obs, h.fp.endpointGateway);
    if fp != h.fp {
      var desired := Desired(inputs, fp);
      var pin := PinRoute(inputs, fp.endpointGateway.value);
      HostNetIsItsKey(inputs.endpoint);
      assert desired[0] == pin;
      var s1 := RemoveStale(cmds, h.sys, h.routesAdded, desired, obs);
      RemoveStaleFrame(cmds, h.sys, h.routesAdded, desired, obs);
      if pin in h.routesAdded {
        assert !Removes(h.routesAdded, desired, PinKey(inputs));
      }
      PinnedInstallIsSafe(inputs, cmds, s1, h.routesAdded, fp);
    }
  }

  /** A setup that reports success did what the reconciler's install loop does. */
  lemma {:induction false} InstallAllIsAddMissing(cmds: Commands, s: Sys, desired: seq<Route>)
    requires InstallAll(cmds, s, desired).2
    ensures AddMissing(cmds, s, desired, []) == (InstallAll(cmds, s, desired).0, InstallAll(cmds, s, desired).1)
    ensures desired != [] ==> AddRoute(cmds, s, desired[0]).1 != Failed
    decreases |desired|
  {
    if desired != [] {
      InstallAllIsAddMissing(cmds, AddRoute(cmds, s, desired[0]).0, desired[1..]);
    }
  }

  lemma SetupIsEndpointSafe(inputs: Inputs, cmds: Commands, s: Sys, obs: Observation, laterOk: bool)
    requires PinDecision(inputs) && LooksWork(cmds)
    requires forall k :: k in s.table && IsTunnelOwned(s.table[k]) ==> !Covers(k, inputs.endpoint)
    requires Setup(inputs, cmds, s, obs, laterOk).1.Some?
    ensures EndpointSafe(inputs, Setup(inputs, cmds, s, obs, laterOk).1.value)
  {
    var fp := CurrentFingerprint(inputs, obs, None);
    var desired := Desired(inputs, fp);
    InstallAllIsAddMissing(cmds, s, desired);
    HostNetIsItsKey(inputs.endpoint);
    if inputs.endpointNeedsPin {
      assert desired[0] == PinRoute(inputs, fp.endpointGateway.value);
      PinnedInstallIsSafe(inputs, cmds, s, [], fp);
    } else {
      AddMissingFrame(cmds, s, desired, []);
      forall k | Adds(desired, [], k)
        ensures !Covers(k, inputs.endpoint)
      {
        var r :| r in desired && RouteKey(r) == k;
        DesiredMembers(inputs, fp, r);
        UnpinnedMeansUncovered(inputs, r);
      }
    }
  }

  lemma {:induction false} EndpointSafeAlongRun(inputs: Inputs, w: World, steps: seq<Step>)
    requires PinDecision(inputs) && EndpointSafe(inputs, w.helper)
    requires EndpointRun(inputs, w, steps)
    ensures EndpointSafe(inputs, Run(inputs, w, steps).helper)
  {
    if steps != [] {
      var front, last := steps[..|steps| - 1], steps[|steps| - 1];
      EndpointSafeAlongRun(inputs, w, front);
      var w1 := Run(inputs, w, front);
      if last.Reconcile? {
        if inputs.endpointNeedsPin {
          TickKeepsPinnedSafe(inputs, last.cmds, w1.helper, last.obs);
        } else {
          TickKeepsUnpinnedSafe(inputs, last.cmds, w1.helper, last.obs);
        }
      }
    }
  }

  /** In every state reachable from a successful setup, no lookup of the
      endpoint is answered by the tunnel, although gateway lookups, deletes and
      every add but the pin's may fail at will and the subnet listing may be wrong. */
  lemma EndpointNeverInOwnTunnel(inputs: Inputs, cmds: Commands, s: Sys, obs: Observation, steps: seq<Step>)
    requires PinDecision(inputs) && LooksWork(cmds)
    requires forall k :: k in s.table && IsTunnelOwned(s.table[k]) ==> !Covers(k, inputs.endpoint)
    requires Setup(inputs, cmds, s, obs, true).1.Some?
    requires var w := World(Setup(inputs, cmds, s, obs, true).1.value, obs.subnets); EndpointRun(inputs, w, steps)
    ensures var w := World(Setup(inputs, cmds, s, obs, true).1.value, obs.subnets);
            NeverTunnelled(Run(inputs, w, steps).helper.sys.table, inputs.endpoint)
  {
    SetupIsEndpointSafe(inputs, cmds, s, obs, true);
    var w := World(Setup(inputs, cmds, s, obs, true).1.value, obs.subnets);
    EndpointSafeAlongRun(inputs, w, steps);
    EndpointSafeMeansNeverTunnelled(inputs, Run(inputs, w, steps).helper);
  }
}
