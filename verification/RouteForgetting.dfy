/** What the route record loses: exactly when a tick leaves it different from
    the table, by forgetting a route whose delete failed or by recording a pin
    that is not there; when that cannot happen; and a run in which it does. */
module RouteForgetting {
  import opened Prelude
  import opened Cidr
  import opened Routes
  import opened RouteProofs
  import opened RouteRuns
  import opened RouteOwnership

  // ---- a delete that fails ------------------------------------------------------------------

  /** A delete that fails leaves the entry of a stale route in the table. */
  lemma {:induction false} FailedDeleteStays(cmds: Commands, s: Sys, current: seq<Route>, keep: seq<Route>, obs: Observation)
    returns (r: Route)
    requires PhysicalDevices(obs) && KeysDistinct(current) && !StaleDeletesWork(cmds, s, current, keep, obs)
    requires forall q :: q in current ==> RouteKey(q) in s.table && s.table[RouteKey(q)] == HolderOf(q)
    ensures r in current && r !in keep
    ensures var t := RemoveStale(cmds, s, current, keep, obs).table; RouteKey(r) in t && t[RouteKey(r)] == HolderOf(r)
    decreases |current|
  {
    var rest := current[1..];
    assert forall q :: q in rest ==> q in current && RouteKey(q) != RouteKey(current[0]);
    if current[0] in keep {
      r := FailedDeleteStays(cmds, s, rest, keep, obs);
    } else {
      var s1 := DropRoute(cmds, s, current[0], obs);
      DropRouteFrame(cmds, s, current[0], obs);
      if cmds.dels(s.clock) {
        r := FailedDeleteStays(cmds, s1, rest, keep, obs);
      } else {
        r := current[0];
        RemoveStaleFrame(cmds, s1, rest, keep, obs);
        assert !Removes(rest, keep, RouteKey(r));
      }
    }
  }

  /** Installing leaves alone every key it does not want to add a tunnel route on. */
  lemma {:induction false} AddMissingLeaves(cmds: Commands, s: Sys, desired: seq<Route>, current: seq<Route>, k: Net)
    requires k in s.table && forall r :: r in desired && RouteKey(r) == k ==> r in current || !IsTunnelBound(r)
    ensures var t := AddMissing(cmds, s, desired, current).0.table; k in t && t[k] == s.table[k]
    decreases |desired|
  {
    if desired != [] {
      var s1 := if desired[0] in current then s else AddRoute(cmds, s, desired[0]).0;
      AddMissingLeaves(cmds, s1, desired[1..], current, k);
    }
  }

  /** A stale route that is still in the table is recorded nowhere. */
  lemma ForgottenRoute(inputs: Inputs, cmds: Commands, s1: Sys, h: Helper, fp: Fingerprint, r: Route)
    requires GoodInputs(inputs) && LooksWork(cmds)
    requires inputs.endpointNeedsPin ==> fp.endpointGateway.Some?
    requires r in Desired(inputs, h.fp) && r !in Desired(inputs, fp)
    requires RouteKey(r) in s1.table && s1.table[RouteKey(r)] == HolderOf(r)
    ensures var (s2, installed) := AddMissing(cmds, s1, Desired(inputs, fp), h.routesAdded);
            !Matches(inputs, s2.table, installed)
  {
    var desired := Desired(inputs, fp);
    var (s2, installed) := AddMissing(cmds, s1, desired, h.routesAdded);
    AddMissingRecords(cmds, s1, desired, h.routesAdded);
    DesiredMembers(inputs, h.fp, r);
    DesiredShape(inputs, h.fp, r);
    DesiredKeys(inputs, h.fp);
    DesiredKeys(inputs, fp);
    var routes := AllowedRoutes(inputs, inputs.allowedIps);
    HostNetIsItsKey(inputs.endpoint);
    forall q | q in desired && RouteKey(q) == RouteKey(r) && HolderOf(q) == HolderOf(r)
      ensures false
    {
      DesiredMembers(inputs, fp, q);
      if q in routes && r in routes { SameKeySameRoute(routes, q, r); }
    }
    if r in routes {
      forall q | q in desired && RouteKey(q) == RouteKey(r)
        ensures !IsTunnelBound(q)
      {
        DesiredMembers(inputs, fp, q);
        if q in routes { SameKeySameRoute(routes, q, r); }
      }
      AddMissingLeaves(cmds, s1, desired, h.routesAdded, RouteKey(r));
    } else {
      AddMissingFrame(cmds, s1, desired, h.routesAdded);
    }
    assert Mine(inputs, s2.table, RouteKey(r)) && s2.table[RouteKey(r)] == HolderOf(r);
  }

  // ---- a pin that is recorded and not there ---------------------------------------------------

  /** Tunnel routes never put a gateway on a key. */
  lemma {:induction false} NoGatewayAppears(cmds: Commands, s: Sys, routes: seq<Route>, current: seq<Route>, k: Net)
    requires LooksWork(cmds) && forall r :: r in routes ==> IsTunnelBound(r)
    ensures var t := AddMissing(cmds, s, routes, current).0.table;
            k in t && t[k].Via? ==> k in s.table && t[k] == s.table[k]
    decreases |routes|
  {
    if routes != [] {
      assert routes[0] in routes;
      NoGatewayAppears(cmds, if routes[0] in current then s else AddRoute(cmds, s, routes[0]).0, routes[1..], current, k);
    }
  }

  function Pin(inputs: Inputs, fp: Fingerprint): Route
    requires fp.endpointGateway.Some?
  {
    PinRoute(inputs, fp.endpointGateway.value)
  }

  /** The state behind the pin, the first of the desired routes. */
  lemma PinComesFirst(inputs: Inputs, cmds: Commands, s: Sys, current: seq<Route>, fp: Fingerprint)
    requires GoodInputs(inputs) && inputs.endpointNeedsPin && fp.endpointGateway.Some?
    ensures var pin := Pin(inputs, fp);
            var s1 := if pin in current then s else AddRoute(cmds, s, pin).0;
            var (s2, installed) := AddMissing(cmds, s, Desired(inputs, fp), current);
            && RouteKey(pin) == PinKey(inputs) && HolderOf(pin) == Via(fp.endpointGateway.value) && pin in Desired(inputs, fp)
            && s2 == AddMissing(cmds, s1, Kept(inputs, fp), current).0
            && (pin in installed <==> pin in current || cmds.adds(s.clock))
  {
    HostNetIsItsKey(inputs.endpoint);
    DesiredKeys(inputs, fp);
    var pin := Pin(inputs, fp);
    var desired := Desired(inputs, fp);
    assert desired[0] == pin && desired[1..] == Kept(inputs, fp);
    var s1 := if pin in current then s else AddRoute(cmds, s, pin).0;
    AddMissingRecords(cmds, s1, Kept(inputs, fp), current);
    assert pin !in Kept(inputs, fp);
  }

  /** A tick puts a pin on record that is not in the table if and only if, after
      it has removed what is stale, somebody else holds the pin's key, the pin is
      newly wanted, and its add succeeds, as adds over an existing entry do. */
  lemma PinMisrecordedIff(inputs: Inputs, cmds: Commands, h: Helper, obs: Observation, subnets: seq<Net>)
    requires RecordExact(inputs, h, subnets) && GoodTick(inputs, cmds, obs, subnets) && inputs.endpointNeedsPin
    requires CurrentFingerprint(inputs, obs, h.fp.endpointGateway) != h.fp
    ensures var fp := CurrentFingerprint(inputs, obs, h.fp.endpointGateway);
            var pin, k := Pin(inputs, fp), PinKey(inputs);
            var s1 := RemoveStale(cmds, h.sys, h.routesAdded, Desired(inputs, fp), obs);
            var h' := Tick(inputs, cmds, h, obs);
            (pin in h'.routesAdded && !(k in h'.sys.table && h'.sys.table[k] == HolderOf(pin))) <==>
            (pin !in h.routesAdded && k in s1.table && s1.table[k] != HolderOf(pin) && cmds.adds(s1.clock))
  {
    hide RecordExact, Desired, Kept, RouteKey, HolderOf, AddMissing, RemoveStale;
    assert GoodInputs(inputs) && h.fp.endpointGateway.Some? by { RecordGives(inputs, h, subnets); }
    var fp := CurrentFingerprint(inputs, obs, h.fp.endpointGateway);
    var pin, k := Pin(inputs, fp), PinKey(inputs);
    var s1 := RemoveStale(cmds, h.sys, h.routesAdded, Desired(inputs, fp), obs);
    var s2 := if pin in h.routesAdded then s1 else AddRoute(cmds, s1, pin).0;
    PinComesFirst(inputs, cmds, s1, h.routesAdded, fp);
    DesiredKeys(inputs, fp);
    NoGatewayAppears(cmds, s2, Kept(inputs, fp), h.routesAdded, k);
    AddMissingFrame(cmds, s2, Kept(inputs, fp), h.routesAdded);
    if pin in h.routesAdded { KeptPinStays(inputs, cmds, h, obs, subnets, pin); }
  }

  lemma RecordGives(inputs: Inputs, h: Helper, subnets: seq<Net>)
    requires RecordExact(inputs, h, subnets)
    ensures GoodInputs(inputs) && (inputs.endpointNeedsPin ==> h.fp.endpointGateway.Some?)
  {
  }

  /** A recorded pin that is still wanted survives the removal of the others. */
  lemma KeptPinStays(inputs: Inputs, cmds: Commands, h: Helper, obs: Observation, subnets: seq<Net>, pin: Route)
    requires RecordExact(inputs, h, subnets) && PhysicalDevices(obs) && pin in h.routesAdded
    requires pin in Desired(inputs, CurrentFingerprint(inputs, obs, h.fp.endpointGateway))
    ensures var keep := Desired(inputs, CurrentFingerprint(inputs, obs, h.fp.endpointGateway));
            var t := RemoveStale(cmds, h.sys, h.routesAdded, keep, obs).table;
            RouteKey(pin) in t && t[RouteKey(pin)] == HolderOf(pin)
  {
    hide Desired, RouteKey, HolderOf, RemoveStale;
    var keep := Desired(inputs, CurrentFingerprint(inputs, obs, h.fp.endpointGateway));
    RemoveStaleFrame(cmds, h.sys, h.routesAdded, keep, obs);
    RecordedInjective(inputs, h.fp, h.sys.table, h.routesAdded);
    assert !Removes(h.routesAdded, keep, RouteKey(pin));
  }

  /** The record matches the table after a tick if and only if every delete of a
      stale route worked and no pin was misrecorded. */
  lemma RecordMatchesIff(inputs: Inputs, cmds: Commands, h: Helper, obs: Observation, subnets: seq<Net>)
    requires RecordExact(inputs, h, subnets) && GoodTick(inputs, cmds, obs, subnets)
    ensures var h' := Tick(inputs, cmds, h, obs);
            Matches(inputs, h'.sys.table, h'.routesAdded) <==>
            TickDeletesWork(inputs, cmds, h, obs) && !TickMisrecords(inputs, cmds, h, obs)
  {
    hide Desired, RouteKey, HolderOf, AddMissing, RemoveStale, AddRoute;
    var fp := CurrentFingerprint(inputs, obs, h.fp.endpointGateway);
    var desired := Desired(inputs, fp);
    var s1 := RemoveStale(cmds, h.sys, h.routesAdded, desired, obs);
    if !TickDeletesWork(inputs, cmds, h, obs) {
      var r := FailedDeleteStays(cmds, h.sys, h.routesAdded, desired, obs);
      ForgottenRoute(inputs, cmds, s1, h, fp, r);
    } else if TickMisrecords(inputs, cmds, h, obs) {
      PinMisrecordedIff(inputs, cmds, h, obs, subnets);
      PinComesFirst(inputs, cmds, s1, h.routesAdded, fp);
    } else {
      TickKeepsRecord(inputs, cmds, h, obs, subnets);
    }
  }

  // ---- when no pin is misrecorded ----------------------------------------------------------------

  /** The endpoint's own host route is not among the AllowedIPs. */
  predicate NoContention(inputs: Inputs) {
    inputs.endpointNeedsPin ==> !HasKey(AllowedRoutes(inputs, inputs.allowedIps), PinKey(inputs))
  }

  /** The pin is on record. */
  predicate PinHeld(inputs: Inputs, h: Helper) {
    inputs.endpointNeedsPin ==> h.fp.endpointGateway.Some? && Pin(inputs, h.fp) in h.routesAdded
  }

  /** Either is enough: then the tunnel does not hold the pin's key. */
  lemma ContentionNeedsBoth(inputs: Inputs, cmds: Commands, h: Helper, obs: Observation, subnets: seq<Net>)
    requires RecordExact(inputs, h, subnets) && GoodTick(inputs, cmds, obs, subnets)
    requires NoContention(inputs) || PinHeld(inputs, h)
    ensures !TickMisrecords(inputs, cmds, h, obs)
  {
    hide Desired, RemoveStale;
    var fp := CurrentFingerprint(inputs, obs, h.fp.endpointGateway);
    var k := PinKey(inputs);
    RemoveStaleFrame(cmds, h.sys, h.routesAdded, Desired(inputs, fp), obs);
    HostNetIsItsKey(inputs.endpoint);
    if inputs.endpointNeedsPin && k in h.sys.table && IsTunnelOwned(h.sys.table[k]) {
      assert Mine(inputs, h.sys.table, k);
      var q :| q in h.routesAdded && RouteKey(q) == k;
      DesiredMembers(inputs, h.fp, q);
    }
  }

  lemma TickKeepsPinHeld(inputs: Inputs, cmds: Commands, h: Helper, obs: Observation, subnets: seq<Net>)
    requires RecordExact(inputs, h, subnets) && GoodTick(inputs, cmds, obs, subnets)
    requires PinHeld(inputs, h) && PinAddWorks(inputs, cmds, h, obs)
    ensures PinHeld(inputs, Tick(inputs, cmds, h, obs))
  {
    if inputs.endpointNeedsPin {
      var fp := CurrentFingerprint(inputs, obs, h.fp.endpointGateway);
      PinComesFirst(inputs, cmds, RemoveStale(cmds, h.sys, h.routesAdded, Desired(inputs, fp), obs), h.routesAdded, fp);
    }
  }

  lemma SetupHoldsPin(inputs: Inputs, cmds: Commands, s: Sys, obs: Observation)
    requires GoodInputs(inputs) && Setup(inputs, cmds, s, obs, true).1.Some?
    ensures PinHeld(inputs, Setup(inputs, cmds, s, obs, true).1.value)
  {
    hide InstallAll, Desired, AddMissing;
    var fp := CurrentFingerprint(inputs, obs, None);
    InstallAllIsAddMissing(cmds, s, Desired(inputs, fp));
    if inputs.endpointNeedsPin {
      PinComesFirst(inputs, cmds, s, [], fp);
      PinWasAdded(inputs, cmds, s, fp);
    }
  }

  lemma PinWasAdded(inputs: Inputs, cmds: Commands, s: Sys, fp: Fingerprint)
    requires GoodInputs(inputs) && inputs.endpointNeedsPin && fp.endpointGateway.Some? && InstallAll(cmds, s, Desired(inputs, fp)).2
    ensures cmds.adds(s.clock)
  {
    DesiredKeys(inputs, fp);
    assert Desired(inputs, fp)[0] == Pin(inputs, fp);
    hide Desired;
    InstallAllIsAddMissing(cmds, s, Desired(inputs, fp));
  }

  /** What a step may do, in terms of commands alone: deletes of stale routes
      work, and either the AllowedIPs leave the endpoint's own route alone or the
      pin adds issued work. */
  ghost predicate PlainStep(inputs: Inputs, w: World, step: Step) {
    match step
    case Environment(_, _) => OwnershipStep(inputs, w, step)
    case Reconcile(cmds, obs) =>
      && GoodTick(inputs, cmds, obs, w.subnets) && TickDeletesWork(inputs, cmds, w.helper, obs)
      && (NoContention(inputs) || PinAddWorks(inputs, cmds, w.helper, obs))
  }

  ghost predicate PlainRun(inputs: Inputs, w: World, steps: seq<Step>) {
    steps == [] ||
    (var front := steps[..|steps| - 1];
     PlainRun(inputs, w, front) && PlainStep(inputs, Run(inputs, w, front), steps[|steps| - 1]))
  }

  lemma {:induction false} PlainRunsOwn(inputs: Inputs, w: World, steps: seq<Step>)
    requires RecordExact(inputs, w.helper, w.subnets) && PinHeld(inputs, w.helper) && PlainRun(inputs, w, steps)
    ensures OwnershipRun(inputs, w, steps)
    ensures NoContention(inputs) || PinHeld(inputs, Run(inputs, w, steps).helper)
  {
    if steps != [] {
      hide RecordExact, GoodTick, TickDeletesWork, Tick, NoContention, PinHeld, TickMisrecords, PinAddWorks;
      var front, last := steps[..|steps| - 1], steps[|steps| - 1];
      PlainRunsOwn(inputs, w, front);
      RecordExactAlongRun(inputs, w, front);
      var w1 := Run(inputs, w, front);
      match last
      case Reconcile(cmds, obs) =>
        ContentionNeedsBoth(inputs, cmds, w1.helper, obs, w1.subnets);
        if !NoContention(inputs) { TickKeepsPinHeld(inputs, cmds, w1.helper, obs, w1.subnets); }
      case Environment(t, ns) =>
        SameRecord(inputs, w1.helper, Next(inputs, w1, last).helper);
    }
  }

  lemma SameRecord(inputs: Inputs, h: Helper, h': Helper)
    requires h.routesAdded == h'.routesAdded && h.fp == h'.fp
    ensures PinHeld(inputs, h) <==> PinHeld(inputs, h')
  {
  }

  /** Route ownership over whole runs, for every AllowedIPs list that is distinct
      as networks: with the deletes of stale routes working, and the pin adds
      where the endpoint's own route is itself an AllowedIPs entry, the record
      matches the table and a teardown whose deletes work leaves no tunnel entry
      and every physical one. */
  lemma OwnershipOverPlainRuns(inputs: Inputs, cmds0: Commands, s: Sys, obs0: Observation, steps: seq<Step>,
                               cmds: Commands, obs: Observation)
    requires CleanHost(inputs, cmds0, s, obs0) && DeletesWork(cmds0)
    requires Setup(inputs, cmds0, s, obs0, true).1.Some?
    requires PlainRun(inputs, World(Setup(inputs, cmds0, s, obs0, true).1.value, obs0.subnets), steps)
    requires PhysicalDevices(obs)
    requires var w := Run(inputs, World(Setup(inputs, cmds0, s, obs0, true).1.value, obs0.subnets), steps);
             obs.subnets == w.subnets && TeardownWorks(cmds, w.helper, obs)
    ensures var h := Run(inputs, World(Setup(inputs, cmds0, s, obs0, true).1.value, obs0.subnets), steps).helper;
            && Matches(inputs, h.sys.table, h.routesAdded)
            && var t := Teardown(cmds, h, obs).table;
            && NoneOfOurs(inputs, t)
            && (forall k :: k in h.sys.table && !Mine(inputs, h.sys.table, k) ==> k in t && t[k] == h.sys.table[k])
  {
    hide Setup, RecordExact, PlainRun, OwnershipRun, Teardown, TeardownWorks, Run, PinHeld;
    var w := World(Setup(inputs, cmds0, s, obs0, true).1.value, obs0.subnets);
    SetupRecordsOrUndoes(inputs, cmds0, s, obs0, true);
    SetupHoldsPin(inputs, cmds0, s, obs0);
    PlainRunsOwn(inputs, w, steps);
    RouteOwnershipOverRuns(inputs, cmds0, s, obs0, steps, cmds, obs);
  }

  // ---- a run that loses the pin --------------------------------------------------------------------

  const EVERYTHING_WORKS: Commands := Commands(n => true, n => true, n => true)

  /** One add fails: that of the second pin. */
  const ONE_ADD_FAILS: Commands := Commands(n => true, n => true, n => n != 3)

  function Seen(gateway: string): Observation { Observation([], map[], Some(gateway)) }

  /** Connected to a single host through its own address, without LANs. */
  predicate HostOnly(inputs: Inputs) {
    && inputs.allowedIps == [HostNet(inputs.endpoint)] && inputs.endpointNeedsPin
    && HasFamily(inputs, inputs.endpoint.family) && IsUtun(inputs.interface)
  }

  function Own(inputs: Inputs): Route { TunnelRoute(inputs, HostNet(inputs.endpoint)) }

  lemma HostOnlyKeys(inputs: Inputs, gateway: string)
    ensures RouteKey(PinRoute(inputs, gateway)) == RouteKey(Own(inputs)) == PinKey(inputs)
  {
    HostNetIsItsKey(inputs.endpoint);
  }

  lemma HostOnlyAllows(inputs: Inputs)
    requires HostOnly(inputs)
    ensures AllowedRoutes(inputs, inputs.allowedIps) == [Own(inputs)]
  {
    var n := HostNet(inputs.endpoint);
    assert n != Everything(inputs.endpoint.family);
    assert [n][..0] == [] && AllowedRoutes(inputs, []) == [];
    assert AllowedRoutes(inputs, [n]) == [] + [Own(inputs)];
  }

  lemma HostOnlyDesires(inputs: Inputs, gateway: string)
    requires HostOnly(inputs)
    ensures Desired(inputs, Fingerprint([], Some(gateway))) == [PinRoute(inputs, gateway), Own(inputs)]
    ensures RouteKey(PinRoute(inputs, gateway)) == RouteKey(Own(inputs)) == PinKey(inputs)
  {
    hide AllowedRoutes, RouteKey;
    HostOnlyKeys(inputs, gateway);
    HostOnlyAllows(inputs);
    assert [Own(inputs)][..0] == [] && NotExcluded([], []) == [];
    assert ExcludedBy(Own(inputs), []) == None;
    assert NotExcluded([Own(inputs)], []) == [] + [Own(inputs)];
  }

  function Connected1(inputs: Inputs): Helper {
    Helper(Sys(map[PinKey(inputs) := Via("a")], 2), [PinRoute(inputs, "a")], Fingerprint([], Some("a")))
  }

  function Unpinned(inputs: Inputs): Helper {
    Helper(Sys(map[PinKey(inputs) := Device(inputs.interface)], 6), [Own(inputs)], Fingerprint([], Some("b")))
  }

  function Lost(inputs: Inputs): Helper {
    Helper(Sys(map[PinKey(inputs) := Device(inputs.interface)], 7), [PinRoute(inputs, "c"), Own(inputs)], Fingerprint([], Some("c")))
  }

  lemma ComesUp(inputs: Inputs)
    requires HostOnly(inputs)
    ensures Setup(inputs, EVERYTHING_WORKS, Sys(map[], 0), Seen("a"), true) == (Connected1(inputs).sys, Some(Connected1(inputs)))
    ensures CleanHost(inputs, EVERYTHING_WORKS, Sys(map[], 0), Seen("a"))
  {
    hide Desired, AllowedRoutes, RouteKey;
    HostOnlyAllows(inputs);
    HostOnlyDesires(inputs, "a");
    var pin, own, k := PinRoute(inputs, "a"), Own(inputs), PinKey(inputs);
    var none: Table := map[];
    assert none[k := Via("a")] == map[k := Via("a")];
    var s1, s2 := Sys(map[k := Via("a")], 1), Sys(map[k := Via("a")], 2);
    assert AddRoute(EVERYTHING_WORKS, Sys(map[], 0), pin) == (s1, Install.Owned);
    assert AddRoute(EVERYTHING_WORKS, s1, own) == (s2, Foreign);
    assert InstallAll(EVERYTHING_WORKS, s2, []) == (s2, [], true);
    assert [pin, own][1..] == [own] && [own][1..] == [];
    assert InstallAll(EVERYTHING_WORKS, s1, [own]) == (s2, [], true);
    assert InstallAll(EVERYTHING_WORKS, Sys(map[], 0), [pin, own]) == (s2, [pin] + [], true);
    assert [pin] + [] == [pin];
  }

  lemma PinFails(inputs: Inputs)
    requires HostOnly(inputs)
    ensures Tick(inputs, ONE_ADD_FAILS, Connected1(inputs), Seen("b")) == Unpinned(inputs)
  {
    hide Desired, AllowedRoutes, RouteKey;
    HostOnlyDesires(inputs, "a");
    HostOnlyDesires(inputs, "b");
    var h := Connected1(inputs);
    var old1, pin, own, k := PinRoute(inputs, "a"), PinRoute(inputs, "b"), Own(inputs), PinKey(inputs);
    var none: Table := map[];
    assert "a" != "b";
    assert h.sys.table - {k} == none;
    assert DropRoute(ONE_ADD_FAILS, h.sys, old1, Seen("b")) == Sys(none, 3);
    assert [old1][1..] == [];
    assert RemoveStale(ONE_ADD_FAILS, Sys(none, 3), [], [pin, own], Seen("b")) == Sys(none, 3);
    assert old1 !in [pin, own];
    assert RemoveStale(ONE_ADD_FAILS, h.sys, [old1], [pin, own], Seen("b")) == Sys(none, 3);
    assert none[k := Device(inputs.interface)] == Unpinned(inputs).sys.table;
    var s := Unpinned(inputs).sys;
    assert AddRoute(ONE_ADD_FAILS, Sys(none, 3), pin) == (Sys(none, 4), Failed);
    assert AddRoute(ONE_ADD_FAILS, Sys(none, 4), own) == (s, Install.Owned);
    assert [pin, own][1..] == [own] && [own][1..] == [];
    assert AddMissing(ONE_ADD_FAILS, s, [], [old1]) == (s, []);
    assert [own] + [] == [own];
    assert AddMissing(ONE_ADD_FAILS, Sys(none, 4), [own], [old1]) == (s, [own]);
    assert AddMissing(ONE_ADD_FAILS, Sys(none, 3), [pin, own], [old1]) == (s, [own]);
  }

  lemma PinIsRecordedAnyway(inputs: Inputs)
    requires HostOnly(inputs)
    ensures Tick(inputs, EVERYTHING_WORKS, Unpinned(inputs), Seen("c")) == Lost(inputs)
  {
    hide Desired, AllowedRoutes, RouteKey;
    HostOnlyDesires(inputs, "b");
    HostOnlyDesires(inputs, "c");
    var h := Unpinned(inputs);
    var pin, own, k := PinRoute(inputs, "c"), Own(inputs), PinKey(inputs);
    assert "b" != "c";
    assert [own][1..] == [] && own in [pin, own];
    assert RemoveStale(EVERYTHING_WORKS, h.sys, [], [pin, own], Seen("c")) == h.sys;
    assert RemoveStale(EVERYTHING_WORKS, h.sys, [own], [pin, own], Seen("c")) == h.sys;
    var s := Lost(inputs).sys;
    assert AddRoute(EVERYTHING_WORKS, h.sys, pin) == (s, Install.Owned);
    assert [pin, own][1..] == [own];
    assert AddMissing(EVERYTHING_WORKS, s, [], [own]) == (s, []);
    assert [own] + [] == [own];
    assert AddMissing(EVERYTHING_WORKS, s, [own], [own]) == (s, [own]);
    assert [pin] + [own] == [pin, own];
    assert AddMissing(EVERYTHING_WORKS, h.sys, [pin, own], [own]) == (s, [pin, own]);
  }

  /** A reachable run, for every tunnel to a single host: the gateway changes and
      the add of the new pin fails while the tunnel's own route for the endpoint
      goes in; the gateway changes again, and the pin is recorded though the
      tunnel holds its key. The record is wrong and the endpoint is routed into
      its own tunnel, with every delete working all along. */
  lemma LostPinIsRecorded(inputs: Inputs)
    requires HostOnly(inputs)
    ensures CleanHost(inputs, EVERYTHING_WORKS, Sys(map[], 0), Seen("a"))
    ensures var (s, up) := Setup(inputs, EVERYTHING_WORKS, Sys(map[], 0), Seen("a"), true);
            && up.Some?
            && var steps := [Reconcile(ONE_ADD_FAILS, Seen("b")), Reconcile(EVERYTHING_WORKS, Seen("c"))];
               var h := Run(inputs, World(up.value, []), steps).helper;
            && DeletesWork(ONE_ADD_FAILS) && DeletesWork(EVERYTHING_WORKS)
            && PinRoute(inputs, "c") in h.routesAdded && !Matches(inputs, h.sys.table, h.routesAdded)
            && !NeverTunnelled(h.sys.table, inputs.endpoint)
  {
    hide Setup, Tick;
    ComesUp(inputs);
    PinFails(inputs);
    PinIsRecordedAnyway(inputs);
    var steps := [Reconcile(ONE_ADD_FAILS, Seen("b")), Reconcile(EVERYTHING_WORKS, Seen("c"))];
    var w := World(Connected1(inputs), []);
    assert steps[..1] == [steps[0]] && steps[..1][..0] == [];
    assert Run(inputs, w, []) == w;
    assert Run(inputs, w, steps[..1]) == World(Unpinned(inputs), []);
    assert Run(inputs, w, steps) == World(Lost(inputs), []);
    HostNetIsItsKey(inputs.endpoint);
    assert Answers(Lost(inputs).sys.table, inputs.endpoint, PinKey(inputs));
    assert PinRoute(inputs, "c") in Lost(inputs).routesAdded;
  }
}
