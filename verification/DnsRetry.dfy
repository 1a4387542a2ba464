/** What becomes of a DNS tick whose writes fail: exactly when it settles
    nevertheless, exactly when the next tick tries again, and that one which
    does not is followed by none that does. */
module DnsRetry {
  import opened Prelude
  import opened Dns
  import opened DnsCustody
  import opened DnsConvergence

  // ---- the writes of a tick ------------------------------------------------------------

  /** Every restore of the release phase works. */
  predicate RestoresWork(cmds: Commands, h: Host, saved: seq<Saved>, list: seq<string>)
    decreases |list|
  {
    list == [] ||
    match FindSaved(saved, list[0])
    case None => RestoresWork(cmds, h, Without(saved, list[0]), list[1..])
    case Some(entry) =>
      var (h1, ok) := Restore(cmds, h, entry);
      ok && RestoresWork(cmds, h1, Without(saved, list[0]), list[1..])
  }

  /** Every resolver write of the apply phase works; search domains may fail. */
  predicate ResolversLand(cmds: Commands, h: Host, list: seq<string>, tunnel: seq<string>)
    decreases |list|
  {
    list == [] ||
    (SetWorks(cmds, h, list[0]) && ResolversLand(cmds, SetConf(cmds, h, list[0], TunnelConf(tunnel)).0, list[1..], tunnel))
  }

  /** The host and the record as the release phase finds them. */
  function Captured(cmds: Commands, h: Host, saved: seq<Saved>, tunnel: seq<string>, plan: Actions): (Host, seq<Saved>) {
    var (h1, captured, _) := CaptureAll(cmds, h, plan.capture, tunnel);
    (h1, saved + captured)
  }

  predicate ReleaseWorks(cmds: Commands, h: Host, saved: seq<Saved>, tunnel: seq<string>, plan: Actions) {
    var (h1, all) := Captured(cmds, h, saved, tunnel, plan);
    RestoresWork(cmds, h1, all, plan.restore)
  }

  predicate AssertionLands(cmds: Commands, h: Host, saved: seq<Saved>, tunnel: seq<string>, plan: Actions) {
    ResolversLand(cmds, AfterRelease(cmds, h, saved, tunnel, plan).0, plan.apply, tunnel)
  }

  /** How many services were restored or taken over completely, resolvers and
      search domains both. */
  function Pairs(cmds: Commands, h: Host, saved: seq<Saved>, tunnel: seq<string>, plan: Actions): nat {
    Reached(cmds, h, saved, tunnel, plan).2
  }

  /** The writes of a tick that leave it settled: all restores, all resolvers,
      and one complete pair for the helper to look again, unless nothing had to
      be written. */
  predicate WritesLand(cmds: Commands, h: Host, saved: seq<Saved>, tunnel: seq<string>, plan: Actions) {
    && ReleaseWorks(cmds, h, saved, tunnel, plan)
    && AssertionLands(cmds, h, saved, tunnel, plan)
    && (Pairs(cmds, h, saved, tunnel, plan) > 0 || plan.restore + plan.apply == [])
  }

  // ---- what the two writing phases do, failures included ---------------------------------

  ghost predicate NoneOwned(saved: seq<Saved>, list: seq<string>) { forall s :: s in list ==> !Own(saved, s) }

  ghost predicate AllOwned(saved: seq<Saved>, list: seq<string>) { forall s :: s in list ==> Own(saved, s) }

  /** `saved'` is `saved` without some entries of `list`. */
  ghost predicate Released(saved: seq<Saved>, list: seq<string>, saved': seq<Saved>) {
    (forall e :: e in saved' ==> e in saved) && (forall e :: e in saved && e.service !in list ==> e in saved')
  }

  /** One restore: an owned service comes off the record if it works. */
  lemma RestoreOne(cmds: Commands, h: Host, saved: seq<Saved>, list: seq<string>)
    requires list != [] && DistinctNames(saved) && Distinct(list) && AllOwned(saved, list)
    ensures FindSaved(saved, list[0]).Some?
    ensures var (h1, ok) := Restore(cmds, h, FindSaved(saved, list[0]).value);
            var saved1 := if ok then Without(saved, list[0]) else saved;
            && h1.conf.Keys == h.conf.Keys && h1.services == h.services && h1.primary == h.primary
            && DistinctNames(saved1) && Distinct(list[1..]) && AllOwned(saved1, list[1..])
            && (forall e :: e in saved1 ==> e in saved) && (forall e :: e in saved && e.service != list[0] ==> e in saved1)
            && (ok <==> !Own(saved1, list[0]))
  {
    var svc, rest := list[0], list[1..];
    FindSavedFinds(saved, svc);
    WithoutKeepsRest(saved, svc);
    var entry := FindSaved(saved, svc).value;
    SetConfFrame(cmds, h, svc, entry.original);
    hide FindSaved, Without, SetConf;
    forall s | s in rest
      ensures Own(Without(saved, svc), s) && Own(saved, s)
    {
      assert s in list && s != svc;
      var e :| e in saved && e.service == s;
      assert e in Without(saved, svc);
    }
  }

  /** After the release phase a listed service is off the record exactly if its
      restore worked; all of them are exactly if all restores worked. */
  lemma {:induction false} RestoreListedReleases(cmds: Commands, h: Host, saved: seq<Saved>, list: seq<string>)
    requires DistinctNames(saved) && Distinct(list) && AllOwned(saved, list)
    ensures var (h', saved', n) := RestoreListed(cmds, h, saved, list);
            && Released(saved, list, saved')
            && h'.conf.Keys == h.conf.Keys && h'.services == h.services && h'.primary == h.primary
            && (RestoresWork(cmds, h, saved, list) <==> NoneOwned(saved', list))
            && (RestoresWork(cmds, h, saved, list) && list != [] ==> n > 0)
            && (list == [] ==> h' == h && n == 0)
    decreases |list|
  {
    if list != [] {
      RestoreOne(cmds, h, saved, list);
      hide FindSaved, Without, SetConf, AllOwned, Own, DistinctNames, NoneOwned, Released, Distinct;
      var svc, rest := list[0], list[1..];
      var (h1, ok) := Restore(cmds, h, FindSaved(saved, svc).value);
      var saved1 := if ok then Without(saved, svc) else saved;
      RestoreListedReleases(cmds, h1, saved1, rest);
      var saved' := RestoreListed(cmds, h, saved, list).1;
      assert saved' == RestoreListed(cmds, h1, saved1, rest).1;
      ReleaseMore(saved, list, saved1, saved');
    }
  }

  lemma ReleaseMore(saved: seq<Saved>, list: seq<string>, saved1: seq<Saved>, saved': seq<Saved>)
    requires list != [] && Distinct(list) && Released(saved1, list[1..], saved')
    requires (forall e :: e in saved1 ==> e in saved) && (forall e :: e in saved && e.service != list[0] ==> e in saved1)
    ensures Released(saved, list, saved')
    ensures NoneOwned(saved', list) <==> NoneOwned(saved', list[1..]) && !Own(saved1, list[0])
  {
    var svc, rest := list[0], list[1..];
    assert forall s :: s in list <==> s == svc || s in rest;
    assert svc !in rest;
    if Own(saved1, svc) {
      var e :| e in saved1 && e.service == svc;
      assert e in saved';
    }
  }

  /** Over targets that do not show the tunnel's resolvers, the apply phase
      leaves all of them showing it exactly if every resolver write worked. */
  lemma {:induction false} ApplyAllShows(cmds: Commands, h: Host, list: seq<string>, tunnel: seq<string>)
    requires Distinct(list) && forall s :: s in list ==> s in h.conf && h.conf[s].servers != Some(tunnel)
    ensures var h' := ApplyAll(cmds, h, list, [], tunnel).0;
            && h'.conf.Keys == h.conf.Keys && h'.services == h.services && h'.primary == h.primary
            && (forall s :: s in h.conf && s !in list ==> h'.conf[s] == h.conf[s])
            && (ResolversLand(cmds, h, list, tunnel) <==> forall s :: s in list ==> h'.conf[s].servers == Some(tunnel))
            && (list == [] ==> h' == h)
    decreases |list|
  {
    if list != [] {
      var svc, rest := list[0], list[1..];
      var h1 := SetConf(cmds, h, svc, TunnelConf(tunnel)).0;
      SetConfFrame(cmds, h, svc, TunnelConf(tunnel));
      assert SetWorks(cmds, h, svc) <==> h1.conf[svc].servers == Some(tunnel);
      assert forall s :: s in list <==> s == svc || s in rest;
      ApplyAllShows(cmds, h1, rest, tunnel);
      hide SetConf;
    }
  }

  lemma NamesDistinct(saved: seq<Saved>)
    requires DistinctNames(saved)
    ensures Distinct(Names(saved))
  {
  }

  lemma TrueObservedInjective(h: Host, h': Host, services: seq<string>)
    requires forall s :: s in services ==> s in h.conf && s in h'.conf
    ensures TrueObserved(h, services) == TrueObserved(h', services) <==>
            forall s :: s in services ==> h.conf[s].servers == h'.conf[s].servers
  {
    if TrueObserved(h, services) == TrueObserved(h', services) {
      forall s | s in services
        ensures h.conf[s].servers == h'.conf[s].servers
      {
        TrueObservedOf(h, services, s);
        TrueObservedOf(h', services, s);
      }
    } else if forall s :: s in services ==> h.conf[s].servers == h'.conf[s].servers {
      TrueObservedOnlyConf(h, h', services);
    }
  }

  // ---- where an acting tick leads -------------------------------------------------------------

  ghost predicate Readable(cmds: Commands, h: Host, saved: seq<Saved>) {
    ReadsWork(cmds) && WellListed(h) && h.services != [] && DistinctNames(saved)
  }

  function PlanFor(h: Host, saved: seq<Saved>, tunnel: seq<string>, collision: bool): Actions
    requires forall s :: s in h.services ==> s in h.conf
  {
    var fp := TrueFingerprint(h);
    Plan(tunnel, fp, Names(saved), TickTargets(fp, collision))
  }

  function Wanted(h: Host, collision: bool): seq<string>
    requires forall s :: s in h.services ==> s in h.conf
  {
    TickTargets(TrueFingerprint(h), collision)
  }

  lemma WantedAreListed(h: Host, collision: bool)
    requires WellListed(h)
    ensures Distinct(Wanted(h, collision)) && forall s :: s in Wanted(h, collision) ==> s in h.services && s in h.conf
  {
  }

  lemma PlanForMeans(h: Host, saved: seq<Saved>, tunnel: seq<string>, collision: bool)
    requires WellListed(h) && DistinctNames(saved)
    ensures var plan := PlanFor(h, saved, tunnel, collision);
            && (forall s :: s in plan.capture <==> s in Wanted(h, collision) && !Own(saved, s))
            && (forall s :: s in plan.restore <==> Own(saved, s) && s !in Wanted(h, collision) && s in h.conf)
            && (forall s :: s in plan.drop <==> Own(saved, s) && s !in Wanted(h, collision) && s !in h.conf)
            && (forall s :: s in plan.apply <==> s in Wanted(h, collision) && h.conf[s].servers != Some(tunnel))
            && Distinct(plan.capture) && Distinct(plan.restore) && Distinct(plan.apply)
  {
    var fp := TrueFingerprint(h);
    var targets := Wanted(h, collision);
    WantedAreListed(h, collision);
    PlanMeans(tunnel, fp, saved, targets);
    NamesDistinct(saved);
    KeepIfDistinct(Names(saved), svc => svc !in targets && svc in fp.services);
    KeepIfDistinct(targets, svc => !ShowsTunnel(tunnel, fp, svc));
    forall s | s in targets
      ensures s in h.conf && (ShowsTunnel(tunnel, fp, s) <==> h.conf[s].servers == Some(tunnel))
    {
      TrueObservedOf(h, h.services, s);
    }
  }

  /** The record after the release phase, restores failing or not: every target
      is on it, and of the others exactly those whose restore failed. */
  lemma ReleaseKeeps(cmds: Commands, h: Host, saved: seq<Saved>, tunnel: seq<string>, collision: bool)
    requires Readable(cmds, h, saved)
    ensures var plan := PlanFor(h, saved, tunnel, collision);
            var (h2, saved3, failed) := AfterRelease(cmds, h, saved, tunnel, plan);
            && failed == [] && h2.conf.Keys == h.conf.Keys && h2.services == h.services && h2.primary == h.primary
            && (forall s :: s in Wanted(h, collision) ==> Own(saved3, s))
            && (forall s :: Own(saved3, s) ==> s in Wanted(h, collision) || s in plan.restore)
            && (ReleaseWorks(cmds, h, saved, tunnel, plan) <==> NoneOwned(saved3, plan.restore))
            && (forall s :: s in h.conf && s !in plan.restore ==> h2.conf[s] == h.conf[s])
            && (ReleaseWorks(cmds, h, saved, tunnel, plan) && plan.restore != [] ==> Pairs(cmds, h, saved, tunnel, plan) > 0)
  {
    var plan := PlanFor(h, saved, tunnel, collision);
    var targets := Wanted(h, collision);
    PlanForMeans(h, saved, tunnel, collision);
    WantedAreListed(h, collision);
    hide PlanFor, Wanted, CaptureAll, RestoreListed, RestoresWork, ApplyAll, DropListed, Distinct;
    CaptureAllWorks(cmds, h, plan.capture, tunnel);
    CapturedDistinct(cmds, h, plan.capture, tunnel, saved);
    var (h1, all) := Captured(cmds, h, saved, tunnel, plan);
    var captured := CaptureAll(cmds, h, plan.capture, tunnel).1;
    AppendOwned(saved, captured);
    assert AllOwned(all, plan.restore);
    RestoreListedReleases(cmds, h1, all, plan.restore);
    RestoreListedTouchesListed(cmds, h1, all, plan.restore);
    var saved2 := RestoreListed(cmds, h1, all, plan.restore).1;
    DropListedDrops(saved2, plan.drop);
    var saved3 := DropListed(saved2, plan.drop);
    RecordAfterRelease(saved, captured, plan, targets, h.conf.Keys, saved2, saved3);
  }

  lemma AppendOwned(a: seq<Saved>, b: seq<Saved>)
    ensures forall s :: Own(a + b, s) <==> Own(a, s) || Own(b, s)
  {
    assert forall e :: e in a + b <==> e in a || e in b;
  }

  lemma {:induction false} CapturedDistinct(cmds: Commands, h: Host, list: seq<string>, tunnel: seq<string>, saved: seq<Saved>)
    requires ReadsWork(cmds) && Distinct(list) && DistinctNames(saved)
    requires forall s :: s in list ==> s in h.conf && !Own(saved, s)
    ensures DistinctNames(saved + CaptureAll(cmds, h, list, tunnel).1)
    decreases |list|
  {
    if list == [] {
      assert saved + [] == saved;
    } else {
      var (entry, h1) := Capture(cmds, h, list[0], tunnel);
      var saved1 := saved + [entry.value];
      AppendOwned(saved, [entry.value]);
      assert forall i :: 0 <= i < |saved| ==> Own(saved, saved[i].service);
      assert DistinctNames(saved1);
      CapturedDistinct(cmds, h1, list[1..], tunnel, saved1);
      var rest := CaptureAll(cmds, h1, list[1..], tunnel).1;
      assert saved + ([entry.value] + rest) == saved1 + rest;
    }
  }

  lemma RecordAfterRelease(saved: seq<Saved>, captured: seq<Saved>, plan: Actions, targets: seq<string>, listed: set<string>,
                           saved2: seq<Saved>, saved3: seq<Saved>)
    requires forall s :: Own(captured, s) <==> s in targets && !Own(saved, s)
    requires forall s :: s in plan.restore <==> Own(saved, s) && s !in targets && s in listed
    requires forall s :: s in plan.drop <==> Own(saved, s) && s !in targets && s !in listed
    requires Released(saved + captured, plan.restore, saved2)
    requires forall e :: e in saved3 <==> e in saved2 && e.service !in plan.drop
    ensures forall s :: s in targets ==> Own(saved3, s)
    ensures forall s :: Own(saved3, s) ==> s in targets || s in plan.restore
    ensures NoneOwned(saved2, plan.restore) <==> NoneOwned(saved3, plan.restore)
  {
    AppendOwned(saved, captured);
    forall s | s in targets
      ensures Own(saved3, s)
    {
      assert Own(saved + captured, s);
      var e :| e in saved + captured && e.service == s;
      assert e in saved2;
    }
    forall s | Own(saved3, s)
      ensures s in targets || s in plan.restore
    {
      var e :| e in saved3 && e.service == s;
      assert Own(saved + captured, s);
    }
    forall s | s in plan.restore
      ensures Own(saved2, s) <==> Own(saved3, s)
    {
      assert s !in plan.drop;
    }
  }

  ghost predicate AllShow(conf: map<string, Conf>, targets: seq<string>, tunnel: seq<string>) {
    forall s :: s in targets ==> s in conf && conf[s].servers == Some(tunnel)
  }

  /** The apply phase after that: all targets show the tunnel's resolvers exactly
      if every resolver write worked. */
  lemma AssertionShows(cmds: Commands, h: Host, h2: Host, plan: Actions, tunnel: seq<string>, targets: seq<string>)
    requires h2.conf.Keys == h.conf.Keys && forall s :: s in h.conf && s !in plan.restore ==> h2.conf[s] == h.conf[s]
    requires forall s :: s in targets ==> s in h.conf && s !in plan.restore
    requires forall s :: s in plan.apply <==> s in targets && h.conf[s].servers != Some(tunnel)
    requires Distinct(plan.apply)
    ensures var h3 := ApplyAll(cmds, h2, plan.apply, [], tunnel).0;
            && h3.conf.Keys == h2.conf.Keys && h3.services == h2.services && h3.primary == h2.primary
            && (ResolversLand(cmds, h2, plan.apply, tunnel) <==> AllShow(h3.conf, targets, tunnel))
            && (plan.restore + plan.apply == [] ==> h3.conf == h.conf)
  {
    hide Distinct, ApplyAll, ResolversLand;
    ApplyAllShows(cmds, h2, plan.apply, tunnel);
    var h3 := ApplyAll(cmds, h2, plan.apply, [], tunnel).0;
    forall s | s in targets && s !in plan.apply
      ensures h3.conf[s].servers == Some(tunnel)
    {
      assert h3.conf[s] == h2.conf[s] == h.conf[s];
    }
    if plan.restore + plan.apply == [] {
      assert plan.restore == [] && plan.apply == [];
      assert forall s :: s in h.conf ==> h3.conf[s] == h.conf[s];
    }
  }

  /** What is known after the phases of a tick, by how its writes went. */
  ghost predicate Led(conf: map<string, Conf>, conf': map<string, Conf>, saved': seq<Saved>, plan: Actions, tunnel: seq<string>,
                      targets: seq<string>, pairs: nat, released: bool, landed: bool) {
    && (released <==> NoneOwned(saved', plan.restore))
    && (landed <==> AllShow(conf', targets, tunnel))
    && (released && plan.restore != [] ==> pairs > 0)
    && (forall s :: s in targets ==> Own(saved', s) && s !in plan.restore)
    && (forall s :: Own(saved', s) ==> s in targets || s in plan.restore)
    && (forall s :: s in plan.apply ==> s in targets && s in conf && conf[s].servers != Some(tunnel))
    && (plan.restore + plan.apply == [] ==> conf' == conf)
  }

  /** Where an acting tick leads, whatever its writes do. */
  lemma TickReaches(cmds: Commands, h: Host, saved: seq<Saved>, tunnel: seq<string>, collision: bool)
    requires Readable(cmds, h, saved)
    ensures var plan := PlanFor(h, saved, tunnel, collision);
            var (h3, saved3, n) := Reached(cmds, h, saved, tunnel, plan);
            && h3.conf.Keys == h.conf.Keys && h3.services == h.services && h3.primary == h.primary
            && Led(h.conf, h3.conf, saved3, plan, tunnel, Wanted(h, collision), n,
                   ReleaseWorks(cmds, h, saved, tunnel, plan), AssertionLands(cmds, h, saved, tunnel, plan))
  {
    hide PlanFor, Wanted, CaptureAll, RestoreListed, ApplyAll, DropListed, ResolversLand, NoneOwned, Own, ReleaseWorks, Distinct,
         AllShow, ReadsWork, DistinctNames, TrueFingerprint, TickTargets;
    var plan := PlanFor(h, saved, tunnel, collision);
    PlanForMeans(h, saved, tunnel, collision);
    WantedAreListed(h, collision);
    ReleaseKeeps(cmds, h, saved, tunnel, collision);
    AssertionShows(cmds, h, AfterRelease(cmds, h, saved, tunnel, plan).0, plan, tunnel, Wanted(h, collision));
  }

  // ---- exactly when it settles --------------------------------------------------------------------

  /** The state an acting tick stores: a new fingerprint if a pair completed,
      the one it acted on otherwise. */
  lemma ActStores(cmds: Commands, h: Host, saved: seq<Saved>, tunnel: seq<string>, collision: bool)
    requires Readable(cmds, h, saved)
    ensures var st := Act(cmds, h, saved, tunnel, TrueFingerprint(h), Wanted(h, collision));
            var (h3, saved3, n) := Reached(cmds, h, saved, tunnel, PlanFor(h, saved, tunnel, collision));
            && SameSystem(h3, st.host) && st.saved == saved3
            && WellListed(st.host) && Wanted(st.host, collision) == Wanted(h, collision)
            && TrueFingerprint(h).primary == TrueFingerprint(st.host).primary
            && TrueFingerprint(h).services == TrueFingerprint(st.host).services
            && st.fp == if n > 0 then TrueFingerprint(st.host) else TrueFingerprint(h)
  {
    hide TrueObserved, Observe, Reached, Act, Plan, Names, Distinct, DistinctNames, Own, ReleaseWorks,
         AssertionLands, NoneOwned, AllShow, Led;
    ActReaches(cmds, h, saved, tunnel, TrueFingerprint(h), Wanted(h, collision));
    TickReaches(cmds, h, saved, tunnel, collision);
    var (h3, saved3, n) := Reached(cmds, h, saved, tunnel, PlanFor(h, saved, tunnel, collision));
    if n > 0 {
      SnapshotIsTrue(cmds, h3);
      FingerprintReads(cmds, h3);
      TrueObservedOnlyConf(h3, Snapshot(cmds, h3, TrueFingerprint(h)).1, h3.services);
    }
  }

  /** Some service's resolvers are not what they were. */
  ghost predicate Changed(h: Host, h': Host) {
    exists s :: s in h.conf && s in h'.conf && h.conf[s].servers != h'.conf[s].servers
  }

  lemma StaleIffChanged(h: Host, h': Host)
    requires WellListed(h) && WellListed(h') && h.services == h'.services && h.primary == h'.primary
    ensures TrueFingerprint(h) != TrueFingerprint(h') <==> Changed(h, h')
  {
    TrueObservedInjective(h, h', h.services);
  }

  ghost predicate OwnsExactly(saved: seq<Saved>, targets: seq<string>) { forall s :: Own(saved, s) <==> s in targets }

  lemma SettledMeans(st: State, tunnel: seq<string>, collision: bool)
    requires WellListed(st.host) && st.host.services != []
    ensures Settled(st, tunnel, collision) <==>
            && OwnsExactly(st.saved, Wanted(st.host, collision)) && AllShow(st.host.conf, Wanted(st.host, collision), tunnel)
            && st.fp == TrueFingerprint(st.host)
  {
    hide TrueFingerprint, TickTargets, Own, Distinct;
  }

  lemma PartsOfSettling(h: Host, st: State, plan: Actions, tunnel: seq<string>, targets: seq<string>,
                        pairs: nat, released: bool, landed: bool)
    requires WellListed(h) && st.host.conf.Keys == h.conf.Keys
    requires Led(h.conf, st.host.conf, st.saved, plan, tunnel, targets, pairs, released, landed)
    ensures (OwnsExactly(st.saved, targets) && AllShow(st.host.conf, targets, tunnel) && (pairs > 0 || !Changed(h, st.host))) <==>
            (released && landed && (pairs > 0 || plan.restore + plan.apply == []))
  {
    hide Own, WellListed;
    if released && landed && pairs == 0 && plan.apply != [] {
      assert plan.apply[0] in plan.apply;
    }
  }

  lemma ActSettlesIff(cmds: Commands, h: Host, saved: seq<Saved>, tunnel: seq<string>, collision: bool)
    requires Readable(cmds, h, saved)
    ensures Settled(Act(cmds, h, saved, tunnel, TrueFingerprint(h), Wanted(h, collision)), tunnel, collision)
            <==> WritesLand(cmds, h, saved, tunnel, PlanFor(h, saved, tunnel, collision))
  {
    hide TrueFingerprint, Reached, Act, PlanFor, ReleaseWorks, AssertionLands, Settled, Wanted, OwnsExactly, Changed, AllShow, Led,
         Distinct, DistinctNames, ReadsWork;
    var plan := PlanFor(h, saved, tunnel, collision);
    TickReaches(cmds, h, saved, tunnel, collision);
    ActStores(cmds, h, saved, tunnel, collision);
    var st := Act(cmds, h, saved, tunnel, TrueFingerprint(h), Wanted(h, collision));
    StaleIffChanged(h, st.host);
    SettledMeans(st, tunnel, collision);
    PartsOfSettling(h, st, plan, tunnel, Wanted(h, collision), Pairs(cmds, h, saved, tunnel, plan),
                    ReleaseWorks(cmds, h, saved, tunnel, plan), AssertionLands(cmds, h, saved, tunnel, plan));
  }

  /** The host as an acting tick first reads it. */
  function Looked(cmds: Commands, h: Host): Host { CurrentFingerprint(cmds, h).1 }

  lemma TickActs(cmds: Commands, st: State, tunnel: seq<string>, collision: bool)
    requires Readable(cmds, st.host, st.saved) && tunnel != [] && Acts(st, TrueFingerprint(st.host), collision)
    ensures var h := Looked(cmds, st.host);
            && SameSystem(st.host, h) && Readable(cmds, h, st.saved) && TrueFingerprint(h) == TrueFingerprint(st.host)
            && Tick(cmds, st, tunnel, collision) == Act(cmds, h, st.saved, tunnel, TrueFingerprint(h), Wanted(h, collision))
  {
    hide Act, Observe, TrueObserved;
    SnapshotIsTrue(cmds, st.host);
    FingerprintReads(cmds, st.host);
    TrueObservedOnlyConf(st.host, Looked(cmds, st.host), st.host.services);
  }

  /** A tick that acts, its reads working, settles if and only if its writes
      land: every restore, the resolvers of every target that does not show the
      tunnel's, and one complete pair unless nothing had to be written. */
  lemma SettlesIffWritesLand(cmds: Commands, st: State, tunnel: seq<string>, collision: bool)
    requires Readable(cmds, st.host, st.saved) && tunnel != [] && Acts(st, TrueFingerprint(st.host), collision)
    ensures Settled(Tick(cmds, st, tunnel, collision), tunnel, collision) <==>
            WritesLand(cmds, Looked(cmds, st.host), st.saved, tunnel, PlanFor(st.host, st.saved, tunnel, collision))
  {
    hide Act, Settled, Looked, WritesLand, TrueObserved;
    TickActs(cmds, st, tunnel, collision);
    ActSettlesIff(cmds, Looked(cmds, st.host), st.saved, tunnel, collision);
  }

  // ---- exactly when it is tried again -----------------------------------------------------------------

  lemma ForcedIff(saved: seq<Saved>, targets: seq<string>, collision: bool)
    requires forall s :: s in targets ==> Own(saved, s)
    requires collision ==> targets == []
    ensures Forced(collision, Names(saved), targets) <==> collision && exists s :: Own(saved, s)
  {
    forall s ensures Own(saved, s) <==> s in Names(saved) { OwnIsNamed(saved, s); }
    if collision && Names(saved) != [] {
      assert Own(saved, Names(saved)[0]);
    }
  }

  /** After a tick that acted, with the environment quiet, the next one acts
      again if and only if the fingerprint it stored is out of date, that is, no
      pair completed although some write changed a service's resolvers; or a
      restore that a collision asks for failed. */
  lemma RetriedIff(cmds: Commands, st: State, tunnel: seq<string>, collision: bool)
    requires Readable(cmds, st.host, st.saved) && tunnel != [] && Acts(st, TrueFingerprint(st.host), collision)
    ensures var st1 := Tick(cmds, st, tunnel, collision);
            var h, plan := Looked(cmds, st.host), PlanFor(st.host, st.saved, tunnel, collision);
            && WellListed(st1.host) && st1.host.services == st.host.services
            && (Acts(st1, TrueFingerprint(st1.host), collision) <==>
                  || (Pairs(cmds, h, st.saved, tunnel, plan) == 0 && Changed(st.host, st1.host))
                  || (collision && !ReleaseWorks(cmds, h, st.saved, tunnel, plan)))
  {
    TickActs(cmds, st, tunnel, collision);
    var h := Looked(cmds, st.host);
    var st1 := Tick(cmds, st, tunnel, collision);
    ActStores(cmds, h, st.saved, tunnel, collision);
    TickReaches(cmds, h, st.saved, tunnel, collision);
    StaleIffChanged(h, st1.host);
    hide TrueFingerprint, Reached, Act, PlanFor, ReleaseWorks, Tick, Names, Forced, Distinct, ReadsWork, Looked, CurrentFingerprint;
    ForcedIff(st1.saved, Wanted(h, collision), collision);
    assert Changed(st.host, st1.host) <==> Changed(h, st1.host);
    if collision {
      assert Wanted(h, collision) == [];
    }
  }

  /** Later ticks of a quiet environment. */
  function Ticks(st: State, later: seq<Commands>, tunnel: seq<string>, collision: bool): State {
    if later == [] then st
    else Tick(later[|later| - 1], Ticks(st, later[..|later| - 1], tunnel, collision), tunnel, collision)
  }

  ghost predicate AllReadsWork(later: seq<Commands>) { forall i :: 0 <= i < |later| ==> ReadsWork(later[i]) }

  lemma {:induction false} IdleForever(st: State, later: seq<Commands>, tunnel: seq<string>, collision: bool)
    requires WellListed(st.host) && st.host.services != [] && AllReadsWork(later)
    requires !Acts(st, TrueFingerprint(st.host), collision)
    ensures var st' := Ticks(st, later, tunnel, collision);
            SameSystem(st.host, st'.host) && st'.saved == st.saved && st'.fp == st.fp
  {
    if later != [] {
      hide TrueObserved, Act, Observe, Names, Forced, Distinct;
      var front, cmds := later[..|later| - 1], later[|later| - 1];
      IdleForever(st, front, tunnel, collision);
      var st1 := Ticks(st, front, tunnel, collision);
      TrueObservedOnlyConf(st.host, st1.host, st.host.services);
      SnapshotIsTrue(cmds, st1.host);
      FingerprintReads(cmds, st1.host);
    }
  }

  /** A failed apply is not retried. After a tick that acted without collision,
      if a pair completed or no write changed any resolvers, then no later tick
      of a quiet environment does anything, whatever its commands would do: the
      targets that do not show the tunnel's resolvers now never will. In the
      other case the very next tick acts again. */
  lemma FailedApplyIsNotRetried(cmds: Commands, st: State, tunnel: seq<string>, later: seq<Commands>)
    requires Readable(cmds, st.host, st.saved) && tunnel != [] && Acts(st, TrueFingerprint(st.host), false)
    requires AllReadsWork(later)
    ensures var st1 := Tick(cmds, st, tunnel, false);
            var st2 := Ticks(st1, later, tunnel, false);
            && WellListed(st1.host)
            && if Pairs(cmds, Looked(cmds, st.host), st.saved, tunnel, PlanFor(st.host, st.saved, tunnel, false)) > 0
                  || !Changed(st.host, st1.host)
               then SameSystem(st1.host, st2.host) && st2.saved == st1.saved && st2.fp == st1.fp
               else Acts(st1, TrueFingerprint(st1.host), false)
  {
    RetriedIff(cmds, st, tunnel, false);
    hide TrueFingerprint, PlanFor, Pairs, Tick, Acts, Changed, Looked;
    var st1 := Tick(cmds, st, tunnel, false);
    if !Acts(st1, TrueFingerprint(st1.host), false) {
      IdleForever(st1, later, tunnel, false);
    }
  }

  // ---- a service that is left out for good ---------------------------------------------------------------

  const TUNNEL: seq<string> := ["10.64.0.1"]
  const WIFI: string := "Wi-Fi"
  const LAN: string := "Ethernet"
  const PLAIN: Conf := Conf(None, None)
  const ALWAYS: Commands := Commands(n => true, n => true, n => true, n => true)

  /** The writes stop working once the old service has been restored. */
  const HALFWAY: Commands := Commands(n => true, n => true, n => true, n => n < 18)

  const BEFORE: Host := Host([WIFI], map[WIFI := PLAIN], None, 0)
  const PLUGGED: Step := Environment([WIFI, LAN], map[WIFI := TunnelConf(TUNNEL), LAN := PLAIN], Some(LAN))

  const UP: State := State(Host([WIFI], map[WIFI := TunnelConf(TUNNEL)], None, 10), [Saved(WIFI, PLAIN)],
                           Fingerprint(None, [WIFI], [(WIFI, Some(TUNNEL))]))
  const MOVED: State := UP.(host := Host([WIFI, LAN], map[WIFI := TunnelConf(TUNNEL), LAN := PLAIN], Some(LAN), 10))
  const LEFT_OUT: State := State(Host([WIFI, LAN], map[WIFI := PLAIN, LAN := PLAIN], Some(LAN), 23), [Saved(LAN, PLAIN)],
                                 Fingerprint(Some(LAN), [WIFI, LAN], [(WIFI, None), (LAN, None)]))

  lemma {:induction false} ObserveTicks(cmds: Commands, h: Host, services: seq<string>)
    ensures Observe(cmds, h, services).1 == h.(clock := h.clock + |services|)
    decreases |services|
  {
    if services != [] { ObserveTicks(cmds, Ticked(h), services[1..]); }
  }

  /** A snapshot of which every read works, with its clock. */
  lemma Sees(cmds: Commands, h: Host)
    requires ReadsWork(cmds) && WellListed(h) && h.services != []
    ensures CurrentFingerprint(cmds, h) == (Some(TrueFingerprint(h)), h.(clock := h.clock + |h.services| + 2))
  {
    SnapshotIsTrue(cmds, h);
    ObserveTicks(cmds, Ticked(h), h.services);
  }

  lemma Slices<T>(x: T, y: T)
    ensures [x][1..] == [] && [x][..0] == [] && [x, y][1..] == [y] && [x, y][..1] == [x]
  {
  }

  /** Both halves of a write that works. */
  lemma SetsBoth(cmds: Commands, h: Host, svc: string, c: Conf)
    requires svc in h.conf && cmds.sets(h.clock) && cmds.sets(h.clock + 1)
    ensures SetConf(cmds, h, svc, c) == (h.(conf := h.conf[svc := c], clock := h.clock + 2), true)
  {
    var m := h.conf[svc := h.conf[svc].(servers := c.servers)];
    assert m[svc := m[svc].(search := c.search)] == h.conf[svc := c];
  }

  lemma SeesOne(h: Host, s: string)
    requires h.services == [s] && s in h.conf
    ensures TrueFingerprint(h) == Fingerprint(h.primary, [s], [(s, h.conf[s].servers)])
  {
    Slices(s, s);
    assert TrueObserved(h, []) == [];
    assert TrueObserved(h, [s]) == [(s, h.conf[s].servers)] + [];
  }

  lemma SeesTwo(h: Host, s: string, t: string)
    requires h.services == [s, t] && s in h.conf && t in h.conf
    ensures TrueFingerprint(h) == Fingerprint(h.primary, [s, t], [(s, h.conf[s].servers), (t, h.conf[t].servers)])
  {
    SeesOne(h.(services := [t]), t);
    Slices(s, t);
    TrueObservedOnlyConf(h, h.(services := [t]), [t]);
    assert TrueObserved(h, [s, t]) == [(s, h.conf[s].servers)] + TrueObserved(h, [t]);
  }

  lemma ConnectedOnWifi()
    ensures Setup(ALWAYS, BEFORE, TUNNEL) == (UP.host, Some(UP), 0)
  {
    hide TrueFingerprint, SetConf, CurrentFingerprint, Observe;
    Sees(ALWAYS, BEFORE);
    SeesOne(BEFORE, WIFI);
    Slices(WIFI, WIFI);
    var fp := Fingerprint(None, [WIFI], [(WIFI, None)]);
    assert Targets(fp) == [WIFI];
    var h1, h2 := BEFORE.(clock := 3), UP.host.(clock := 7);
    assert Capture(ALWAYS, h1, WIFI, TUNNEL) == (Some(Saved(WIFI, PLAIN)), h1.(clock := 5));
    SetsBoth(ALWAYS, h1.(clock := 5), WIFI, TunnelConf(TUNNEL));
    assert h1.conf[WIFI := TunnelConf(TUNNEL)] == h2.conf;
    var none: seq<Saved> := [];
    assert none + [Saved(WIFI, PLAIN)] == [Saved(WIFI, PLAIN)];
    assert Promote(ALWAYS, h2, [], [Saved(WIFI, PLAIN)], TUNNEL) == (h2, [Saved(WIFI, PLAIN)], true);
    assert Promote(ALWAYS, h1, [WIFI], [], TUNNEL) == (h2, [Saved(WIFI, PLAIN)], true);
    Sees(ALWAYS, h2);
    SeesOne(h2, WIFI);
  }

  lemma MovedPlan()
    ensures Plan(TUNNEL, TrueFingerprint(MOVED.host), Names(MOVED.saved), [LAN]) == Actions([LAN], [WIFI], [], [LAN])
    ensures TrueFingerprint(MOVED.host) == Fingerprint(Some(LAN), [WIFI, LAN], [(WIFI, Some(TUNNEL)), (LAN, None)])
  {
    SeesTwo(MOVED.host, WIFI, LAN);
    hide TrueFingerprint;
    var fp := TrueFingerprint(MOVED.host);
    Slices(WIFI, WIFI);
    Slices(LAN, LAN);
    assert |WIFI| != |LAN|;
    assert Names(MOVED.saved) == [WIFI];
    KeepOne(LAN, svc => svc !in [WIFI]);
    KeepOne(WIFI, svc => svc !in [LAN] && svc in fp.services);
    KeepOne(WIFI, svc => svc !in [LAN] && svc !in fp.services);
    TrueObservedOf(MOVED.host, MOVED.host.services, LAN);
    KeepOne(LAN, svc => !ShowsTunnel(TUNNEL, fp, svc));
    assert ShowsTunnel(TUNNEL, fp, LAN) == false;
  }

  lemma KeepOne(s: string, p: string -> bool)
    ensures KeepIf([s], p) == if p(s) then [s] else []
  {
    Slices(s, s);
    assert KeepIf([], p) == [];
  }

  /** The release phase of the tick: the old service is restored. */
  lemma OldServiceRestored(h: Host)
    requires h == MOVED.host.(clock := 16)
    ensures RestoreListed(HALFWAY, h, [Saved(WIFI, PLAIN), Saved(LAN, PLAIN)], [WIFI])
            == (LEFT_OUT.host.(clock := 18), [Saved(LAN, PLAIN)], 1)
  {
    hide SetConf;
    var all := [Saved(WIFI, PLAIN), Saved(LAN, PLAIN)];
    assert FindSaved(all, WIFI) == Some(Saved(WIFI, PLAIN));
    assert |WIFI| != |LAN|;
    SetsBoth(HALFWAY, h, WIFI, PLAIN);
    assert h.conf[WIFI := PLAIN] == LEFT_OUT.host.conf;
    Slices(Saved(WIFI, PLAIN), Saved(LAN, PLAIN));
    Slices(WIFI, WIFI);
    assert Without([Saved(WIFI, PLAIN)], WIFI) == [];
    assert Without(all, WIFI) == [Saved(LAN, PLAIN)];
    var h1 := LEFT_OUT.host.(clock := 18);
    assert RestoreListed(HALFWAY, h1, [Saved(LAN, PLAIN)], []) == (h1, [Saved(LAN, PLAIN)], 0);
  }

  lemma ActIs(cmds: Commands, h: Host, saved: seq<Saved>, tunnel: seq<string>, fp: Fingerprint, targets: seq<string>,
              h1: Host, captured: seq<Saved>, h2: Host, saved2: seq<Saved>, n: nat, h3: Host, m: nat)
    requires var plan := Plan(tunnel, fp, Names(saved), targets);
             && CaptureAll(cmds, h, plan.capture, tunnel) == (h1, captured, [])
             && RestoreListed(cmds, h1, saved + captured, plan.restore) == (h2, saved2, n)
             && ApplyAll(cmds, h2, plan.apply, [], tunnel) == (h3, m) && plan.drop == []
    requires n + m > 0
    ensures Act(cmds, h, saved, tunnel, fp, targets) == State(Snapshot(cmds, h3, fp).1, saved2, Snapshot(cmds, h3, fp).0)
  {
    hide Plan, CaptureAll, RestoreListed, ApplyAll, Snapshot, Names;
  }

  /** The primary service changes; the old one is restored, the new one's
      resolvers cannot be set. */
  lemma NewServiceLeftOut()
    ensures Tick(HALFWAY, MOVED, TUNNEL, false) == LEFT_OUT
  {
    hide TrueFingerprint, RestoreListed, CurrentFingerprint, Observe, Plan, Names;
    assert WellListed(MOVED.host);
    Sees(HALFWAY, MOVED.host);
    MovedPlan();
    var fp := TrueFingerprint(MOVED.host);
    assert Targets(fp) == [LAN] && Acts(MOVED, fp, false);
    var h := MOVED.host.(clock := 14);
    Slices(LAN, LAN);
    assert Capture(HALFWAY, h, LAN, TUNNEL) == (Some(Saved(LAN, PLAIN)), h.(clock := 16));
    assert CaptureAll(HALFWAY, h.(clock := 16), [], TUNNEL) == (h.(clock := 16), [], []);
    var none: seq<Saved> := [];
    assert [Saved(LAN, PLAIN)] + none == [Saved(LAN, PLAIN)];
    assert CaptureAll(HALFWAY, h, [LAN], TUNNEL) == (h.(clock := 16), [Saved(LAN, PLAIN)], []);
    assert MOVED.saved + [Saved(LAN, PLAIN)] == [Saved(WIFI, PLAIN), Saved(LAN, PLAIN)];
    OldServiceRestored(h.(clock := 16));
    var h2 := LEFT_OUT.host.(clock := 18);
    assert SetConf(HALFWAY, h2, LAN, TunnelConf(TUNNEL)) == (h2.(clock := 19), false);
    assert ApplyAll(HALFWAY, h2, [LAN], [], TUNNEL) == (h2.(clock := 19), 0);
    assert WellListed(h2.(clock := 19));
    Sees(HALFWAY, h2.(clock := 19));
    SeesTwo(h2.(clock := 19), WIFI, LAN);
    assert Snapshot(HALFWAY, h2.(clock := 19), fp) == (LEFT_OUT.fp, LEFT_OUT.host);
    ActIs(HALFWAY, h, MOVED.saved, TUNNEL, fp, [LAN], h.(clock := 16), [Saved(LAN, PLAIN)],
          h2, [Saved(LAN, PLAIN)], 1, h2.(clock := 19), 0);
  }

  /** A reachable run: connected over one service, the user plugs in another that
      becomes primary, the tick restores the first and fails to set the second.
      The second is on record and stays without tunnel DNS over every later tick,
      although every command may work from now on. */
  lemma TargetLeftWithoutTunnel(later: seq<Commands>)
    requires AllReadsWork(later)
    ensures var steps := [PLUGGED, Reconcile(HALFWAY, false)];
            FairSteps(steps) && Setup(ALWAYS, BEFORE, TUNNEL).1 == Some(UP) &&
            var st := Ticks(DnsCustody.Run(World(UP, BEFORE.conf, {}), steps, TUNNEL).state, later, TUNNEL, false);
            WellListed(st.host) && Own(st.saved, LAN) && Wanted(st.host, false) == [LAN] && st.host.conf[LAN].servers == None
  {
    hide Tick, Setup, Ticks, TrueFingerprint;
    ConnectedOnWifi();
    var steps := [PLUGGED, Reconcile(HALFWAY, false)];
    var w0 := World(UP, BEFORE.conf, {});
    Slices(steps[0], steps[1]);
    Slices(steps[0], steps[0]);
    assert DnsCustody.Run(w0, [], TUNNEL) == w0;
    assert DnsCustody.Run(w0, steps[..1], TUNNEL).state == MOVED;
    NewServiceLeftOut();
    assert DnsCustody.Run(w0, steps, TUNNEL).state == LEFT_OUT;
    SeesTwo(LEFT_OUT.host, WIFI, LAN);
    assert Names(LEFT_OUT.saved) == [LAN];
    assert WellListed(LEFT_OUT.host);
    IdleForever(LEFT_OUT, later, TUNNEL, false);
    SeesTwo(Ticks(LEFT_OUT, later, TUNNEL, false).host, WIFI, LAN);
    assert Saved(LAN, PLAIN) in LEFT_OUT.saved;
  }
}
