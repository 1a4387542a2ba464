/** Where the DNS reconciler settles: an error-free tick reaches a fixed point,
    and a LAN collision gives everything back. `DnsRetry` says what happens when
    writes fail. */
module DnsConvergence {
  import opened Prelude
  import opened Dns
  import opened DnsCustody

  ghost predicate ReadsWork(cmds: Commands) {
    forall n: nat :: cmds.lists(n) && cmds.gets(n) && cmds.primaries(n)
  }

  ghost predicate SetsWork(cmds: Commands) { forall n: nat :: cmds.sets(n) }

  function TrueObserved(h: Host, services: seq<string>): seq<(string, Servers)>
    requires forall s :: s in services ==> s in h.conf
  {
    if services == [] then [] else [(services[0], h.conf[services[0]].servers)] + TrueObserved(h, services[1..])
  }

  /** What a snapshot whose reads all work sees. */
  function TrueFingerprint(h: Host): Fingerprint
    requires forall s :: s in h.services ==> s in h.conf
  {
    Fingerprint(h.primary, h.services, TrueObserved(h, h.services))
  }

  lemma {:induction false} ObserveIsTrue(cmds: Commands, h: Host, services: seq<string>)
    requires ReadsWork(cmds) && forall s :: s in services ==> s in h.conf
    ensures Observe(cmds, h, services).0 == TrueObserved(h, services)
    decreases |services|
  {
    if services != [] {
      ObserveIsTrue(cmds, Ticked(h), services[1..]);
      TrueObservedOnlyConf(Ticked(h), h, services[1..]);
    }
  }

  lemma {:induction false} TrueObservedOnlyConf(h: Host, h': Host, services: seq<string>)
    requires forall s :: s in services ==> s in h.conf && s in h'.conf && h.conf[s].servers == h'.conf[s].servers
    ensures TrueObserved(h, services) == TrueObserved(h', services)
    decreases |services|
  {
    if services != [] {
      TrueObservedOnlyConf(h, h', services[1..]);
    }
  }

  lemma {:induction false} TrueObservedOf(h: Host, services: seq<string>, svc: string)
    requires svc in services && forall s :: s in services ==> s in h.conf
    ensures ObservedOf(TrueObserved(h, services), svc) == h.conf[svc].servers
    decreases |services|
  {
    if services[0] != svc {
      TrueObservedOf(h, services[1..], svc);
    }
  }

  lemma SnapshotIsTrue(cmds: Commands, h: Host)
    requires ReadsWork(cmds) && WellListed(h) && h.services != []
    ensures CurrentFingerprint(cmds, h).0 == Some(TrueFingerprint(h))
  {
    ObserveIsTrue(cmds, Ticked(h), h.services);
    TrueObservedOnlyConf(Ticked(h), h, h.services);
  }

  // ---- the plan -----------------------------------------------------------------------

  /** The plan splits the owned and the targeted services without overlap:
      every owned service is kept, restored or dropped, every target is owned
      already or captured, and nothing is both written and given up. */
  lemma PlanSplits(tunnel: seq<string>, fp: Fingerprint, saved: seq<Saved>, targets: seq<string>, svc: string)
    ensures var plan := Plan(tunnel, fp, Names(saved), targets);
            && (Own(saved, svc) <==> (svc in targets && svc !in plan.capture) || svc in plan.restore || svc in plan.drop)
            && (svc in targets <==> svc in plan.capture || (Own(saved, svc) && svc !in plan.restore && svc !in plan.drop))
            && !(svc in plan.restore && svc in plan.drop)
            && !(svc in plan.capture + plan.apply && svc in plan.restore + plan.drop)
  {
    PlanMeans(tunnel, fp, saved, targets);
  }

  // ---- error-free phases -----------------------------------------------------------------

  lemma {:induction false} CaptureAllWorks(cmds: Commands, h: Host, list: seq<string>, tunnel: seq<string>)
    requires ReadsWork(cmds) && forall s :: s in list ==> s in h.conf
    ensures var (h', captured, failed) := CaptureAll(cmds, h, list, tunnel);
            failed == [] && SameSystem(h, h') && forall s :: Own(captured, s) <==> s in list
    decreases |list|
  {
    if list != [] {
      var (entry, h1) := Capture(cmds, h, list[0], tunnel);
      assert SameSystem(h, h1) && entry.Some? && entry.value.service == list[0];
      CaptureAllWorks(cmds, h1, list[1..], tunnel);
      var rest := CaptureAll(cmds, h1, list[1..], tunnel).1;
      var captured := [entry.value] + rest;
      forall s
        ensures Own(captured, s) <==> s in list
      {
        if s == list[0] { assert entry.value in captured; }
        if Own(rest, s) { var e :| e in rest && e.service == s; assert e in captured; }
      }
    }
  }

  lemma {:induction false} RestoreListedWorks(cmds: Commands, h: Host, saved: seq<Saved>, list: seq<string>)
    requires SetsWork(cmds) && forall s :: s in list ==> s in h.conf
    ensures var (h', saved', n) := RestoreListed(cmds, h, saved, list);
            && h'.conf.Keys == h.conf.Keys && h'.services == h.services && h'.primary == h.primary
            && (forall e :: e in saved' <==> e in saved && e.service !in list)
            && (list != [] && Own(saved, list[0]) ==> n > 0)
    decreases |list|
  {
    if list != [] {
      var svc := list[0];
      FindSavedFinds(saved, svc);
      WithoutKeepsRest(saved, svc);
      if FindSaved(saved, svc).None? {
        RestoreListedWorks(cmds, h, Without(saved, svc), list[1..]);
      } else {
        var entry := FindSaved(saved, svc).value;
        SetConfFrame(cmds, h, svc, entry.original);
        var (h1, ok) := Restore(cmds, h, entry);
        assert ok;
        RestoreListedWorks(cmds, h1, Without(saved, svc), list[1..]);
        assert RestoreListed(cmds, h, saved, list).2 == RestoreListed(cmds, h1, Without(saved, svc), list[1..]).2 + 1;
      }
    }
  }

  lemma {:induction false} ApplyAllWorks(cmds: Commands, h: Host, list: seq<string>, tunnel: seq<string>)
    requires SetsWork(cmds) && forall s :: s in list ==> s in h.conf
    ensures var (h', n) := ApplyAll(cmds, h, list, [], tunnel);
            && h'.conf.Keys == h.conf.Keys && h'.services == h.services && h'.primary == h.primary
            && (forall s :: s in h.conf ==> h'.conf[s] == if s in list then TunnelConf(tunnel) else h.conf[s])
            && n == |list|
    decreases |list|
  {
    if list != [] {
      var (h1, ok) := SetConf(cmds, h, list[0], TunnelConf(tunnel));
      SetConfFrame(cmds, h, list[0], TunnelConf(tunnel));
      ApplyAllWorks(cmds, h1, list[1..], tunnel);
    }
  }

  /** The record after an error-free release is exactly the targets. */
  lemma ReleaseOwnsTargets(cmds: Commands, h: Host, saved: seq<Saved>, tunnel: seq<string>, fp: Fingerprint, targets: seq<string>)
    requires ReadsWork(cmds) && SetsWork(cmds) && WellListed(h) && fp.services == h.services
    requires forall s :: s in targets ==> s in h.services
    ensures var plan := Plan(tunnel, fp, Names(saved), targets);
            var (h2, saved3, failed) := AfterRelease(cmds, h, saved, tunnel, plan);
            && failed == [] && (forall s :: Own(saved3, s) <==> s in targets)
            && h2.conf.Keys == h.conf.Keys && h2.services == h.services && h2.primary == h.primary
            && (forall s :: s in targets ==> h2.conf[s] == h.conf[s])
            && (plan.restore == [] ==> h2.conf == h.conf)
            && (plan.restore != [] ==> RestoreListed(cmds, CaptureAll(cmds, h, plan.capture, tunnel).0,
                                                     saved + CaptureAll(cmds, h, plan.capture, tunnel).1, plan.restore).2 > 0)
  {
    hide Plan, CaptureAll, ApplyAll, Names;
    var plan := Plan(tunnel, fp, Names(saved), targets);
    PlanMeans(tunnel, fp, saved, targets);
    CaptureAllWorks(cmds, h, plan.capture, tunnel);
    var (h1, captured, failed) := CaptureAll(cmds, h, plan.capture, tunnel);
    var all := saved + captured;
    assert forall e :: e in all <==> e in saved || e in captured;
    RestoreListedWorks(cmds, h1, all, plan.restore);
    RestoreListedTouchesListed(cmds, h1, all, plan.restore);
    var saved2 := RestoreListed(cmds, h1, all, plan.restore).1;
    DropListedDrops(saved2, plan.drop);
    var saved3 := DropListed(saved2, plan.drop);
    forall s | s in targets
      ensures Own(saved3, s)
    {
      assert Own(saved, s) || Own(captured, s);
      var e :| (e in saved || e in captured) && e.service == s;
      assert e in saved3;
    }
    if plan.restore != [] {
      assert plan.restore[0] in plan.restore;
      var e :| e in saved && e.service == plan.restore[0];
      assert e in all && Own(all, plan.restore[0]);
    }
  }

  lemma {:induction false} DropListedDrops(saved: seq<Saved>, list: seq<string>)
    ensures forall e :: e in DropListed(saved, list) <==> e in saved && e.service !in list
    decreases |list|
  {
    if list != [] {
      WithoutKeepsRest(saved, list[0]);
      DropListedDrops(Without(saved, list[0]), list[1..]);
    }
  }

  // ---- the fixed point ------------------------------------------------------------------------

  /** What a tick settles into: the record is exactly the targets, every target
      shows the tunnel's resolvers, and the stored fingerprint is the truth. */
  ghost predicate Settled(st: State, tunnel: seq<string>, collision: bool) {
    && WellListed(st.host) && st.host.services != []
    && (forall s :: Own(st.saved, s) <==> s in TickTargets(TrueFingerprint(st.host), collision))
    && (forall s :: s in TickTargets(TrueFingerprint(st.host), collision) ==>
          s in st.host.conf && st.host.conf[s].servers == Some(tunnel))
    && st.fp == TrueFingerprint(st.host)
  }

  /** Where the phases of a tick lead: the host, the record and the number of
      writes and restores that worked. */
  function Reached(cmds: Commands, h: Host, saved: seq<Saved>, tunnel: seq<string>, plan: Actions): (Host, seq<Saved>, nat) {
    var (h1, captured, failed) := CaptureAll(cmds, h, plan.capture, tunnel);
    var (h2, saved2, restored) := RestoreListed(cmds, h1, saved + captured, plan.restore);
    var (h3, applied) := ApplyAll(cmds, h2, plan.apply, failed, tunnel);
    (h3, DropListed(saved2, plan.drop), applied + restored)
  }

  lemma ActReaches(cmds: Commands, h: Host, saved: seq<Saved>, tunnel: seq<string>, fp: Fingerprint, targets: seq<string>)
    ensures var (h3, saved3, n) := Reached(cmds, h, saved, tunnel, Plan(tunnel, fp, Names(saved), targets));
            Act(cmds, h, saved, tunnel, fp, targets) ==
            if n > 0 then State(Snapshot(cmds, h3, fp).1, saved3, Snapshot(cmds, h3, fp).0) else State(h3, saved3, fp)
  {
    hide CaptureAll, RestoreListed, ApplyAll, DropListed, Plan, Names, Snapshot;
  }

  /** Asserting tunnel DNS where it does not show leaves every target showing it. */
  lemma ApplyReaches(cmds: Commands, h: Host, h2: Host, apply: seq<string>, targets: seq<string>, tunnel: seq<string>)
    requires SetsWork(cmds) && h2.conf.Keys == h.conf.Keys
    requires forall s :: s in targets ==> s in h.conf && h2.conf[s] == h.conf[s]
    requires forall s :: s in apply ==> s in targets
    requires forall s :: s in targets && s !in apply ==> h.conf[s].servers == Some(tunnel)
    ensures var (h3, n) := ApplyAll(cmds, h2, apply, [], tunnel);
            && h3.conf.Keys == h.conf.Keys && h3.services == h2.services && h3.primary == h2.primary && n == |apply|
            && (forall s :: s in targets ==> s in h3.conf && h3.conf[s].servers == Some(tunnel))
            && (n == 0 ==> h3.conf == h2.conf)
  {
    ApplyAllWorks(cmds, h2, apply, tunnel);
    hide ApplyAll;
    var h3 := ApplyAll(cmds, h2, apply, [], tunnel).0;
    if apply == [] {
      assert forall s :: s in h2.conf ==> h3.conf[s] == h2.conf[s];
    }
  }

  lemma UnappliedShow(h: Host, plan: Actions, tunnel: seq<string>, targets: seq<string>)
    requires WellListed(h) && (forall s :: s in targets ==> s in h.services)
    requires forall s :: s in plan.apply <==> s in targets && !ShowsTunnel(tunnel, TrueFingerprint(h), s)
    ensures forall s :: s in targets && s !in plan.apply ==> s in h.conf && h.conf[s].servers == Some(tunnel)
  {
    forall s | s in targets && s !in plan.apply
      ensures s in h.conf && h.conf[s].servers == Some(tunnel)
    {
      TrueObservedOf(h, h.services, s);
    }
  }

  /** The host and the record after an error-free tick: every target is owned
      and shows the tunnel, and if nothing was written nothing has changed. */
  lemma ReachedTargets(cmds: Commands, h: Host, saved: seq<Saved>, tunnel: seq<string>, collision: bool)
    requires ReadsWork(cmds) && SetsWork(cmds) && WellListed(h) && h.services != []
    ensures var fp := TrueFingerprint(h);
            var targets := TickTargets(fp, collision);
            var (h3, saved3, n) := Reached(cmds, h, saved, tunnel, Plan(tunnel, fp, Names(saved), targets));
            && h3.conf.Keys == h.conf.Keys && h3.services == h.services && h3.primary == h.primary
            && (forall s :: Own(saved3, s) <==> s in targets)
            && (forall s :: s in targets ==> s in h3.conf && h3.conf[s].servers == Some(tunnel))
            && (n == 0 ==> h3.conf == h.conf)
  {
    var fp := TrueFingerprint(h);
    var targets := TickTargets(fp, collision);
    assert forall s :: s in targets ==> s in h.services;
    hide Names, Plan, CaptureAll, RestoreListed, DropListed, ApplyAll, Own, TickTargets, ShowsTunnel, Observe;
    var plan := Plan(tunnel, fp, Names(saved), targets);
    PlanMeans(tunnel, fp, saved, targets);
    ReleaseOwnsTargets(cmds, h, saved, tunnel, fp, targets);
    UnappliedShow(h, plan, tunnel, targets);
    var (h2, saved3, failed) := AfterRelease(cmds, h, saved, tunnel, plan);
    ApplyReaches(cmds, h, h2, plan.apply, targets, tunnel);
  }

  /** A snapshot that works again reads the truth; without one the old
      fingerprint is still the truth of an unchanged host. */
  lemma SettlesWith(cmds: Commands, h: Host, h3: Host, saved3: seq<Saved>, n: nat, tunnel: seq<string>, collision: bool)
    requires ReadsWork(cmds) && WellListed(h) && h.services != []
    requires h3.conf.Keys == h.conf.Keys && h3.services == h.services && h3.primary == h.primary
    requires var targets := TickTargets(TrueFingerprint(h), collision);
             && (forall s :: Own(saved3, s) <==> s in targets)
             && (forall s :: s in targets ==> s in h3.conf && h3.conf[s].servers == Some(tunnel))
    requires n == 0 ==> h3.conf == h.conf
    ensures var fp := TrueFingerprint(h);
            var st := if n > 0 then State(Snapshot(cmds, h3, fp).1, saved3, Snapshot(cmds, h3, fp).0) else State(h3, saved3, fp);
            Settled(st, tunnel, collision)
  {
    hide Own, TrueObserved, Observe;
    if n > 0 {
      SnapshotIsTrue(cmds, h3);
      FingerprintReads(cmds, h3);
      var h4 := Snapshot(cmds, h3, TrueFingerprint(h)).1;
      TrueObservedOnlyConf(h3, h4, h3.services);
      assert Targets(TrueFingerprint(h4)) == Targets(TrueFingerprint(h));
    } else {
      TrueObservedOnlyConf(h, h3, h.services);
    }
  }

  lemma ActSettles(cmds: Commands, h: Host, saved: seq<Saved>, tunnel: seq<string>, collision: bool)
    requires ReadsWork(cmds) && SetsWork(cmds) && WellListed(h) && h.services != []
    ensures var fp := TrueFingerprint(h);
            Settled(Act(cmds, h, saved, tunnel, fp, TickTargets(fp, collision)), tunnel, collision)
  {
    var fp := TrueFingerprint(h);
    var targets := TickTargets(fp, collision);
    hide Settled, Act, Reached, Plan, Names, Snapshot, Targets, TickTargets, TrueObserved;
    ActReaches(cmds, h, saved, tunnel, fp, targets);
    ReachedTargets(cmds, h, saved, tunnel, collision);
    var (h3, saved3, n) := Reached(cmds, h, saved, tunnel, Plan(tunnel, fp, Names(saved), targets));
    SettlesWith(cmds, h, h3, saved3, n, tunnel, collision);
  }

  /** An error-free tick that acts settles. */
  lemma ErrorFreeTickSettles(cmds: Commands, st: State, tunnel: seq<string>, collision: bool)
    requires ReadsWork(cmds) && SetsWork(cmds) && WellListed(st.host) && st.host.services != [] && tunnel != []
    requires Acts(st, TrueFingerprint(st.host), collision)
    ensures Settled(Tick(cmds, st, tunnel, collision), tunnel, collision)
    ensures Tick(cmds, st, tunnel, collision).host.conf.Keys == st.host.conf.Keys
  {
    hide Plan, CaptureAll, RestoreListed, DropListed, ApplyAll, Names, Settled;
    SnapshotIsTrue(cmds, st.host);
    FingerprintReads(cmds, st.host);
    var h1 := CurrentFingerprint(cmds, st.host).1;
    TrueObservedOnlyConf(st.host, h1, st.host.services);
    ActSettles(cmds, h1, st.saved, tunnel, collision);
    var fp := TrueFingerprint(h1);
    var targets := TickTargets(fp, collision);
    ReleaseOwnsTargets(cmds, h1, st.saved, tunnel, fp, targets);
    var plan := Plan(tunnel, fp, Names(st.saved), targets);
    PlanMeans(tunnel, fp, st.saved, targets);
    var h2 := AfterRelease(cmds, h1, st.saved, tunnel, plan).0;
    ApplyAllWorks(cmds, h2, plan.apply, tunnel);
    FingerprintReads(cmds, ApplyAll(cmds, h2, plan.apply, [], tunnel).0);
  }

  /** Once settled, in a quiet environment, a tick whose reads work does nothing,
      whatever its writes would have done. */
  lemma SettledTickDoesNothing(cmds: Commands, st: State, tunnel: seq<string>, collision: bool)
    requires ReadsWork(cmds) && Settled(st, tunnel, collision)
    ensures var st' := Tick(cmds, st, tunnel, collision);
            SameSystem(st.host, st'.host) && st'.saved == st.saved && st'.fp == st.fp
  {
    hide TrueObserved, Act, Observe;
    SnapshotIsTrue(cmds, st.host);
    FingerprintReads(cmds, st.host);
    forall s ensures Own(st.saved, s) <==> s in Names(st.saved) { OwnIsNamed(st.saved, s); }
    if collision {
      NothingOwned(st.saved);
    }
  }

  lemma NothingOwned(saved: seq<Saved>)
    requires forall s :: !Own(saved, s)
    ensures saved == []
  {
    assert saved != [] ==> Own(saved, saved[0].service);
  }

  /** A LAN that shadows the tunnel's resolver makes the next error-free tick
      give every service back, whether or not the fingerprint moved. */
  lemma CollisionReleasesEverything(cmds: Commands, st: State, tunnel: seq<string>)
    requires ReadsWork(cmds) && SetsWork(cmds) && WellListed(st.host) && st.host.services != [] && tunnel != []
    ensures Tick(cmds, st, tunnel, true).saved == []
  {
    SnapshotIsTrue(cmds, st.host);
    FingerprintReads(cmds, st.host);
    if Acts(st, TrueFingerprint(st.host), true) {
      ErrorFreeTickSettles(cmds, st, tunnel, true);
      NothingOwned(Tick(cmds, st, tunnel, true).saved);
    } else {
      assert Names(st.saved) == [];
    }
  }
}
