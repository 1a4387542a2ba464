/** Custody of the user's DNS settings over whole runs: whatever fails on the
    way, a teardown whose restores succeed gives every service back what its
    user had set. */
module DnsCustody {
  import opened Prelude
  import opened Dns

  predicate Own(saved: seq<Saved>, svc: string) {
    exists e :: e in saved && e.service == svc
  }

  predicate DistinctNames(saved: seq<Saved>) {
    forall i, j :: 0 <= i < j < |saved| ==> saved[i].service != saved[j].service
  }

  lemma OwnIsNamed(saved: seq<Saved>, svc: string)
    ensures Own(saved, svc) <==> svc in Names(saved)
  {
    if Own(saved, svc) {
      var i :| 0 <= i < |saved| && saved[i].service == svc;
      assert Names(saved)[i] == svc;
    }
  }

  /** `user[s]` is what service `s` was configured with by anyone but the
      helper, as far as the helper could see: the environment moves it only
      while `s` is not owned, the helper never does. `left` are the services
      that vanished from the listing while owned. */
  ghost predicate Custody(conf: map<string, Conf>, saved: seq<Saved>, user: map<string, Conf>, left: set<string>, tunnel: seq<string>) {
    && DistinctNames(saved)
    && (forall e :: e in saved ==> e.original.servers != Some(tunnel))
    && (forall e :: e in saved && e.service !in left ==> e.service in conf)
    && (forall s :: s in conf && s !in left ==> s in user)
    && (forall s :: s in conf && s !in left && user[s].servers != Some(tunnel) && !Own(saved, s) ==> conf[s] == user[s])
    && (forall e :: e in saved && e.service in conf && e.service !in left && user[e.service].servers != Some(tunnel) ==>
          e.original == user[e.service])
  }

  ghost predicate WellListed(h: Host) {
    Distinct(h.services) && forall s :: s in h.services <==> s in h.conf
  }

  // ---- single steps ------------------------------------------------------------------

  lemma {:induction false} WithoutKeepsRest(saved: seq<Saved>, svc: string)
    ensures forall e :: e in Without(saved, svc) <==> e in saved && e.service != svc
    ensures DistinctNames(saved) ==> DistinctNames(Without(saved, svc))
  {
    if saved != [] {
      var front, last := saved[..|saved| - 1], saved[|saved| - 1];
      WithoutKeepsRest(front, svc);
      assert saved == front + [last];
      if DistinctNames(saved) {
        var kept := Without(front, svc);
        forall i | 0 <= i < |kept|
          ensures kept[i].service != last.service
        {
          assert kept[i] in front;
        }
      }
    }
  }

  lemma {:induction false} FindSavedFinds(saved: seq<Saved>, svc: string)
    ensures FindSaved(saved, svc).Some? <==> Own(saved, svc)
    ensures FindSaved(saved, svc).Some? ==> FindSaved(saved, svc).value in saved && FindSaved(saved, svc).value.service == svc
  {
    if saved != [] {
      FindSavedFinds(saved[1..], svc);
      assert forall e :: e in saved <==> e == saved[0] || e in saved[1..];
    }
  }

  /** Taking a service on record keeps custody. */
  lemma CaptureKeepsCustody(cmds: Commands, h: Host, svc: string, tunnel: seq<string>, saved: seq<Saved>,
                            user: map<string, Conf>, left: set<string>)
    requires Custody(h.conf, saved, user, left, tunnel) && !Own(saved, svc)
    ensures Capture(cmds, h, svc, tunnel).1.conf == h.conf
    ensures var entry := Capture(cmds, h, svc, tunnel).0;
            entry.Some? ==> entry.value.service == svc && Custody(h.conf, saved + [entry.value], user, left, tunnel)
  {
    var entry := Capture(cmds, h, svc, tunnel).0;
    if entry.Some? {
      var saved' := saved + [entry.value];
      assert forall e :: e in saved' <==> e in saved || e == entry.value;
      assert forall s :: Own(saved, s) ==> Own(saved', s);
    }
  }

  /** Writing to a service keeps custody as long as it is on record. */
  lemma WriteKeepsCustody(conf: map<string, Conf>, conf': map<string, Conf>, svc: string, saved: seq<Saved>,
                          user: map<string, Conf>, left: set<string>, tunnel: seq<string>)
    requires Custody(conf, saved, user, left, tunnel) && Own(saved, svc)
    requires conf'.Keys == conf.Keys && forall s :: s in conf && s != svc ==> conf'[s] == conf[s]
    ensures Custody(conf', saved, user, left, tunnel)
  {
  }

  lemma SetConfFrame(cmds: Commands, h: Host, svc: string, c: Conf)
    ensures var (h', ok) := SetConf(cmds, h, svc, c);
            && h'.conf.Keys == h.conf.Keys && h'.services == h.services && h'.primary == h.primary
            && (forall s :: s in h.conf && s != svc ==> h'.conf[s] == h.conf[s])
            && (ok ==> svc in h.conf && h'.conf[svc] == c)
  {
  }

  /** A restore that works releases the service; one that fails keeps it. */
  lemma ReleaseKeepsCustody(conf: map<string, Conf>, conf': map<string, Conf>, e: Saved, saved: seq<Saved>,
                            user: map<string, Conf>, left: set<string>, tunnel: seq<string>)
    requires Custody(conf, saved, user, left, tunnel) && e in saved
    requires conf'.Keys == conf.Keys && forall s :: s in conf && s != e.service ==> conf'[s] == conf[s]
    requires e.service in conf ==> conf'[e.service] == e.original
    ensures Custody(conf', Without(saved, e.service), user, left, tunnel)
  {
    WithoutKeepsRest(saved, e.service);
    var saved' := Without(saved, e.service);
    forall s | !Own(saved', s) && s != e.service
      ensures !Own(saved, s)
    {
      assert forall x :: x in saved && x.service == s ==> x in saved';
    }
  }

  // ---- the phases ----------------------------------------------------------------------

  lemma {:induction false} CaptureAllKeepsCustody(cmds: Commands, h: Host, list: seq<string>, tunnel: seq<string>, saved: seq<Saved>,
                                                  user: map<string, Conf>, left: set<string>)
    requires Custody(h.conf, saved, user, left, tunnel)
    requires Distinct(list) && forall s :: s in list ==> !Own(saved, s)
    ensures var (h', captured, failed) := CaptureAll(cmds, h, list, tunnel);
            && h'.conf == h.conf && h'.services == h.services && h'.primary == h.primary
            && Custody(h.conf, saved + captured, user, left, tunnel)
            && (forall s :: Own(captured, s) <==> s in list && s !in failed)
    decreases |list|
  {
    hide Custody;
    if list == [] {
      assert saved + [] == saved;
    } else {
      var (entry, h1) := Capture(cmds, h, list[0], tunnel);
      CaptureKeepsCustody(cmds, h, list[0], tunnel, saved, user, left);
      var saved1 := if entry.Some? then saved + [entry.value] else saved;
      assert forall e :: e in saved1 ==> e in saved || (entry.Some? && e == entry.value);
      assert forall s :: s in list[1..] ==> s in list && s != list[0];
      CaptureAllKeepsCustody(cmds, h1, list[1..], tunnel, saved1, user, left);
      var (h2, rest, failed) := CaptureAll(cmds, h1, list[1..], tunnel);
      if entry.Some? {
        assert saved + ([entry.value] + rest) == saved1 + rest;
        assert forall e :: e in [entry.value] + rest <==> e == entry.value || e in rest;
      }
      CaptureAllFailedInList(cmds, h1, list[1..], tunnel);
      assert forall s :: s in list <==> s == list[0] || s in list[1..];
      var captured := CaptureAll(cmds, h, list, tunnel).1;
      forall s
        ensures Own(captured, s) <==> s in list && s !in CaptureAll(cmds, h, list, tunnel).2
      {
        if entry.Some? && s == list[0] { assert entry.value in captured; }
        if Own(rest, s) { var e :| e in rest && e.service == s; assert e in captured; }
      }
    }
  }

  lemma {:induction false} CaptureAllFailedInList(cmds: Commands, h: Host, list: seq<string>, tunnel: seq<string>)
    ensures forall s :: s in CaptureAll(cmds, h, list, tunnel).2 ==> s in list
    decreases |list|
  {
    if list != [] {
      CaptureAllFailedInList(cmds, Capture(cmds, h, list[0], tunnel).1, list[1..], tunnel);
    }
  }

  lemma {:induction false} RestoreListedKeepsCustody(cmds: Commands, h: Host, saved: seq<Saved>, list: seq<string>,
                                                     user: map<string, Conf>, left: set<string>, tunnel: seq<string>)
    requires Custody(h.conf, saved, user, left, tunnel)
    ensures var (h', saved', _) := RestoreListed(cmds, h, saved, list);
            && Custody(h'.conf, saved', user, left, tunnel)
            && h'.conf.Keys == h.conf.Keys && h'.services == h.services && h'.primary == h.primary
            && (forall s :: s in h.conf && !Own(saved, s) ==> h'.conf[s] == h.conf[s])
            && (forall e :: e in saved && e.service !in list ==> e in saved')
            && (forall e :: e in saved' ==> e in saved)
    decreases |list|
  {
    if list != [] {
      var svc := list[0];
      FindSavedFinds(saved, svc);
      WithoutKeepsRest(saved, svc);
      var found := FindSaved(saved, svc);
      if found.None? {
        assert forall e :: e in saved ==> e.service != svc;
        assert forall s :: Own(Without(saved, svc), s) <==> Own(saved, s);
        RestoreListedKeepsCustody(cmds, h, Without(saved, svc), list[1..], user, left, tunnel);
      } else {
        var (h1, ok) := Restore(cmds, h, found.value);
        SetConfFrame(cmds, h, svc, found.value.original);
        if ok {
          ReleaseKeepsCustody(h.conf, h1.conf, found.value, saved, user, left, tunnel);
          RestoreListedKeepsCustody(cmds, h1, Without(saved, svc), list[1..], user, left, tunnel);
        } else {
          WriteKeepsCustody(h.conf, h1.conf, svc, saved, user, left, tunnel);
          RestoreListedKeepsCustody(cmds, h1, saved, list[1..], user, left, tunnel);
        }
      }
    }
  }

  lemma {:induction false} DropListedKeepsCustody(conf: map<string, Conf>, saved: seq<Saved>, list: seq<string>,
                                                  user: map<string, Conf>, left: set<string>, tunnel: seq<string>)
    requires Custody(conf, saved, user, left, tunnel)
    requires forall s :: s in list ==> s !in conf
    ensures Custody(conf, DropListed(saved, list), user, left, tunnel)
    ensures forall e :: e in DropListed(saved, list) <==> e in saved && e.service !in list
    decreases |list|
  {
    if list != [] {
      WithoutKeepsRest(saved, list[0]);
      var saved1 := Without(saved, list[0]);
      forall s | s in conf && !Own(saved1, s)
        ensures !Own(saved, s)
      {
        assert s != list[0];
        assert forall e :: e in saved && e.service == s ==> e in saved1;
      }
      assert Custody(conf, saved1, user, left, tunnel);
      DropListedKeepsCustody(conf, saved1, list[1..], user, left, tunnel);
    }
  }

  lemma {:induction false} ApplyAllKeepsCustody(cmds: Commands, h: Host, list: seq<string>, failed: seq<string>, tunnel: seq<string>,
                                                saved: seq<Saved>, user: map<string, Conf>, left: set<string>)
    requires Custody(h.conf, saved, user, left, tunnel)
    requires forall s :: s in list && s !in failed ==> Own(saved, s)
    ensures var (h', _) := ApplyAll(cmds, h, list, failed, tunnel);
            && Custody(h'.conf, saved, user, left, tunnel)
            && h'.conf.Keys == h.conf.Keys && h'.services == h.services && h'.primary == h.primary
            && (forall s :: s in h.conf && !Own(saved, s) ==> h'.conf[s] == h.conf[s])
    decreases |list|
  {
    if list != [] {
      if list[0] in failed {
        ApplyAllKeepsCustody(cmds, h, list[1..], failed, tunnel, saved, user, left);
      } else {
        var h1 := SetConf(cmds, h, list[0], TunnelConf(tunnel)).0;
        SetConfFrame(cmds, h, list[0], TunnelConf(tunnel));
        WriteKeepsCustody(h.conf, h1.conf, list[0], saved, user, left, tunnel);
        ApplyAllKeepsCustody(cmds, h1, list[1..], failed, tunnel, saved, user, left);
      }
    }
  }

  // ---- whole steps --------------------------------------------------------------------------

  predicate SameSystem(h: Host, h': Host) {
    h'.conf == h.conf && h'.services == h.services && h'.primary == h.primary
  }

  lemma {:induction false} ObserveReads(cmds: Commands, h: Host, services: seq<string>)
    ensures SameSystem(h, Observe(cmds, h, services).1)
    decreases |services|
  {
    if services != [] {
      ObserveReads(cmds, Ticked(h), services[1..]);
    }
  }

  lemma FingerprintReads(cmds: Commands, h: Host)
    ensures var (fp, h') := CurrentFingerprint(cmds, h);
            && SameSystem(h, h')
            && (fp.Some? ==> fp.value.services == h.services && h.services != [])
  {
    ObserveReads(cmds, Ticked(h), h.services);
  }

  lemma {:induction false} KeepIfDistinct(s: seq<string>, p: string -> bool)
    requires Distinct(s)
    ensures Distinct(KeepIf(s, p))
  {
    if s != [] {
      var front, last := s[..|s| - 1], s[|s| - 1];
      KeepIfDistinct(front, p);
      assert last !in KeepIf(front, p);
    }
  }

  lemma PlanMeans(tunnel: seq<string>, fp: Fingerprint, saved: seq<Saved>, targets: seq<string>)
    ensures var plan := Plan(tunnel, fp, Names(saved), targets);
            && (forall s :: s in plan.capture <==> s in targets && !Own(saved, s))
            && (forall s :: s in plan.restore <==> Own(saved, s) && s !in targets && s in fp.services)
            && (forall s :: s in plan.drop <==> Own(saved, s) && s !in targets && s !in fp.services)
            && (forall s :: s in plan.apply <==> s in targets && !ShowsTunnel(tunnel, fp, s))
            && (Distinct(targets) ==> Distinct(plan.capture))
  {
    forall s ensures Own(saved, s) <==> s in Names(saved) { OwnIsNamed(saved, s); }
    if Distinct(targets) {
      KeepIfDistinct(targets, svc => svc !in Names(saved));
    }
  }

  /** The record after phases (a) and (b), and the host those phases leave. */
  function AfterRelease(cmds: Commands, h: Host, saved: seq<Saved>, tunnel: seq<string>, plan: Actions): (Host, seq<Saved>, seq<string>) {
    var (h1, captured, failed) := CaptureAll(cmds, h, plan.capture, tunnel);
    var (h2, saved2, _) := RestoreListed(cmds, h1, saved + captured, plan.restore);
    (h2, DropListed(saved2, plan.drop), failed)
  }

  lemma ReleaseKeepsCustodyOfAll(cmds: Commands, h: Host, saved: seq<Saved>, tunnel: seq<string>, fp: Fingerprint, targets: seq<string>,
                                 user: map<string, Conf>, left: set<string>)
    requires Custody(h.conf, saved, user, left, tunnel) && WellListed(h)
    requires fp.services == h.services && Distinct(targets)
    ensures var plan := Plan(tunnel, fp, Names(saved), targets);
            var (h2, saved3, failed) := AfterRelease(cmds, h, saved, tunnel, plan);
            && Custody(h2.conf, saved3, user, left, tunnel)
            && h2.conf.Keys == h.conf.Keys && h2.services == h.services && h2.primary == h.primary
            && (forall s :: s in targets && s !in failed ==> Own(saved3, s))
            && (forall s :: s in h.conf && !Own(saved, s) ==> h2.conf[s] == h.conf[s])
  {
    var plan := Plan(tunnel, fp, Names(saved), targets);
    PlanMeans(tunnel, fp, saved, targets);
    CaptureAllKeepsCustody(cmds, h, plan.capture, tunnel, saved, user, left);
    var (h1, captured, failed) := CaptureAll(cmds, h, plan.capture, tunnel);
    var all := saved + captured;
    RestoreListedKeepsCustody(cmds, h1, all, plan.restore, user, left, tunnel);
    RestoreListedTouchesListed(cmds, h1, all, plan.restore);
    var (h2, saved2, restored) := RestoreListed(cmds, h1, all, plan.restore);
    DropListedKeepsCustody(h2.conf, saved2, plan.drop, user, left, tunnel);
    var saved3 := DropListed(saved2, plan.drop);
    forall s | s in targets && s !in failed
      ensures Own(saved3, s)
    {
      assert Own(saved, s) || Own(captured, s);
      var e :| (e in saved || e in captured) && e.service == s;
      assert e in all && e in saved2 && e in saved3;
    }
  }

  lemma {:induction false} RestoreListedTouchesListed(cmds: Commands, h: Host, saved: seq<Saved>, list: seq<string>)
    ensures var h' := RestoreListed(cmds, h, saved, list).0;
            h'.conf.Keys == h.conf.Keys && forall s :: s in h.conf && s !in list ==> h'.conf[s] == h.conf[s]
    decreases |list|
  {
    if list != [] {
      FindSavedFinds(saved, list[0]);
      match FindSaved(saved, list[0])
      case None => RestoreListedTouchesListed(cmds, h, Without(saved, list[0]), list[1..]);
      case Some(entry) =>
        SetConfFrame(cmds, h, list[0], entry.original);
        var (h1, ok) := Restore(cmds, h, entry);
        RestoreListedTouchesListed(cmds, h1, if ok then Without(saved, list[0]) else saved, list[1..]);
    }
  }

  /** Acting on a fingerprint keeps custody and writes to no service that is
      off the record both before and after. */
  lemma ActKeepsCustody(cmds: Commands, h: Host, saved: seq<Saved>, tunnel: seq<string>, fp: Fingerprint, targets: seq<string>,
                        user: map<string, Conf>, left: set<string>)
    requires Custody(h.conf, saved, user, left, tunnel) && WellListed(h)
    requires fp.services == h.services && Distinct(targets)
    ensures var st := Act(cmds, h, saved, tunnel, fp, targets);
            && Custody(st.host.conf, st.saved, user, left, tunnel) && WellListed(st.host)
            && st.host.conf.Keys == h.conf.Keys
            && (forall s :: s in h.conf && !Own(saved, s) && !Own(st.saved, s) ==> st.host.conf[s] == h.conf[s])
  {
    var plan := Plan(tunnel, fp, Names(saved), targets);
    PlanMeans(tunnel, fp, saved, targets);
    ReleaseKeepsCustodyOfAll(cmds, h, saved, tunnel, fp, targets, user, left);
    var (h2, saved3, failed) := AfterRelease(cmds, h, saved, tunnel, plan);
    ApplyAllKeepsCustody(cmds, h2, plan.apply, failed, tunnel, saved3, user, left);
    FingerprintReads(cmds, ApplyAll(cmds, h2, plan.apply, failed, tunnel).0);
  }

  lemma TickKeepsCustody(cmds: Commands, st: State, tunnel: seq<string>, collision: bool,
                         user: map<string, Conf>, left: set<string>)
    requires Custody(st.host.conf, st.saved, user, left, tunnel) && WellListed(st.host)
    ensures var st' := Tick(cmds, st, tunnel, collision);
            && Custody(st'.host.conf, st'.saved, user, left, tunnel) && WellListed(st'.host)
            && st'.host.conf.Keys == st.host.conf.Keys
            && (forall s :: s in st.host.conf && !Own(st.saved, s) && !Own(st'.saved, s) ==>
                  st'.host.conf[s] == st.host.conf[s])
  {
    FingerprintReads(cmds, st.host);
    var (fp, h1) := CurrentFingerprint(cmds, st.host);
    var st' := Tick(cmds, st, tunnel, collision);
    if tunnel == [] {
      assert st' == st;
    } else if fp.None? || !Acts(st, fp.value, collision) {
      assert st' == st.(host := h1);
    } else {
      var targets := TickTargets(fp.value, collision);
      assert Distinct(targets);
      assert st' == Act(cmds, h1, st.saved, tunnel, fp.value, targets);
      ActKeepsCustody(cmds, h1, st.saved, tunnel, fp.value, targets, user, left);
    }
  }

  /** Setup's loop keeps custody however far it gets. */
  lemma {:induction false} PromoteKeepsCustody(cmds: Commands, h: Host, list: seq<string>, saved: seq<Saved>, tunnel: seq<string>,
                                               user: map<string, Conf>, left: set<string>)
    requires Custody(h.conf, saved, user, left, tunnel)
    requires Distinct(list) && forall s :: s in list ==> !Own(saved, s)
    ensures var (h', saved', _) := Promote(cmds, h, list, saved, tunnel);
            && Custody(h'.conf, saved', user, left, tunnel)
            && h'.conf.Keys == h.conf.Keys && h'.services == h.services && h'.primary == h.primary
    decreases |list|
  {
    if list != [] {
      var (entry, h1) := Capture(cmds, h, list[0], tunnel);
      CaptureKeepsCustody(cmds, h, list[0], tunnel, saved, user, left);
      assert h1.services == h.services && h1.primary == h.primary;
      if entry.Some? {
        var saved1 := saved + [entry.value];
        assert entry.value in saved1;
        var (h2, ok) := SetConf(cmds, h1, list[0], TunnelConf(tunnel));
        SetConfFrame(cmds, h1, list[0], TunnelConf(tunnel));
        WriteKeepsCustody(h1.conf, h2.conf, list[0], saved1, user, left, tunnel);
        if ok {
          assert forall e :: e in saved1 ==> e in saved || e == entry.value;
          assert forall s :: s in list[1..] ==> s in list && s != list[0];
          PromoteKeepsCustody(cmds, h2, list[1..], saved1, tunnel, user, left);
        }
      }
    }
  }

  // ---- giving everything back -----------------------------------------------------------------

  lemma {:induction false} ReversedMembers(saved: seq<Saved>)
    ensures forall e :: e in Reversed(saved) <==> e in saved
    ensures DistinctNames(saved) ==> DistinctNames(Reversed(saved))
  {
    if saved != [] {
      var front, last := saved[..|saved| - 1], saved[|saved| - 1];
      ReversedMembers(front);
      assert saved == front + [last];
      if DistinctNames(saved) {
        var r := Reversed(front);
        forall i | 0 <= i < |r|
          ensures r[i].service != last.service
        {
          assert r[i] in front;
        }
      }
    }
  }

  /** Restoring without an error puts every original back and touches nothing else. */
  lemma {:induction false} RestoreEachRestores(cmds: Commands, h: Host, list: seq<Saved>)
    requires DistinctNames(list)
    ensures var (h', errors) := RestoreEach(cmds, h, list);
            && h'.conf.Keys == h.conf.Keys && h'.services == h.services
            && (forall s :: s in h.conf && !Own(list, s) ==> h'.conf[s] == h.conf[s])
            && (errors == 0 ==> forall e :: e in list ==> e.service in h.conf && h'.conf[e.service] == e.original)
    decreases |list|
  {
    if list != [] {
      var (h1, ok) := Restore(cmds, h, list[0]);
      SetConfFrame(cmds, h, list[0].service, list[0].original);
      RestoreEachRestores(cmds, h1, list[1..]);
      assert forall e :: e in list <==> e == list[0] || e in list[1..];
      assert !Own(list[1..], list[0].service);
      assert forall s :: !Own(list, s) ==> !Own(list[1..], s) && s != list[0].service;
    }
  }

  /** What the user gets back. */
  ghost predicate GivenBack(conf: map<string, Conf>, user: map<string, Conf>, left: set<string>, tunnel: seq<string>) {
    forall s :: s in conf && s !in left ==>
      s in user && (user[s].servers != Some(tunnel) ==> conf[s] == user[s])
  }

  lemma RestoringGivesBack(cmds: Commands, h: Host, saved: seq<Saved>, user: map<string, Conf>, left: set<string>, tunnel: seq<string>)
    requires Custody(h.conf, saved, user, left, tunnel)
    requires RestoreEach(cmds, h, Reversed(saved)).1 == 0
    ensures GivenBack(RestoreEach(cmds, h, Reversed(saved)).0.conf, user, left, tunnel)
  {
    ReversedMembers(saved);
    RestoreEachRestores(cmds, h, Reversed(saved));
    assert forall s :: Own(Reversed(saved), s) <==> Own(saved, s);
  }

  lemma SetupKeepsCustody(cmds: Commands, h: Host, tunnel: seq<string>)
    requires WellListed(h)
    ensures var (h', st, errors) := Setup(cmds, h, tunnel);
            && WellListed(h') && h'.conf.Keys == h.conf.Keys
            && (st.Some? ==> st.value.host == h' && Custody(h'.conf, st.value.saved, h.conf, {}, tunnel))
            && (st.None? && errors == 0 ==> GivenBack(h'.conf, h.conf, {}, tunnel))
  {
    if tunnel != [] {
      FingerprintReads(cmds, h);
      var (fp, h1) := CurrentFingerprint(cmds, h);
      if fp.Some? {
        PromoteKeepsCustody(cmds, h1, Targets(fp.value), [], tunnel, h.conf, {});
        var (h2, saved, ok) := Promote(cmds, h1, Targets(fp.value), [], tunnel);
        if ok {
          FingerprintReads(cmds, h2);
        } else {
          ReversedMembers(saved);
          RestoreEachRestores(cmds, h2, Reversed(saved));
          if RestoreEach(cmds, h2, Reversed(saved)).1 == 0 {
            RestoringGivesBack(cmds, h2, saved, h.conf, {}, tunnel);
          }
        }
      }
    }
  }

  // ---- runs -------------------------------------------------------------------------------------

  datatype World = World(state: State, user: map<string, Conf>, left: set<string>)

  /** Between ticks the environment replaces the listing, every configuration
      and the primary service; a tick runs commands, each of which may fail. */
  datatype Step = Environment(services: seq<string>, conf: map<string, Conf>, primary: Option<string>)
                | Reconcile(cmds: Commands, collision: bool)

  function EnvUser(w: World, conf: map<string, Conf>): map<string, Conf> {
    map s | s in conf ::
      if s in w.user && (s in Names(w.state.saved) || (s in w.state.host.conf && w.state.host.conf[s] == conf[s]))
      then w.user[s] else conf[s]
  }

  function Next(w: World, step: Step, tunnel: seq<string>): World {
    match step
    case Environment(services, conf, primary) =>
      World(w.state.(host := Host(services, conf, primary, w.state.host.clock)),
            EnvUser(w, conf),
            w.left + set s | s in Names(w.state.saved) && s !in conf)
    case Reconcile(cmds, collision) => w.(state := Tick(cmds, w.state, tunnel, collision))
  }

  function Run(w: World, steps: seq<Step>, tunnel: seq<string>): World {
    if steps == [] then w
    else Next(Run(w, steps[..|steps| - 1], tunnel), steps[|steps| - 1], tunnel)
  }

  /** The listing the environment shows is duplicate-free and lists exactly the
      configured services. */
  ghost predicate FairSteps(steps: seq<Step>) {
    forall i :: 0 <= i < |steps| && steps[i].Environment? ==>
      WellListed(Host(steps[i].services, steps[i].conf, None, 0))
  }

  ghost predicate InCustody(w: World, tunnel: seq<string>) {
    Custody(w.state.host.conf, w.state.saved, w.user, w.left, tunnel) && WellListed(w.state.host)
  }

  lemma EnvironmentKeepsCustody(w: World, step: Step, tunnel: seq<string>)
    requires InCustody(w, tunnel) && step.Environment?
    requires WellListed(Host(step.services, step.conf, None, 0))
    ensures InCustody(Next(w, step, tunnel), tunnel)
  {
    forall s ensures Own(w.state.saved, s) <==> s in Names(w.state.saved) { OwnIsNamed(w.state.saved, s); }
    var w' := Next(w, step, tunnel);
    forall e | e in w.state.saved && e.service !in w'.left
      ensures e.service in step.conf && e.service in w.user && w'.user[e.service] == w.user[e.service]
    {
      assert Own(w.state.saved, e.service);
    }
  }

  lemma {:induction false} CustodyAlongRun(w: World, steps: seq<Step>, tunnel: seq<string>)
    requires InCustody(w, tunnel) && FairSteps(steps)
    ensures InCustody(Run(w, steps, tunnel), tunnel)
  {
    if steps != [] {
      var front, last := steps[..|steps| - 1], steps[|steps| - 1];
      CustodyAlongRun(w, front, tunnel);
      var w1 := Run(w, front, tunnel);
      match last
      case Environment(_, _, _) => EnvironmentKeepsCustody(w1, last, tunnel);
      case Reconcile(cmds, collision) => TickKeepsCustody(cmds, w1.state, tunnel, collision, w1.user, w1.left);
    }
  }

  /** DNS custody over whole runs. After any run from a successful setup, with
      arbitrary failures, the record is duplicate-free and never holds the
      tunnel's own list as an original; and a teardown that reports no error
      gives every service that never left the listing while owned exactly the
      resolvers and search domains its user had set, unless those resolvers
      were the tunnel's own. */
  lemma DnsCustodyOverRuns(cmds0: Commands, h: Host, tunnel: seq<string>, steps: seq<Step>, cmds: Commands)
    requires WellListed(h) && FairSteps(steps) && Setup(cmds0, h, tunnel).1.Some?
    ensures var w := Run(World(Setup(cmds0, h, tunnel).1.value, h.conf, {}), steps, tunnel);
            && DistinctNames(w.state.saved)
            && (forall e :: e in w.state.saved ==> e.original.servers != Some(tunnel))
            && (Teardown(cmds, w.state).1 == 0 ==>
                  GivenBack(Teardown(cmds, w.state).0.conf, w.user, w.left, tunnel))
  {
    SetupKeepsCustody(cmds0, h, tunnel);
    var w0 := World(Setup(cmds0, h, tunnel).1.value, h.conf, {});
    CustodyAlongRun(w0, steps, tunnel);
    var w := Run(w0, steps, tunnel);
    if Teardown(cmds, w.state).1 == 0 {
      RestoringGivesBack(cmds, w.state.host, w.state.saved, w.user, w.left, tunnel);
    }
  }

  // ---- every tunnel write hits a service with a saved original ------------------------------------------

  /** The services to which the apply loop writes the tunnel's resolvers. */
  function AppliedTo(list: seq<string>, failed: seq<string>): seq<string>
    decreases |list|
  {
    if list == [] then []
    else if list[0] in failed then AppliedTo(list[1..], failed)
    else [list[0]] + AppliedTo(list[1..], failed)
  }

  /** The services to which a tick writes them. */
  function TunnelWrites(cmds: Commands, st: State, tunnel: seq<string>, collision: bool): seq<string> {
    var (fp, h1) := CurrentFingerprint(cmds, st.host);
    if tunnel == [] || fp.None? || !Acts(st, fp.value, collision) then []
    else
      var plan := Plan(tunnel, fp.value, Names(st.saved), TickTargets(fp.value, collision));
      AppliedTo(plan.apply, CaptureAll(cmds, h1, plan.capture, tunnel).2)
  }

  lemma {:induction false} AppliedToMeans(list: seq<string>, failed: seq<string>)
    ensures forall s :: s in AppliedTo(list, failed) <==> s in list && s !in failed
    decreases |list|
  {
    if list != [] {
      AppliedToMeans(list[1..], failed);
      assert forall s :: s in list <==> s == list[0] || s in list[1..];
    }
  }

  /** The apply loop changes no service but those it writes to. */
  lemma {:induction false} ApplyAllTouches(cmds: Commands, h: Host, list: seq<string>, failed: seq<string>, tunnel: seq<string>)
    ensures var h' := ApplyAll(cmds, h, list, failed, tunnel).0;
            h'.conf.Keys == h.conf.Keys && forall s :: s in h.conf && s !in AppliedTo(list, failed) ==> h'.conf[s] == h.conf[s]
    decreases |list|
  {
    if list != [] {
      if list[0] in failed {
        ApplyAllTouches(cmds, h, list[1..], failed, tunnel);
      } else {
        SetConfFrame(cmds, h, list[0], TunnelConf(tunnel));
        ApplyAllTouches(cmds, SetConf(cmds, h, list[0], TunnelConf(tunnel)).0, list[1..], failed, tunnel);
      }
    }
  }

  /** Giving back never makes a service show the tunnel's resolvers. */
  lemma {:induction false} RestoringShowsNoTunnel(cmds: Commands, h: Host, saved: seq<Saved>, list: seq<string>, tunnel: seq<string>)
    requires forall e :: e in saved ==> e.original.servers != Some(tunnel)
    ensures var h' := RestoreListed(cmds, h, saved, list).0;
            && h'.conf.Keys == h.conf.Keys
            && forall s :: s in h.conf && h'.conf[s].servers == Some(tunnel) ==> h.conf[s].servers == Some(tunnel)
    decreases |list|
  {
    if list != [] {
      FindSavedFinds(saved, list[0]);
      WithoutKeepsRest(saved, list[0]);
      match FindSaved(saved, list[0])
      case None => RestoringShowsNoTunnel(cmds, h, Without(saved, list[0]), list[1..], tunnel);
      case Some(entry) =>
        var (h1, ok) := Restore(cmds, h, entry);
        RestoringShowsNoTunnel(cmds, h1, if ok then Without(saved, list[0]) else saved, list[1..], tunnel);
    }
  }

  /** A service on record, with an original that is not the tunnel's own list. */
  ghost predicate Backed(saved: seq<Saved>, tunnel: seq<string>, svc: string) {
    exists e :: e in saved && e.service == svc && e.original.servers != Some(tunnel)
  }

  lemma TickWritesAreBacked(cmds: Commands, st: State, tunnel: seq<string>, collision: bool,
                            user: map<string, Conf>, left: set<string>)
    requires Custody(st.host.conf, st.saved, user, left, tunnel) && WellListed(st.host)
    ensures var st' := Tick(cmds, st, tunnel, collision);
            var writes := TunnelWrites(cmds, st, tunnel, collision);
            && (forall s :: s in writes ==> Backed(st'.saved, tunnel, s))
            && (forall s :: s in st.host.conf && s in st'.host.conf && s !in writes && st'.host.conf[s].servers == Some(tunnel) ==>
                  st.host.conf[s].servers == Some(tunnel))
  {
    hide Plan, CaptureAll, RestoreListed, DropListed, ApplyAll, Names, Observe, AppliedTo, Act;
    FingerprintReads(cmds, st.host);
    var (fp, h1) := CurrentFingerprint(cmds, st.host);
    assert fp.Some? ==> Distinct(TickTargets(fp.value, collision));
    if tunnel != [] && fp.Some? && Acts(st, fp.value, collision) {
      ActWritesAreBacked(cmds, h1, st.saved, tunnel, fp.value, TickTargets(fp.value, collision), user, left);
    }
  }

  lemma ActWritesAreBacked(cmds: Commands, h: Host, saved: seq<Saved>, tunnel: seq<string>, fp: Fingerprint, targets: seq<string>,
                           user: map<string, Conf>, left: set<string>)
    requires Custody(h.conf, saved, user, left, tunnel) && WellListed(h)
    requires fp.services == h.services && Distinct(targets)
    ensures var plan := Plan(tunnel, fp, Names(saved), targets);
            var writes := AppliedTo(plan.apply, CaptureAll(cmds, h, plan.capture, tunnel).2);
            var st := Act(cmds, h, saved, tunnel, fp, targets);
            && (forall s :: s in writes ==> Backed(st.saved, tunnel, s))
            && (forall s :: s in h.conf && s in st.host.conf && s !in writes && st.host.conf[s].servers == Some(tunnel) ==>
                  h.conf[s].servers == Some(tunnel))
  {
    hide Plan, CaptureAll, RestoreListed, DropListed, ApplyAll, Names, Distinct, AppliedTo, CurrentFingerprint;
    var plan := Plan(tunnel, fp, Names(saved), targets);
    PlanMeans(tunnel, fp, saved, targets);
    CaptureAllKeepsCustody(cmds, h, plan.capture, tunnel, saved, user, left);
    ReleaseKeepsCustodyOfAll(cmds, h, saved, tunnel, fp, targets, user, left);
    var (h1, captured, failed) := CaptureAll(cmds, h, plan.capture, tunnel);
    var (h2, saved3, _) := AfterRelease(cmds, h, saved, tunnel, plan);
    RestoringShowsNoTunnel(cmds, h1, saved + captured, plan.restore, tunnel);
    AppliedToMeans(plan.apply, failed);
    ApplyAllTouches(cmds, h2, plan.apply, failed, tunnel);
    FingerprintReads(cmds, ApplyAll(cmds, h2, plan.apply, failed, tunnel).0);
  }

  /** No tunnel write ever hits a service without a saved original: after a
      setup and any run, whatever has failed, each service the next tick writes
      the tunnel's resolvers to is on record when it is written to, with an
      original that is not the tunnel's list; and no other service comes to show
      them. */
  lemma NoUnsavedWriteOverRuns(cmds0: Commands, h: Host, tunnel: seq<string>, steps: seq<Step>, cmds: Commands, collision: bool)
    requires WellListed(h) && FairSteps(steps) && Setup(cmds0, h, tunnel).1.Some?
    ensures var st := Run(World(Setup(cmds0, h, tunnel).1.value, h.conf, {}), steps, tunnel).state;
            var st' := Tick(cmds, st, tunnel, collision);
            var writes := TunnelWrites(cmds, st, tunnel, collision);
            && (forall s :: s in writes ==> Backed(st'.saved, tunnel, s))
            && (forall s :: s in st.host.conf && s in st'.host.conf && s !in writes && st'.host.conf[s].servers == Some(tunnel) ==>
                  st.host.conf[s].servers == Some(tunnel))
  {
    hide Setup, Tick, TunnelWrites, Backed, Run;
    SetupKeepsCustody(cmds0, h, tunnel);
    var w0 := World(Setup(cmds0, h, tunnel).1.value, h.conf, {});
    CustodyAlongRun(w0, steps, tunnel);
    var w := Run(w0, steps, tunnel);
    TickWritesAreBacked(cmds, w.state, tunnel, collision, w.user, w.left);
  }
}
