/** How setup, a tick and a teardown answer to failing commands: a setup comes up
    exactly when every answer it needed was good, what a teardown reports counts
    the services it could not restore, and a half-done restore is tried again. */
module DnsFailures {
  import opened Prelude
  import opened Dns
  import opened DnsCustody
  import opened DnsConvergence
  import opened DnsRetry
  import opened DnsOutcomes

  // ---- setup ------------------------------------------------------------------------------

  /** The four commands that take over one service from `clock` on all work. */
  predicate Taken(cmds: Commands, clock: nat) {
    cmds.gets(clock) && cmds.gets(clock + 1) && cmds.sets(clock + 2) && cmds.sets(clock + 3)
  }

  predicate AllTaken(cmds: Commands, clock: nat, n: nat)
    decreases n
  {
    n == 0 || (Taken(cmds, clock) && AllTaken(cmds, clock + 4, n - 1))
  }

  /** One service: captured and set if all four commands work, otherwise the
      loop ends with a failure. */
  lemma PromoteFirst(cmds: Commands, h: Host, list: seq<string>, saved: seq<Saved>, tunnel: seq<string>)
    requires list != [] && list[0] in h.conf && h.conf[list[0]].servers != Some(tunnel)
    ensures var h2 := h.(conf := h.conf[list[0] := Tunnelled(tunnel)], clock := h.clock + 4);
            if Taken(cmds, h.clock)
            then Promote(cmds, h, list, saved, tunnel) == Promote(cmds, h2, list[1..], saved + [Original(h, list[0], tunnel)], tunnel)
            else !Promote(cmds, h, list, saved, tunnel).2
  {
    var m := h.conf[list[0] := h.conf[list[0]].(servers := Some(tunnel))];
    assert m[list[0] := m[list[0]].(search := None)] == h.conf[list[0] := Tunnelled(tunnel)];
  }

  lemma TakenOverMore(h: Host, h2: Host, h': Host, list: seq<string>, tunnel: seq<string>)
    requires list != [] && list[0] in h.conf && Distinct(list)
    requires h2 == h.(conf := h.conf[list[0] := Tunnelled(tunnel)], clock := h2.clock) && TakenOver(h2, h', list[1..], tunnel)
    ensures TakenOver(h, h', list, tunnel)
  {
    assert forall s :: s in list <==> s == list[0] || s in list[1..];
  }

  lemma {:induction false} PromoteComesUpIff(cmds: Commands, h: Host, list: seq<string>, saved: seq<Saved>, tunnel: seq<string>)
    requires Distinct(list) && forall s :: s in list ==> s in h.conf && h.conf[s].servers != Some(tunnel)
    ensures var (h', saved', ok) := Promote(cmds, h, list, saved, tunnel);
            && (ok <==> AllTaken(cmds, h.clock, |list|))
            && (ok ==> TakenOver(h, h', list, tunnel) && saved' == saved + Originals(h, list, tunnel))
    decreases |list|
  {
    hide Original, Taken, TakenOver;
    if list == [] {
      assert saved + Originals(h, list, tunnel) == saved;
      NothingTakenOver(h, tunnel);
    } else {
      hide Promote;
      var rest, h2 := list[1..], h.(conf := h.conf[list[0] := Tunnelled(tunnel)], clock := h.clock + 4);
      PromoteFirst(cmds, h, list, saved, tunnel);
      assert forall s :: s in rest ==> s in list && s != list[0];
      if Taken(cmds, h.clock) {
        PromoteComesUpIff(cmds, h2, rest, saved + [Original(h, list[0], tunnel)], tunnel);
        var (h', saved', ok) := Promote(cmds, h, list, saved, tunnel);
        if ok {
          TakenOverMore(h, h2, h', list, tunnel);
          OriginalsSame(h, h2, rest, tunnel);
          Regrouped(saved, Original(h, list[0], tunnel), Originals(h, rest, tunnel));
        }
      }
    }
  }

  lemma NothingTakenOver(h: Host, tunnel: seq<string>)
    ensures TakenOver(h, h, [], tunnel)
  {
  }

  /** The primary service as a setup learns it: a failed lookup is none. */
  function Seen(cmds: Commands, h: Host): Option<string> {
    if cmds.primaries(h.clock + 1 + |h.services|) then h.primary else None
  }

  lemma FingerprintSees(cmds: Commands, h: Host)
    requires h.services != []
    ensures var (fp, h') := CurrentFingerprint(cmds, h);
            && (if cmds.lists(h.clock) then fp.Some? else fp.None?)
            && h'.conf == h.conf
            && (fp.Some? ==> fp.value.primary == Seen(cmds, h) && fp.value.services == h.services
                             && h' == h.(clock := h.clock + 2 + |h.services|))
  {
    ObserveTicks(cmds, Ticked(h), h.services);
  }

  /** Of a host on which nothing shows the tunnel's resolvers yet, whatever
      commands fail: setup comes up exactly when the listing and all four commands
      of every service to take over work. It then has taken over the primary
      service, if it could be told and is listed, and else all of them. */
  lemma SetupComesUpIff(cmds: Commands, h: Host, tunnel: seq<string>)
    requires WellListed(h) && h.services != [] && tunnel != [] && forall s :: s in h.conf ==> h.conf[s].servers != Some(tunnel)
    ensures var (h', up, errors) := Setup(cmds, h, tunnel);
            var known := h.(primary := Seen(cmds, h));
            var n := if known.primary.Some? && known.primary.value in h.services then 1 else |h.services|;
            && (up.Some? <==> cmds.lists(h.clock) && AllTaken(cmds, h.clock + 2 + |h.services|, n))
            && (!cmds.lists(h.clock) ==> errors == 0 && h'.conf == h.conf)
            && (up.Some? ==>
                  && errors == 0 && h'.conf.Keys == h.conf.Keys
                  && (forall s :: s in h.conf ==> h'.conf[s] == if Carries(known, s) then Tunnelled(tunnel) else h.conf[s])
                  && (forall e :: e in up.value.saved <==>
                        Carries(known, e.service) && e.service in h.conf && e == Original(h, e.service, tunnel)))
  {
    hide Promote, Observe, CurrentFingerprint, AllTaken, Original, Originals, Distinct, TakenOver, TrueFingerprint, Carries;
    FingerprintSees(cmds, h);
    if cmds.lists(h.clock) {
      var (fp, h1) := CurrentFingerprint(cmds, h);
      var known := h.(primary := Seen(cmds, h));
      var list := Targets(fp.value);
      TargetsSeen(known, fp.value);
      PromoteComesUpIff(cmds, h1, list, [], tunnel);
      var (h2, saved, ok) := Promote(cmds, h1, list, [], tunnel);
      var n := if known.primary.Some? && known.primary.value in h.services then 1 else |h.services|;
      assert ok <==> AllTaken(cmds, h.clock + 2 + |h.services|, n);
      if ok {
        FingerprintReads(cmds, h2);
        Established(h, h1, h2, Setup(cmds, h, tunnel).0, saved, known, list, tunnel);
      }
    }
  }

  lemma TargetsSeen(known: Host, fp: Fingerprint)
    requires WellListed(known) && fp.primary == known.primary && fp.services == known.services
    ensures Distinct(Targets(fp)) && forall s :: s in Targets(fp) <==> Carries(known, s)
    ensures |Targets(fp)| == if known.primary.Some? && known.primary.value in known.services then 1 else |known.services|
  {
  }

  lemma Established(h: Host, h1: Host, h2: Host, h3: Host, saved: seq<Saved>, known: Host, list: seq<string>, tunnel: seq<string>)
    requires WellListed(h) && SameSystem(h, h1) && SameSystem(h2, h3) && known.services == h.services && known.conf == h.conf
    requires (forall s :: s in list <==> Carries(known, s)) && (forall s :: s in list ==> s in h.conf && s in h1.conf)
    requires TakenOver(h1, h2, list, tunnel) && saved == [] + Originals(h1, list, tunnel)
    ensures h3.conf.Keys == h.conf.Keys
    ensures forall s :: s in h.conf ==> h3.conf[s] == if Carries(known, s) then Tunnelled(tunnel) else h.conf[s]
    ensures forall e :: e in saved <==> Carries(known, e.service) && e.service in h.conf && e == Original(h, e.service, tunnel)
  {
    hide Carries, Original, Originals;
    var none: seq<Saved> := [];
    assert none + Originals(h1, list, tunnel) == Originals(h1, list, tunnel);
    OriginalsSame(h, h1, list, tunnel);
    OriginalsMembers(h, list, tunnel);
  }

  // ---- teardown ------------------------------------------------------------------------------

  lemma {:induction false} RestoresWithoutFailures(cmds: Commands, h: Host, list: seq<Saved>)
    requires SetsWork(cmds) && forall e :: e in list ==> e.service in h.conf
    ensures RestoreEach(cmds, h, list).1 == 0
    decreases |list|
  {
    if list != [] {
      hide SetsWork, SetConf;
      SetConfSets(cmds, h, list[0].service, list[0].original);
      RestoresWithoutFailures(cmds, Restore(cmds, h, list[0]).0, list[1..]);
    }
  }

  lemma {:induction false} RestoresAllFailing(cmds: Commands, h: Host, list: seq<Saved>)
    requires forall n: nat :: n >= h.clock ==> !cmds.sets(n)
    ensures var (h', errors) := RestoreEach(cmds, h, list); errors == |list| && h'.conf == h.conf
    decreases |list|
  {
    if list != [] { RestoresAllFailing(cmds, Restore(cmds, h, list[0]).0, list[1..]); }
  }

  lemma {:induction false} ReversedKeeps(saved: seq<Saved>)
    ensures |Reversed(saved)| == |saved| && forall e :: e in Reversed(saved) <==> e in saved
  {
    if saved != [] {
      ReversedKeeps(saved[..|saved| - 1]);
      assert saved == saved[..|saved| - 1] + [saved[|saved| - 1]];
    }
  }

  /** A teardown whose writes all work reports no error, and one whose writes all
      fail reports every service on record and has changed nothing. */
  lemma TeardownCounts(cmds: Commands, st: State)
    requires forall e :: e in st.saved ==> e.service in st.host.conf
    ensures (forall n: nat :: cmds.sets(n)) ==> Teardown(cmds, st).1 == 0
    ensures (forall n: nat :: !cmds.sets(n)) ==> Teardown(cmds, st).1 == |st.saved| && Teardown(cmds, st).0.conf == st.host.conf
  {
    hide RestoreEach;
    ReversedKeeps(st.saved);
    if forall n: nat :: cmds.sets(n) { RestoresWithoutFailures(cmds, st.host, Reversed(st.saved)); }
    if forall n: nat :: !cmds.sets(n) { RestoresAllFailing(cmds, st.host, Reversed(st.saved)); }
  }

  /** A setup that takes over its first service and then cannot write any more
      fails, leaves that service with the tunnel's resolvers, and reports both
      restores it could not do. */
  lemma FailedRollbackIsReported(cmds: Commands, h: Host, tunnel: seq<string>)
    requires WellListed(h) && |h.services| >= 2 && tunnel != [] && forall s :: s in h.conf ==> h.conf[s].servers != Some(tunnel)
    requires cmds.lists(h.clock) && (Seen(cmds, h) == None || Seen(cmds, h).value !in h.services) && forall n: nat :: cmds.gets(n)
    requires var c := h.clock + 2 + |h.services|; Taken(cmds, c) && forall n: nat :: n >= c + 4 ==> !cmds.sets(n)
    ensures var (h', up, errors) := Setup(cmds, h, tunnel);
            up == None && errors == 2 && h'.conf == h.conf[h.services[0] := Tunnelled(tunnel)]
  {
    hide Promote, Observe, CurrentFingerprint, RestoreEach, Taken;
    FingerprintSees(cmds, h);
    var (fp, h1) := CurrentFingerprint(cmds, h);
    var s, t := h.services[0], h.services[1];
    var first, second := Original(h1, s, tunnel), Original(h1, t, tunnel);
    PromoteFirst(cmds, h1, h.services, [], tunnel);
    var h2 := h1.(conf := h1.conf[s := Tunnelled(tunnel)], clock := h1.clock + 4);
    var none: seq<Saved> := [];
    assert none + [first] == [first];
    PromoteStops(cmds, h2, h.services[1..], [first], tunnel);
    var h3 := h2.(clock := h2.clock + 3);
    assert Promote(cmds, h1, h.services, [], tunnel) == (h3, [first] + [second], false);
    ReversedKeeps([first] + [second]);
    RestoresAllFailing(cmds, h3, Reversed([first] + [second]));
  }

  lemma PromoteStops(cmds: Commands, h: Host, list: seq<string>, saved: seq<Saved>, tunnel: seq<string>)
    requires list != [] && list[0] in h.conf && h.conf[list[0]].servers != Some(tunnel)
    requires cmds.gets(h.clock) && cmds.gets(h.clock + 1) && !cmds.sets(h.clock + 2)
    ensures Promote(cmds, h, list, saved, tunnel) == (h.(clock := h.clock + 3), saved + [Original(h, list[0], tunnel)], false)
  {
  }

  // ---- a half-done restore --------------------------------------------------------------------

  /** The resolvers of the released service are set, its search domains are not. */
  const HALF: Commands := Commands(n => true, n => true, n => true, n => n != 5)

  /** `t` is primary and on record with the tunnel's resolvers; `s` is to go back to
      what its user had. */
  function Leaving(s: string, t: string, original: Conf, tunnel: seq<string>): State {
    State(Host([s, t], map[s := Tunnelled(tunnel), t := Tunnelled(tunnel)], Some(t), 0),
          [Saved(s, original), Saved(t, PLAIN)], NO_FINGERPRINT)
  }

  /** A release whose second half fails keeps its service on record, and the next
      tick tries again. */
  lemma HalfRestoreIsRetried(s: string, t: string, original: Conf, tunnel: seq<string>)
    requires s != t && original.servers != Some(tunnel) && tunnel != []
    ensures var st := Leaving(s, t, original, tunnel);
            var st' := Tick(HALF, st, tunnel, false);
            && st'.saved == st.saved && st'.host.conf == st.host.conf[s := Conf(original.servers, None)]
            && st'.host.services == st.host.services && Acts(st', TrueFingerprint(st'.host), false)
  {
    hide TrueFingerprint, RestoreListed, CurrentFingerprint, Observe, Plan, Names;
    var st := Leaving(s, t, original, tunnel);
    Sees(HALF, st.host);
    SeesTwo(st.host, s, t);
    LeavingPlan(s, t, original, tunnel);
    var fp, h := TrueFingerprint(st.host), st.host.(clock := 4);
    HalfRestored(h, s, t, original, tunnel);
    var h' := st.host.(conf := st.host.conf[s := Conf(original.servers, None)], clock := 6);
    var none: seq<Saved> := [];
    assert st.saved + none == st.saved;
    assert Targets(fp) == [t];
    assert ApplyAll(HALF, h', [], [], tunnel) == (h', 0);
    SeesTwo(h', s, t);
  }

  lemma LeavingPlan(s: string, t: string, original: Conf, tunnel: seq<string>)
    requires s != t
    ensures var st := Leaving(s, t, original, tunnel);
            Plan(tunnel, TrueFingerprint(st.host), Names(st.saved), [t]) == Actions([], [s], [], [])
  {
    var st := Leaving(s, t, original, tunnel);
    SeesTwo(st.host, s, t);
    hide TrueFingerprint;
    var fp := TrueFingerprint(st.host);
    assert Names(st.saved) == [s, t];
    KeepOne(t, svc => svc !in [s, t]);
    KeepTwo(s, t, svc => svc !in [t] && svc in fp.services);
    KeepTwo(s, t, svc => svc !in [t] && svc !in fp.services);
    TrueObservedOf(st.host, st.host.services, t);
    KeepOne(t, svc => !ShowsTunnel(tunnel, fp, svc));
  }

  lemma KeepTwo(s: string, t: string, p: string -> bool)
    requires !p(t)
    ensures KeepIf([s, t], p) == if p(s) then [s] else []
  {
    Slices(s, t);
    KeepOne(s, p);
  }

  lemma HalfRestored(h: Host, s: string, t: string, original: Conf, tunnel: seq<string>)
    requires s != t && h == Leaving(s, t, original, tunnel).host.(clock := 4)
    ensures var saved := Leaving(s, t, original, tunnel).saved;
            RestoreListed(HALF, h, saved, [s])
            == (h.(conf := h.conf[s := Conf(original.servers, None)], clock := 6), saved, 0)
  {
    var saved := Leaving(s, t, original, tunnel).saved;
    assert FindSaved(saved, s) == Some(Saved(s, original));
    var h1 := h.(conf := h.conf[s := Conf(original.servers, None)], clock := 6);
    assert Restore(HALF, h, Saved(s, original)) == (h1, false);
    Slices(s, s);
    assert RestoreListed(HALF, h1, saved, []) == (h1, saved, 0);
  }
}
