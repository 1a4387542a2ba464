/** What the DNS steps achieve when nothing fails, in terms of the host alone:
    which services are taken over, what each shows afterwards, and what is saved. */
module DnsOutcomes {
  import opened Prelude
  import opened Dns
  import opened DnsCustody
  import opened DnsConvergence
  import opened DnsRetry

  /** The services that should carry tunnel DNS: the primary one if it is known
      and listed, and every listed one otherwise. */
  predicate Carries(h: Host, svc: string) {
    svc in h.services && (h.primary == None || h.primary.value !in h.services || svc == h.primary.value)
  }

  /** The configuration of a service under tunnel DNS: the tunnel's resolvers and
      no search domains. */
  function Tunnelled(tunnel: seq<string>): Conf { Conf(Some(tunnel), None) }

  /** What is saved of a service that is taken over. */
  function Original(h: Host, svc: string, tunnel: seq<string>): Saved
    requires svc in h.conf
  {
    Saved(svc, if h.conf[svc].servers == Some(tunnel) then Conf(None, None) else h.conf[svc])
  }

  lemma TargetsCarry(h: Host)
    requires WellListed(h)
    ensures forall svc :: svc in Wanted(h, false) <==> Carries(h, svc)
    ensures Wanted(h, true) == [] && Distinct(Wanted(h, false))
  {
  }

  // ---- setup ---------------------------------------------------------------------------------

  lemma CaptureSaves(cmds: Commands, h: Host, svc: string, tunnel: seq<string>)
    requires ReadsWork(cmds) && svc in h.conf
    ensures var (entry, h') := Capture(cmds, h, svc, tunnel); entry == Some(Original(h, svc, tunnel)) && SameSystem(h, h')
  {
  }

  lemma SetConfSets(cmds: Commands, h: Host, svc: string, c: Conf)
    requires SetsWork(cmds) && svc in h.conf
    ensures var (h', ok) := SetConf(cmds, h, svc, c);
            ok && h'.services == h.services && h'.primary == h.primary && h'.conf == h.conf[svc := c]
  {
    var m := h.conf[svc := h.conf[svc].(servers := c.servers)];
    assert m[svc := m[svc].(search := c.search)] == h.conf[svc := c];
  }

  /** The services of `list` taken over, the rest of `h` as it was. */
  ghost predicate TakenOver(h: Host, h': Host, list: seq<string>, tunnel: seq<string>) {
    && h'.services == h.services && h'.primary == h.primary && h'.conf.Keys == h.conf.Keys
    && (forall s :: s in h.conf ==> h'.conf[s] == if s in list then Tunnelled(tunnel) else h.conf[s])
  }

  function Originals(h: Host, list: seq<string>, tunnel: seq<string>): (r: seq<Saved>)
    requires forall s :: s in list ==> s in h.conf
    ensures |r| == |list| && forall i :: 0 <= i < |list| ==> r[i] == Original(h, list[i], tunnel)
  {
    if list == [] then [] else [Original(h, list[0], tunnel)] + Originals(h, list[1..], tunnel)
  }

  /** What is saved of a list depends on its services only. */
  lemma {:induction false} OriginalsSame(h: Host, h': Host, list: seq<string>, tunnel: seq<string>)
    requires forall s :: s in list ==> s in h.conf && s in h'.conf && h.conf[s] == h'.conf[s]
    ensures Originals(h, list, tunnel) == Originals(h', list, tunnel)
    decreases |list|
  {
    if list != [] {
      assert list[0] in list;
      OriginalsSame(h, h', list[1..], tunnel);
    }
  }

  lemma {:induction false} OriginalsMembers(h: Host, list: seq<string>, tunnel: seq<string>)
    requires forall s :: s in list ==> s in h.conf
    ensures forall e :: e in Originals(h, list, tunnel) <==> e.service in list && e == Original(h, e.service, tunnel)
    decreases |list|
  {
    if list != [] {
      assert forall s :: s in list <==> s == list[0] || s in list[1..];
      OriginalsMembers(h, list[1..], tunnel);
    }
  }

  lemma PromoteOne(cmds: Commands, h: Host, list: seq<string>, saved: seq<Saved>, tunnel: seq<string>) returns (h2: Host)
    requires ReadsWork(cmds) && SetsWork(cmds) && list != [] && list[0] in h.conf
    ensures Promote(cmds, h, list, saved, tunnel) == Promote(cmds, h2, list[1..], saved + [Original(h, list[0], tunnel)], tunnel)
    ensures TakenOver(h, h2, [list[0]], tunnel)
  {
    hide ReadsWork, SetsWork, Capture, SetConf;
    CaptureSaves(cmds, h, list[0], tunnel);
    var h1 := Capture(cmds, h, list[0], tunnel).1;
    SetConfSets(cmds, h1, list[0], TunnelConf(tunnel));
    h2 := SetConf(cmds, h1, list[0], TunnelConf(tunnel)).0;
  }

  lemma {:induction false} PromoteTakesOver(cmds: Commands, h: Host, list: seq<string>, saved: seq<Saved>, tunnel: seq<string>)
    requires ReadsWork(cmds) && SetsWork(cmds) && Distinct(list) && forall s :: s in list ==> s in h.conf
    ensures var (h', saved', ok) := Promote(cmds, h, list, saved, tunnel);
            ok && TakenOver(h, h', list, tunnel) && saved' == saved + Originals(h, list, tunnel)
    decreases |list|
  {
    hide ReadsWork, SetsWork, Original;
    if list == [] {
      assert saved + Originals(h, list, tunnel) == saved;
    } else {
      hide Promote;
      var rest := list[1..];
      var h2 := PromoteOne(cmds, h, list, saved, tunnel);
      assert forall s :: s in rest ==> s in list && s != list[0];
      PromoteTakesOver(cmds, h2, rest, saved + [Original(h, list[0], tunnel)], tunnel);
      OriginalsSame(h, h2, rest, tunnel);
      Regrouped(saved, Original(h, list[0], tunnel), Originals(h, rest, tunnel));
    }
  }

  lemma Regrouped(a: seq<Saved>, x: Saved, b: seq<Saved>)
    ensures (a + [x]) + b == a + ([x] + b)
  {
  }

  /** A setup that meets no failure takes over the primary service, or every
      listed one if the primary is unknown or not listed: each is on record with
      what it was configured with, shows the tunnel's resolvers and no search
      domains, and nothing else is touched. Without listed services it fails. */
  lemma SetupTakesOver(cmds: Commands, h: Host, tunnel: seq<string>)
    requires ReadsWork(cmds) && SetsWork(cmds) && WellListed(h) && tunnel != []
    ensures var (h', up, errors) := Setup(cmds, h, tunnel);
            if h.services == [] then up == None && SameSystem(h, h')
            else
              && up.Some? && up.value.host == h' && h'.services == h.services && h'.primary == h.primary && h'.conf.Keys == h.conf.Keys
              && (forall s :: s in h.conf ==> h'.conf[s] == if Carries(h, s) then Tunnelled(tunnel) else h.conf[s])
              && (forall e :: e in up.value.saved <==> Carries(h, e.service) && e.service in h.conf && e == Original(h, e.service, tunnel))
  {
    hide Promote, Observe, TrueObserved, Distinct, Original, ReadsWork, SetsWork, Originals;
    FingerprintReads(cmds, h);
    if h.services != [] {
      SnapshotIsTrue(cmds, h);
      var h1 := CurrentFingerprint(cmds, h).1;
      var list := Wanted(h, false);
      TargetsCarry(h);
      PromoteTakesOver(cmds, h1, list, [], tunnel);
      var (h2, saved, ok) := Promote(cmds, h1, list, [], tunnel);
      var none: seq<Saved> := [];
      assert none + Originals(h1, list, tunnel) == Originals(h1, list, tunnel);
      FingerprintReads(cmds, h2);
      OriginalsSame(h, h1, list, tunnel);
      OriginalsMembers(h, list, tunnel);
    }
  }

  lemma SetupWithoutResolvers(cmds: Commands, h: Host)
    ensures Setup(cmds, h, []).0 == h && Setup(cmds, h, []).1.Some? && Setup(cmds, h, []).1.value.saved == [] && Setup(cmds, h, []).2 == 0
  {
  }

  // ---- tick --------------------------------------------------------------------------------------

  /** The services that should carry tunnel DNS now: none while a resolver of the
      tunnel lies on a LAN. */
  predicate Due(h: Host, collision: bool, svc: string) { !collision && Carries(h, svc) }

  /** A tick acts exactly when the host is not what the stored fingerprint says,
      when a service due is not on record, or when a collision finds one that is. */
  lemma ActsIff(st: State, collision: bool)
    requires WellListed(st.host)
    ensures Acts(st, TrueFingerprint(st.host), collision) <==>
            || st.fp != TrueFingerprint(st.host)
            || (collision && st.saved != [])
            || (exists svc :: Due(st.host, collision, svc) && !Own(st.saved, svc))
  {
    hide TrueFingerprint;
    var targets := Wanted(st.host, collision);
    TargetsCarry(st.host);
    forall svc ensures Own(st.saved, svc) <==> svc in Names(st.saved) { OwnIsNamed(st.saved, svc); }
    if exists svc :: Due(st.host, collision, svc) && !Own(st.saved, svc) {
      var svc :| Due(st.host, collision, svc) && !Own(st.saved, svc);
      var i :| 0 <= i < |targets| && targets[i] == svc;
      assert targets[i] !in Names(st.saved);
    }
  }

  lemma FindSavedIs(saved: seq<Saved>, e: Saved)
    requires DistinctNames(saved) && e in saved
    ensures FindSaved(saved, e.service) == Some(e)
  {
    FindSavedFinds(saved, e.service);
    assert Own(saved, e.service);
  }

  /** A release phase without failures gives every listed service its original. */
  lemma {:induction false} RestoreListedGivesBack(cmds: Commands, h: Host, saved: seq<Saved>, list: seq<string>)
    requires SetsWork(cmds) && DistinctNames(saved) && Distinct(list)
    requires forall svc :: svc in list ==> svc in h.conf && Own(saved, svc)
    ensures var (h', saved', _) := RestoreListed(cmds, h, saved, list);
            && h'.services == h.services && h'.primary == h.primary && h'.conf.Keys == h.conf.Keys
            && (forall e :: e in saved' <==> e in saved && e.service !in list)
            && (forall svc :: svc in h.conf && svc !in list ==> h'.conf[svc] == h.conf[svc])
            && (forall e :: e in saved && e.service in list ==> h'.conf[e.service] == e.original)
    decreases |list|
  {
    if list != [] {
      hide SetsWork, SetConf;
      var svc, rest := list[0], list[1..];
      FindSavedFinds(saved, svc);
      var entry := FindSaved(saved, svc).value;
      WithoutKeepsRest(saved, svc);
      SetConfSets(cmds, h, svc, entry.original);
      var h1 := Restore(cmds, h, entry).0;
      forall x | x in rest
        ensures x in h1.conf && Own(Without(saved, svc), x) && x != svc
      {
        assert x in list;
        var e :| e in saved && e.service == x;
        assert e in Without(saved, svc);
      }
      RestoreListedGivesBack(cmds, h1, Without(saved, svc), rest);
      forall e | e in saved && e.service in list
        ensures RestoreListed(cmds, h, saved, list).0.conf[e.service] == e.original
      {
        if e.service == svc { FindSavedIs(saved, e); assert svc !in rest; } else { assert e in Without(saved, svc); }
      }
    }
  }

  /** The captures of a phase without failures. */
  lemma {:induction false} CaptureAllSaves(cmds: Commands, h: Host, list: seq<string>, tunnel: seq<string>)
    requires ReadsWork(cmds) && forall svc :: svc in list ==> svc in h.conf
    ensures var (h', captured, failed) := CaptureAll(cmds, h, list, tunnel);
            && failed == [] && SameSystem(h, h')
            && forall e :: e in captured <==> e.service in list && e.service in h.conf && e == Original(h, e.service, tunnel)
    decreases |list|
  {
    if list != [] {
      hide ReadsWork, Capture;
      CaptureSaves(cmds, h, list[0], tunnel);
      var (entry, h1) := Capture(cmds, h, list[0], tunnel);
      assert forall svc :: svc in list <==> svc == list[0] || svc in list[1..];
      CaptureAllSaves(cmds, h1, list[1..], tunnel);
    }
  }

  /** The host and the record after the three phases of a tick without failures. */
  ghost predicate Arrived(h: Host, saved: seq<Saved>, h': Host, saved': seq<Saved>, tunnel: seq<string>, collision: bool) {
    && h'.services == h.services && h'.primary == h.primary && h'.conf.Keys == h.conf.Keys
    && (forall svc :: svc in h.conf && Due(h, collision, svc) ==>
          h'.conf[svc] == if h.conf[svc].servers == Some(tunnel) then h.conf[svc] else Tunnelled(tunnel))
    && (forall svc :: svc in h.conf && !Due(h, collision, svc) && !Own(saved, svc) ==> h'.conf[svc] == h.conf[svc])
    && (forall e :: e in saved && e.service in h.conf && !Due(h, collision, e.service) ==> h'.conf[e.service] == e.original)
    && (forall e :: e in saved' <==>
          Due(h, collision, e.service) && e.service in h.conf && (e in saved || (!Own(saved, e.service) && e == Original(h, e.service, tunnel))))
  }

  lemma ReachedArrives(cmds: Commands, h: Host, saved: seq<Saved>, tunnel: seq<string>, collision: bool)
    requires Readable(cmds, h, saved) && SetsWork(cmds)
    ensures var (h', saved', _) := Reached(cmds, h, saved, tunnel, PlanFor(h, saved, tunnel, collision));
            Arrived(h, saved, h', saved', tunnel, collision)
  {
    hide PlanFor, Wanted, CaptureAll, RestoreListed, ApplyAll, DropListed, Carries, SetsWork, ReadsWork, Distinct;
    var plan := PlanFor(h, saved, tunnel, collision);
    TargetsCarry(h);
    assert forall svc :: svc in Wanted(h, collision) <==> Due(h, collision, svc);
    WantedAreListed(h, collision);
    PlanForMeans(h, saved, tunnel, collision);
    CaptureAllSaves(cmds, h, plan.capture, tunnel);
    CapturedDistinct(cmds, h, plan.capture, tunnel, saved);
    var (h1, captured, failed) := CaptureAll(cmds, h, plan.capture, tunnel);
    var all := saved + captured;
    AppendOwned(saved, captured);
    RestoreListedGivesBack(cmds, h1, all, plan.restore);
    var (h2, saved2, _) := RestoreListed(cmds, h1, all, plan.restore);
    DropListedDrops(saved2, plan.drop);
    ApplyAllWorks(cmds, h2, plan.apply, tunnel);
    var saved3 := DropListed(saved2, plan.drop);
    forall e
      ensures e in saved3 <==> Due(h, collision, e.service) && e.service in h.conf
                               && (e in saved || (!Own(saved, e.service) && e == Original(h, e.service, tunnel)))
    {
      assert e in saved3 <==> (e in saved || e in captured) && e.service !in plan.restore && e.service !in plan.drop;
      assert e in saved ==> Own(saved, e.service);
    }
  }

  /** A tick that acts and meets no failure leaves exactly the services due on
      record, each showing the tunnel's resolvers; it gives every other owned
      service its original back and touches nothing else. A service newly taken
      over is saved as it was configured. */
  lemma TickTakesOver(cmds: Commands, st: State, tunnel: seq<string>, collision: bool)
    requires Readable(cmds, st.host, st.saved) && SetsWork(cmds) && tunnel != []
    requires Acts(st, TrueFingerprint(st.host), collision)
    ensures var st' := Tick(cmds, st, tunnel, collision);
            && Arrived(st.host, st.saved, st'.host, st'.saved, tunnel, collision)
            && (forall svc :: Own(st'.saved, svc) <==> Due(st.host, collision, svc))
            && (forall svc :: Due(st.host, collision, svc) ==> svc in st'.host.conf && st'.host.conf[svc].servers == Some(tunnel))
  {
    hide Act, Looked, TrueFingerprint, PlanFor, Reached, Plan, Names, Tick, Acts, Wanted, SetsWork, ReadsWork, Original, Distinct;
    TickActs(cmds, st, tunnel, collision);
    var h := Looked(cmds, st.host);
    ActStores(cmds, h, st.saved, tunnel, collision);
    ReachedArrives(cmds, h, st.saved, tunnel, collision);
    var st' := Tick(cmds, st, tunnel, collision);
    SameArrival(st.host, h, st.saved, st'.host, Reached(cmds, h, st.saved, tunnel, PlanFor(h, st.saved, tunnel, collision)).0,
                st'.saved, tunnel, collision);
    OwnsTheDue(st.host, st.saved, st'.host, st'.saved, tunnel, collision);
  }

  lemma SameArrival(h: Host, h1: Host, saved: seq<Saved>, h': Host, h1': Host, saved': seq<Saved>, tunnel: seq<string>, collision: bool)
    requires SameSystem(h, h1) && SameSystem(h1', h') && Arrived(h1, saved, h1', saved', tunnel, collision)
    ensures Arrived(h, saved, h', saved', tunnel, collision)
  {
  }

  lemma OwnsTheDue(h: Host, saved: seq<Saved>, h': Host, saved': seq<Saved>, tunnel: seq<string>, collision: bool)
    requires WellListed(h) && Arrived(h, saved, h', saved', tunnel, collision)
    ensures forall svc :: Own(saved', svc) <==> Due(h, collision, svc)
    ensures forall svc :: Due(h, collision, svc) ==> svc in h'.conf && h'.conf[svc].servers == Some(tunnel)
  {
    forall svc | Due(h, collision, svc)
      ensures Own(saved', svc) && svc in h'.conf && h'.conf[svc].servers == Some(tunnel)
    {
      assert svc in h.conf;
      if Own(saved, svc) {
        var e :| e in saved && e.service == svc;
        assert e in saved';
      } else {
        assert Original(h, svc, tunnel) in saved';
      }
    }
  }
}
