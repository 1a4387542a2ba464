/** The DNS half of the helper as it runs: commands that change the system's
    resolvers one by one, and a record of originals updated in place. Every
    method computes the function of the same step in `Dns`. */
module DnsReconciler {
  import opened Prelude
  import opened Dns

  /** `plan_dns_actions`: two loops, one over the targets, one over the owned. */
  method PlanDnsActions(tunnel: seq<string>, fp: Fingerprint, owned: seq<string>, targets: seq<string>) returns (plan: Actions)
    ensures plan == Plan(tunnel, fp, owned, targets)
  {
    hide ObservedOf;
    var capture, restore, drop, apply: seq<string> := [], [], [], [];
    for i := 0 to |targets|
      invariant capture == KeepIf(targets[..i], svc => svc !in owned)
      invariant apply == KeepIf(targets[..i], svc => !ShowsTunnel(tunnel, fp, svc))
    {
      var svc := targets[i];
      assert targets[..i + 1][..i] == targets[..i];
      if svc !in owned {
        capture := capture + [svc];
      }
      if !ShowsTunnel(tunnel, fp, svc) {
        apply := apply + [svc];
      }
    }
    assert targets[..|targets|] == targets;
    for i := 0 to |owned|
      invariant restore == KeepIf(owned[..i], svc => svc !in targets && svc in fp.services)
      invariant drop == KeepIf(owned[..i], svc => svc !in targets && svc !in fp.services)
    {
      var svc := owned[i];
      assert owned[..i + 1][..i] == owned[..i];
      if svc !in targets {
        if svc in fp.services {
          restore := restore + [svc];
        } else {
          drop := drop + [svc];
        }
      }
    }
    assert owned[..|owned|] == owned;
    plan := Actions(capture, restore, drop, apply);
  }

  class Reconciler {
    const cmds: Commands
    const tunnel: seq<string>
    var host: Host
    var saved: seq<Saved>
    var fingerprint: Fingerprint

    constructor (cmds: Commands, tunnel: seq<string>, host: Host)
      ensures this.cmds == cmds && this.tunnel == tunnel && this.host == host
      ensures saved == [] && fingerprint == NO_FINGERPRINT
    {
      this.cmds, this.tunnel, this.host := cmds, tunnel, host;
      this.saved, this.fingerprint := [], NO_FINGERPRINT;
    }

    ghost function TheState(): State
      reads this
    {
      State(host, saved, fingerprint)
    }

    method SetDnsServers(svc: string, servers: Servers) returns (ok: bool)
      modifies this`host
      ensures host == SetServers(cmds, old(host), svc, servers) && ok == SetWorks(cmds, old(host), svc)
    {
      ok := SetWorks(cmds, host, svc);
      if ok {
        host := host.(conf := host.conf[svc := host.conf[svc].(servers := servers)]);
      }
      host := Ticked(host);
    }

    method SetSearchDomains(svc: string, search: Option<seq<string>>) returns (ok: bool)
      modifies this`host
      ensures host == SetSearch(cmds, old(host), svc, search) && ok == SetWorks(cmds, old(host), svc)
    {
      ok := SetWorks(cmds, host, svc);
      if ok {
        host := host.(conf := host.conf[svc := host.conf[svc].(search := search)]);
      }
      host := Ticked(host);
    }

    /** Resolvers first; a failure leaves the search domains alone. */
    method WriteConf(svc: string, c: Conf) returns (ok: bool)
      modifies this`host
      ensures (host, ok) == SetConf(cmds, old(host), svc, c)
    {
      ok := SetDnsServers(svc, c.servers);
      if ok {
        ok := SetSearchDomains(svc, c.search);
      }
    }

    method TakeSnapshot() returns (fp: Option<Fingerprint>)
      modifies this`host
      ensures (fp, host) == CurrentFingerprint(cmds, old(host))
    {
      var listed := cmds.lists(host.clock);
      host := Ticked(host);
      if !listed || host.services == [] {
        return None;
      }
      var services, observed, i := host.services, [], 0;
      ghost var all := Observe(cmds, host, services);
      assert services[0..] == services && [] + all.0 == all.0;
      while i < |services|
        invariant 0 <= i <= |services|
        invariant host.services == services && host.primary == old(host.primary)
        invariant observed + Observe(cmds, host, services[i..]).0 == all.0
        invariant Observe(cmds, host, services[i..]).1 == all.1
      {
        var svc := services[i];
        var seen: Servers := if GetWorks(cmds, host, svc) then host.conf[svc].servers else None;
        assert services[i..][0] == svc && services[i..][1..] == services[i + 1..];
        host := Ticked(host);
        ghost var rest := Observe(cmds, host, services[i + 1..]).0;
        assert observed + ([(svc, seen)] + rest) == (observed + [(svc, seen)]) + rest;
        observed := observed + [(svc, seen)];
        i := i + 1;
      }
      assert observed + [] == observed;
      var primary := if cmds.primaries(host.clock) then host.primary else None;
      host := Ticked(host);
      fp := Some(Fingerprint(primary, services, observed));
    }

    method CaptureService(svc: string) returns (entry: Option<Saved>)
      modifies this`host
      ensures (entry, host) == Capture(cmds, old(host), svc, tunnel)
    {
      var readable := GetWorks(cmds, host, svc);
      host := Ticked(host);
      if !readable {
        return None;
      }
      var c := host.conf[svc];
      if c.servers == Some(tunnel) {
        return Some(Saved(svc, Conf(None, None)));
      }
      readable := GetWorks(cmds, host, svc);
      host := Ticked(host);
      entry := if readable then Some(Saved(svc, c)) else None;
    }

    /** Phase (a). */
    method CaptureListed(list: seq<string>) returns (failed: seq<string>)
      modifies this`host, this`saved
      ensures var (h, captured, f) := CaptureAll(cmds, old(host), list, tunnel);
              host == h && saved == old(saved) + captured && failed == f
    {
      failed := [];
      ghost var all := CaptureAll(cmds, host, list, tunnel);
      assert list[0..] == list && [] + all.2 == all.2;
      var i := 0;
      while i < |list|
        invariant 0 <= i <= |list|
        invariant CaptureAll(cmds, host, list[i..], tunnel).0 == all.0
        invariant saved + CaptureAll(cmds, host, list[i..], tunnel).1 == old(saved) + all.1
        invariant failed + CaptureAll(cmds, host, list[i..], tunnel).2 == all.2
      {
        assert list[i..][0] == list[i] && list[i..][1..] == list[i + 1..];
        var entry := CaptureService(list[i]);
        ghost var rest := CaptureAll(cmds, host, list[i + 1..], tunnel);
        match entry {
          case Some(e) =>
            assert saved + ([e] + rest.1) == (saved + [e]) + rest.1;
            saved := saved + [e];
          case None =>
            assert failed + ([list[i]] + rest.2) == (failed + [list[i]]) + rest.2;
            failed := failed + [list[i]];
        }
        i := i + 1;
      }
      assert saved + [] == saved && failed + [] == failed;
    }

    /** Phase (b): restore and forget, or keep for a later try. */
    method RestoreReleased(list: seq<string>) returns (restored: nat)
      modifies this`host, this`saved
      ensures (host, saved, restored) == RestoreListed(cmds, old(host), old(saved), list)
    {
      restored := 0;
      ghost var all := RestoreListed(cmds, host, saved, list);
      assert list[0..] == list;
      var i := 0;
      while i < |list|
        invariant 0 <= i <= |list|
        invariant var r := RestoreListed(cmds, host, saved, list[i..]); (r.0, r.1, restored + r.2) == all
      {
        var svc := list[i];
        assert list[i..][0] == svc && list[i..][1..] == list[i + 1..];
        var found := FindSaved(saved, svc);
        match found {
          case None =>
            saved := Without(saved, svc);
          case Some(entry) =>
            var ok := WriteConf(entry.service, entry.original);
            if ok {
              restored := restored + 1;
              saved := Without(saved, svc);
            }
        }
        i := i + 1;
      }
    }

    /** Phase (c). */
    method ApplyListed(list: seq<string>, failed: seq<string>) returns (applied: nat)
      modifies this`host
      ensures (host, applied) == ApplyAll(cmds, old(host), list, failed, tunnel)
    {
      applied := 0;
      ghost var all := ApplyAll(cmds, host, list, failed, tunnel);
      assert list[0..] == list;
      var i := 0;
      while i < |list|
        invariant 0 <= i <= |list|
        invariant var r := ApplyAll(cmds, host, list[i..], failed, tunnel); (r.0, applied + r.1) == all
      {
        assert list[i..][0] == list[i] && list[i..][1..] == list[i + 1..];
        if list[i] !in failed {
          var ok := WriteConf(list[i], TunnelConf(tunnel));
          if ok {
            applied := applied + 1;
          }
        }
        i := i + 1;
      }
    }

    /** `macos_reconcile_dns`. */
    method ReconcileDns(collision: bool) returns (acted: bool)
      modifies this
      ensures TheState() == Tick(cmds, old(TheState()), tunnel, collision)
      ensures !acted ==> saved == old(saved) && fingerprint == old(fingerprint) && host.conf == old(host.conf)
    {
      hide Plan, CaptureAll, RestoreListed, ApplyAll, Targets, Forced, Names, Observe, CurrentFingerprint;
      if tunnel == [] {
        return false;
      }
      var snapshot := TakeSnapshot();
      SnapshotReads(old(host));
      if snapshot.None? {
        return false;
      }
      var fp := snapshot.value;
      var owned := Names(saved);
      var targets := TickTargets(fp, collision);
      if fp == fingerprint && !Forced(collision, owned, targets) {
        return false;
      }
      var plan := PlanDnsActions(tunnel, fp, owned, targets);
      var failed := CaptureListed(plan.capture);
      var restored := RestoreReleased(plan.restore);
      var i := 0;
      ghost var released := saved;
      assert plan.drop[0..] == plan.drop;
      while i < |plan.drop|
        invariant 0 <= i <= |plan.drop|
        invariant DropListed(saved, plan.drop[i..]) == DropListed(released, plan.drop)
        modifies this`saved
      {
        assert plan.drop[i..][0] == plan.drop[i] && plan.drop[i..][1..] == plan.drop[i + 1..];
        saved := Without(saved, plan.drop[i]);
        i := i + 1;
      }
      var applied := ApplyListed(plan.apply, failed);
      if applied + restored > 0 {
        var again := TakeSnapshot();
        fp := if again.Some? then again.value else fp;
      }
      fingerprint := fp;
      acted := true;
    }

    lemma SnapshotReads(h: Host)
      ensures CurrentFingerprint(cmds, h).1.conf == h.conf
    {
      ObserveKeepsConf(Ticked(h), h.services);
    }

    lemma {:induction false} ObserveKeepsConf(h: Host, services: seq<string>)
      ensures Observe(cmds, h, services).1.conf == h.conf
      decreases |services|
    {
      if services != [] {
        ObserveKeepsConf(Ticked(h), services[1..]);
      }
    }

    /** Put back every original, newest first; counts what could not be. */
    method RestoreSaved() returns (errors: nat)
      modifies this`host
      ensures (host, errors) == RestoreEach(cmds, old(host), Reversed(saved))
    {
      errors := 0;
      var list, i := Reversed(saved), 0;
      ghost var all := RestoreEach(cmds, host, list);
      assert list[0..] == list;
      while i < |list|
        invariant 0 <= i <= |list|
        invariant var r := RestoreEach(cmds, host, list[i..]); (r.0, errors + r.1) == all
      {
        assert list[i..][0] == list[i] && list[i..][1..] == list[i + 1..];
        var ok := WriteConf(list[i].service, list[i].original);
        if !ok {
          errors := errors + 1;
        }
        i := i + 1;
      }
    }

    /** `configure_macos_dns` with the rollback of `configure_network_macos`. */
    method ConfigureDns() returns (up: bool, errors: nat)
      requires saved == [] && fingerprint == NO_FINGERPRINT
      modifies this
      ensures var (h, st, e) := Setup(cmds, old(host), tunnel);
              host == h && up == st.Some? && errors == e && (up ==> st.value == TheState())
    {
      errors := 0;
      if tunnel == [] {
        return true, 0;
      }
      var snapshot := TakeSnapshot();
      if snapshot.None? {
        return false, 0;
      }
      var fp := snapshot.value;
      var ok := PromoteServices(Targets(fp));
      if !ok {
        errors := RestoreSaved();
        return false, errors;
      }
      var again := TakeSnapshot();
      fingerprint := if again.Some? then again.value else fp;
      up := true;
    }

    method PromoteServices(list: seq<string>) returns (ok: bool)
      modifies this`host, this`saved
      ensures (host, saved, ok) == Promote(cmds, old(host), list, old(saved), tunnel)
    {
      ok := true;
      ghost var all := Promote(cmds, host, list, saved, tunnel);
      assert list[0..] == list;
      var i := 0;
      while i < |list|
        invariant 0 <= i <= |list|
        invariant Promote(cmds, host, list[i..], saved, tunnel) == all
      {
        assert list[i..][0] == list[i] && list[i..][1..] == list[i + 1..];
        var entry := CaptureService(list[i]);
        if entry.None? {
          return false;
        }
        saved := saved + [entry.value];
        var wrote := WriteConf(list[i], TunnelConf(tunnel));
        if !wrote {
          return false;
        }
        i := i + 1;
      }
    }

    /** The DNS half of `cleanup_network_macos`. */
    method CleanupDns() returns (errors: nat)
      modifies this`host
      ensures (host, errors) == Teardown(cmds, old(TheState()))
    {
      errors := RestoreSaved();
    }
  }
}
