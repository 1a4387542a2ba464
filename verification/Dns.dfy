/** The DNS side of the userspace helper: taking over a service's resolvers,
    remembering the originals and giving them back. `DnsReconciler` runs these
    steps; `DnsCustody` and `DnsConvergence` say what they guarantee. */
module Dns {
  import opened Prelude

  type Servers = Option<seq<string>>

  /** What one network service is configured with; `None` is "Empty". */
  datatype Conf = Conf(servers: Servers, search: Option<seq<string>>)

  datatype Saved = Saved(service: string, original: Conf)

  datatype Fingerprint = Fingerprint(primary: Option<string>, services: seq<string>, observed: seq<(string, Servers)>)

  /** Whether the n-th command of each kind succeeds. */
  datatype Commands = Commands(lists: nat -> bool, gets: nat -> bool, primaries: nat -> bool, sets: nat -> bool)

  /** The host: the sorted listing, the configuration of each listed service,
      the primary service, and the number of commands run so far. */
  datatype Host = Host(services: seq<string>, conf: map<string, Conf>, primary: Option<string>, clock: nat)

  function Ticked(h: Host): Host { h.(clock := h.clock + 1) }

  // ---- reading ---------------------------------------------------------------

  function GetWorks(cmds: Commands, h: Host, svc: string): bool {
    cmds.gets(h.clock) && svc in h.conf
  }

  /** Reads that fail degrade to `None`. */
  function Observe(cmds: Commands, h: Host, services: seq<string>): (seq<(string, Servers)>, Host)
    decreases |services|
  {
    if services == [] then ([], h)
    else
      var svc := services[0];
      var seen: Servers := if GetWorks(cmds, h, svc) then h.conf[svc].servers else None;
      var (rest, h') := Observe(cmds, Ticked(h), services[1..]);
      ([(svc, seen)] + rest, h')
  }

  /** `macos_current_dns_fingerprint`: a failed or empty listing aborts it. */
  function CurrentFingerprint(cmds: Commands, h: Host): (Option<Fingerprint>, Host) {
    var h1 := Ticked(h);
    if !cmds.lists(h.clock) || h.services == [] then (None, h1)
    else
      var (observed, h2) := Observe(cmds, h1, h.services);
      (Some(Fingerprint(if cmds.primaries(h2.clock) then h.primary else None, h.services, observed)), Ticked(h2))
  }

  /** `capture_macos_dns_service`. */
  function Capture(cmds: Commands, h: Host, svc: string, tunnel: seq<string>): (Option<Saved>, Host) {
    var h1 := Ticked(h);
    if !GetWorks(cmds, h, svc) then (None, h1)
    else if h.conf[svc].servers == Some(tunnel) then (Some(Saved(svc, Conf(None, None))), h1)
    else if !GetWorks(cmds, h1, svc) then (None, Ticked(h1))
    else (Some(Saved(svc, Conf(h.conf[svc].servers, h.conf[svc].search))), Ticked(h1))
  }

  // ---- writing ---------------------------------------------------------------

  function SetWorks(cmds: Commands, h: Host, svc: string): bool {
    cmds.sets(h.clock) && svc in h.conf
  }

  function SetServers(cmds: Commands, h: Host, svc: string, servers: Servers): Host {
    if SetWorks(cmds, h, svc) then Ticked(h.(conf := h.conf[svc := h.conf[svc].(servers := servers)])) else Ticked(h)
  }

  function SetSearch(cmds: Commands, h: Host, svc: string, search: Option<seq<string>>): Host {
    if SetWorks(cmds, h, svc) then Ticked(h.(conf := h.conf[svc := h.conf[svc].(search := search)])) else Ticked(h)
  }

  /** Set the resolvers, then, only if that worked, the search domains. */
  function SetConf(cmds: Commands, h: Host, svc: string, c: Conf): (Host, bool) {
    var h1 := SetServers(cmds, h, svc, c.servers);
    if !SetWorks(cmds, h, svc) then (h1, false)
    else (SetSearch(cmds, h1, svc, c.search), SetWorks(cmds, h1, svc))
  }

  /** `restore_macos_dns_service`. */
  function Restore(cmds: Commands, h: Host, saved: Saved): (Host, bool) {
    SetConf(cmds, h, saved.service, saved.original)
  }

  function TunnelConf(tunnel: seq<string>): Conf { Conf(Some(tunnel), None) }

  // ---- deciding ----------------------------------------------------------------

  /** `dns_target_services` under `PrimaryOnly`, the active policy. */
  function Targets(fp: Fingerprint): seq<string> {
    if fp.primary.Some? && fp.primary.value in fp.services then [fp.primary.value] else fp.services
  }

  function ObservedOf(observed: seq<(string, Servers)>, svc: string): Servers {
    if observed == [] then None
    else if observed[0].0 == svc then observed[0].1
    else ObservedOf(observed[1..], svc)
  }

  predicate ShowsTunnel(tunnel: seq<string>, fp: Fingerprint, svc: string) {
    ObservedOf(fp.observed, svc) == Some(tunnel)
  }

  datatype Actions = Actions(capture: seq<string>, restore: seq<string>, drop: seq<string>, apply: seq<string>)

  function KeepIf(s: seq<string>, p: string -> bool): (r: seq<string>)
    ensures forall x :: x in r <==> x in s && p(x)
  {
    if s == [] then []
    else
      var last := s[|s| - 1];
      KeepIf(s[..|s| - 1], p) + if p(last) then [last] else []
  }

  /** What `plan_dns_actions` decides, list by list. */
  function Plan(tunnel: seq<string>, fp: Fingerprint, owned: seq<string>, targets: seq<string>): Actions {
    Actions(KeepIf(targets, svc => svc !in owned),
            KeepIf(owned, svc => svc !in targets && svc in fp.services),
            KeepIf(owned, svc => svc !in targets && svc !in fp.services),
            KeepIf(targets, svc => !ShowsTunnel(tunnel, fp, svc)))
  }

  /** `dns_reconcile_forced`. */
  function Forced(collision: bool, owned: seq<string>, targets: seq<string>): bool {
    (collision && owned != []) || (!collision && exists i :: 0 <= i < |targets| && targets[i] !in owned)
  }

  // ---- the helper's record -----------------------------------------------------------

  function Names(saved: seq<Saved>): (names: seq<string>)
    ensures |names| == |saved| && forall i :: 0 <= i < |saved| ==> names[i] == saved[i].service
  {
    seq(|saved|, i requires 0 <= i < |saved| => saved[i].service)
  }

  function FindSaved(saved: seq<Saved>, svc: string): Option<Saved> {
    if saved == [] then None
    else if saved[0].service == svc then Some(saved[0])
    else FindSaved(saved[1..], svc)
  }

  /** `retain(|s| &s.service != svc)`. */
  function Without(saved: seq<Saved>, svc: string): seq<Saved> {
    if saved == [] then []
    else
      var last := saved[|saved| - 1];
      Without(saved[..|saved| - 1], svc) + if last.service != svc then [last] else []
  }

  datatype State = State(host: Host, saved: seq<Saved>, fp: Fingerprint)

  // ---- the phases of a tick ------------------------------------------------------------

  /** Phase (a): the services whose originals were saved, and those whose
      capture failed. */
  function CaptureAll(cmds: Commands, h: Host, list: seq<string>, tunnel: seq<string>): (Host, seq<Saved>, seq<string>)
    decreases |list|
  {
    if list == [] then (h, [], [])
    else
      var (entry, h1) := Capture(cmds, h, list[0], tunnel);
      var (h2, saved, failed) := CaptureAll(cmds, h1, list[1..], tunnel);
      if entry.Some? then (h2, [entry.value] + saved, failed) else (h2, saved, [list[0]] + failed)
  }

  /** Phase (b): what is left on record, and how many restores worked. */
  function RestoreListed(cmds: Commands, h: Host, saved: seq<Saved>, list: seq<string>): (Host, seq<Saved>, nat)
    decreases |list|
  {
    if list == [] then (h, saved, 0)
    else
      match FindSaved(saved, list[0])
      case None => RestoreListed(cmds, h, Without(saved, list[0]), list[1..])
      case Some(entry) =>
        var (h1, ok) := Restore(cmds, h, entry);
        var (h2, saved2, n) := RestoreListed(cmds, h1, if ok then Without(saved, list[0]) else saved, list[1..]);
        (h2, saved2, if ok then n + 1 else n)
  }

  function DropListed(saved: seq<Saved>, list: seq<string>): seq<Saved>
    decreases |list|
  {
    if list == [] then saved else DropListed(Without(saved, list[0]), list[1..])
  }

  /** Phase (c): assert tunnel DNS, except where the original was not saved. */
  function ApplyAll(cmds: Commands, h: Host, list: seq<string>, failed: seq<string>, tunnel: seq<string>): (Host, nat)
    decreases |list|
  {
    if list == [] then (h, 0)
    else if list[0] in failed then ApplyAll(cmds, h, list[1..], failed, tunnel)
    else
      var (h1, ok) := SetConf(cmds, h, list[0], TunnelConf(tunnel));
      var (h2, n) := ApplyAll(cmds, h1, list[1..], failed, tunnel);
      (h2, if ok then n + 1 else n)
  }

  function Snapshot(cmds: Commands, h: Host, fallback: Fingerprint): (Fingerprint, Host) {
    var (fp, h1) := CurrentFingerprint(cmds, h);
    (if fp.Some? then fp.value else fallback, h1)
  }

  /** The acting part of `macos_reconcile_dns`. */
  function Act(cmds: Commands, h: Host, saved: seq<Saved>, tunnel: seq<string>, fp: Fingerprint, targets: seq<string>): State {
    var plan := Plan(tunnel, fp, Names(saved), targets);
    var (h1, captured, failed) := CaptureAll(cmds, h, plan.capture, tunnel);
    var (h2, saved2, restored) := RestoreListed(cmds, h1, saved + captured, plan.restore);
    var saved3 := DropListed(saved2, plan.drop);
    var (h3, applied) := ApplyAll(cmds, h2, plan.apply, failed, tunnel);
    if applied + restored > 0 then
      var (fp2, h4) := Snapshot(cmds, h3, fp);
      State(h4, saved3, fp2)
    else State(h3, saved3, fp)
  }

  function TickTargets(fp: Fingerprint, collision: bool): seq<string> {
    if collision then [] else Targets(fp)
  }

  /** Whether a tick that read `fp` acts on it. */
  function Acts(st: State, fp: Fingerprint, collision: bool): bool {
    fp != st.fp || Forced(collision, Names(st.saved), TickTargets(fp, collision))
  }

  /** `macos_reconcile_dns`. */
  function Tick(cmds: Commands, st: State, tunnel: seq<string>, collision: bool): State {
    if tunnel == [] then st
    else
      var (fp, h1) := CurrentFingerprint(cmds, st.host);
      if fp.None? || !Acts(st, fp.value, collision) then st.(host := h1)
      else Act(cmds, h1, st.saved, tunnel, fp.value, TickTargets(fp.value, collision))
  }

  // ---- setup and teardown ------------------------------------------------------------------

  /** The loop of `configure_macos_dns`: any failure ends it, keeping what was
      saved so far. */
  function Promote(cmds: Commands, h: Host, list: seq<string>, saved: seq<Saved>, tunnel: seq<string>): (Host, seq<Saved>, bool)
    decreases |list|
  {
    if list == [] then (h, saved, true)
    else
      var (entry, h1) := Capture(cmds, h, list[0], tunnel);
      if entry.None? then (h1, saved, false)
      else
        var (h2, ok) := SetConf(cmds, h1, list[0], TunnelConf(tunnel));
        if !ok then (h2, saved + [entry.value], false)
        else Promote(cmds, h2, list[1..], saved + [entry.value], tunnel)
  }

  /** Restore every entry of a list, in order, counting failures. */
  function RestoreEach(cmds: Commands, h: Host, list: seq<Saved>): (Host, nat)
    decreases |list|
  {
    if list == [] then (h, 0)
    else
      var (h1, ok) := Restore(cmds, h, list[0]);
      var (h2, n) := RestoreEach(cmds, h1, list[1..]);
      (h2, if ok then n else n + 1)
  }

  function Reversed(saved: seq<Saved>): seq<Saved> {
    if saved == [] then [] else [saved[|saved| - 1]] + Reversed(saved[..|saved| - 1])
  }

  const NO_FINGERPRINT := Fingerprint(None, [], [])

  /** Setup's DNS step with its rollback; the count is of failed rollbacks. */
  function Setup(cmds: Commands, h: Host, tunnel: seq<string>): (Host, Option<State>, nat) {
    if tunnel == [] then (h, Some(State(h, [], NO_FINGERPRINT)), 0)
    else
      var (fp, h1) := CurrentFingerprint(cmds, h);
      if fp.None? then (h1, None, 0)
      else
        var (h2, saved, ok) := Promote(cmds, h1, Targets(fp.value), [], tunnel);
        if ok then
          var (fp2, h3) := Snapshot(cmds, h2, fp.value);
          (h3, Some(State(h3, saved, fp2)), 0)
        else
          var (h3, errors) := RestoreEach(cmds, h2, Reversed(saved));
          (h3, None, errors)
  }

  /** The DNS half of `cleanup_network_macos`. */
  function Teardown(cmds: Commands, st: State): (Host, nat) {
    RestoreEach(cmds, st.host, Reversed(st.saved))
  }
}
