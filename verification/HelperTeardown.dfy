/** What the status file stands for: a cleanup without errors undid everything
    the helper had taken. */
module HelperTeardown {
  import opened Prelude
  import Routes
  import RouteOwnership
  import RouteRuns
  import Dns
  import DnsCustody

  /** The helper's `cleanup_network` collects no error: every owned route was
      deleted and every owned service restored. */
  predicate CleanupWorks(rcmds: Routes.Commands, h: Routes.Helper, obs: Routes.Observation, dcmds: Dns.Commands, st: Dns.State) {
    RouteOwnership.TeardownWorks(rcmds, h, obs) && Dns.Teardown(dcmds, st).1 == 0
  }

  /** A cleanup that reports "ok" leaves no route of the helper, keeps every
      other entry, and gives every service back to its user. */
  lemma CleanCleanupUndoesEverything(inputs: Routes.Inputs, rcmds: Routes.Commands, h: Routes.Helper, obs: Routes.Observation,
                                     dcmds: Dns.Commands, st: Dns.State, user: map<string, Dns.Conf>, left: set<string>,
                                     tunnel: seq<string>)
    requires RouteOwnership.RecordExact(inputs, h, obs.subnets) && RouteRuns.PhysicalDevices(obs)
    requires DnsCustody.Custody(st.host.conf, st.saved, user, left, tunnel)
    requires CleanupWorks(rcmds, h, obs, dcmds, st)
    ensures var t := Routes.Teardown(rcmds, h, obs).table;
            && RouteOwnership.NoneOfOurs(inputs, t)
            && (forall k :: k in h.sys.table && !RouteOwnership.Mine(inputs, h.sys.table, k) ==> k in t && t[k] == h.sys.table[k])
    ensures DnsCustody.GivenBack(Dns.Teardown(dcmds, st).0.conf, user, left, tunnel)
  {
    RouteOwnership.TeardownLeavesNothing(inputs, rcmds, h, obs, obs.subnets);
    DnsCustody.RestoringGivesBack(dcmds, st.host, st.saved, user, left, tunnel);
  }
}
