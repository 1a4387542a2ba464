/** The two reconcilers of one helper look at the same connected subnets and at
    the same list of resolvers, one as text and one as addresses. */
module HelperTick {
  import opened Prelude
  import opened Cidr
  import Routes
  import RouteProofs
  import Dns
  import DnsCustody
  import DnsConvergence

  /** The addresses of the resolvers that parse; the others cannot collide. */
  function Addresses(parse: string -> Option<IpAddr>, tunnel: seq<string>): seq<IpAddr> {
    if tunnel == [] then []
    else
      var front := Addresses(parse, tunnel[..|tunnel| - 1]);
      var last := parse(tunnel[|tunnel| - 1]);
      if last.Some? then front + [last.value] else front
  }

  predicate OnLan(fp: Routes.Fingerprint, server: IpAddr) {
    Routes.FirstContaining(fp.localSubnets, HostNet(server)).Some?
  }

  /** A route made from AllowedIPs entry `n` that covers the resolver is desired. */
  ghost predicate KeptFor(inputs: Routes.Inputs, fp: Routes.Fingerprint, server: IpAddr, n: Net) {
    exists r :: r in Routes.Desired(inputs, fp) && RouteProofs.ComesFrom(inputs, r, n) && Covers(Routes.RouteNet(r), server)
  }

  lemma {:induction false} AddressesMeans(parse: string -> Option<IpAddr>, tunnel: seq<string>, a: IpAddr)
    ensures a in Addresses(parse, tunnel) <==> exists t :: t in tunnel && parse(t) == Some(a)
  {
    if tunnel != [] {
      var front, last := tunnel[..|tunnel| - 1], tunnel[|tunnel| - 1];
      AddressesMeans(parse, front, a);
      assert forall t :: t in tunnel <==> t in front || t == last;
    }
  }

  /** DNS pull-back agrees with route exclusion, for the one list of resolvers
      both work from. Every resolver that lies in a connected subnet is answered
      by the LAN, never by the tunnel; if there is one, an error-free tick leaves
      no service owned; and if there is none, every AllowedIPs entry of an
      addressed family that covers a resolver still has a desired route covering
      it. */
  lemma PullBackAgreesWithExclusion(inputs: Routes.Inputs, fp: Routes.Fingerprint, t: Routes.Table, parse: string -> Option<IpAddr>,
                                    cmds: Dns.Commands, st: Dns.State, tunnel: seq<string>)
    requires inputs.dnsServers == Addresses(parse, tunnel)
    requires forall lan :: lan in fp.localSubnets ==> lan in t
    requires RouteProofs.TunnelEntriesDesired(inputs, fp, t)
    requires DnsConvergence.ReadsWork(cmds) && DnsConvergence.SetsWork(cmds)
    requires DnsCustody.WellListed(st.host) && st.host.services != []
    ensures var collision := Routes.DnsCollision(inputs.dnsServers, fp.localSubnets);
            && (collision <==> exists name :: name in tunnel && parse(name).Some? && OnLan(fp, parse(name).value))
            && (forall name :: name in tunnel && parse(name).Some? && OnLan(fp, parse(name).value) ==>
                  Routes.NeverTunnelled(t, parse(name).value))
            && (collision ==> Dns.Tick(cmds, st, tunnel, collision).saved == [])
            && (!collision ==> forall server, n ::
                  (server in inputs.dnsServers && n in inputs.allowedIps && Routes.HasFamily(inputs, n.ip.family)
                   && Covers(n, server)) ==> KeptFor(inputs, fp, server, n))
  {
    forall name | name in tunnel && parse(name).Some? && OnLan(fp, parse(name).value)
      ensures Routes.NeverTunnelled(t, parse(name).value) && Routes.DnsCollision(inputs.dnsServers, fp.localSubnets)
    {
      var server := parse(name).value;
      RouteProofs.CollidingResolverGoesToLan(inputs, fp, t, server);
      AddressesMeans(parse, tunnel, server);
      var i :| 0 <= i < |inputs.dnsServers| && inputs.dnsServers[i] == server;
      assert Routes.FirstContaining(fp.localSubnets, HostNet(inputs.dnsServers[i])).Some?;
    }
    if Routes.DnsCollision(inputs.dnsServers, fp.localSubnets) {
      var i :| 0 <= i < |inputs.dnsServers| && Routes.FirstContaining(fp.localSubnets, HostNet(inputs.dnsServers[i])).Some?;
      AddressesMeans(parse, tunnel, inputs.dnsServers[i]);
      var name :| name in tunnel && parse(name) == Some(inputs.dnsServers[i]);
      assert OnLan(fp, parse(name).value);
      DnsConvergence.CollisionReleasesEverything(cmds, st, tunnel);
    } else {
      forall server, n | server in inputs.dnsServers && n in inputs.allowedIps
        && Routes.HasFamily(inputs, n.ip.family) && Covers(n, server)
        ensures KeptFor(inputs, fp, server, n)
      {
        RouteProofs.ReachableResolverStaysRouted(inputs, fp, server, n);
      }
    }
  }
}
