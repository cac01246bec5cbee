/** The director role of a node: marking packets and sending them to the gateway. */
module Directors {
  import opened Net
  import opened Netfilter
  import opened Programs
  import opened Hosts
  import opened IpSets
  import opened Names

  function SetupProgram(): seq<Cmd> {
    [LinkStep, LinkStep, NewChain(NatBypass), EnsureFirst(NatPostrouting, JumpRule(NatBypass))]
  }

  /** On a node that has the built-in chains the kernel refuses none of it. */
  lemma SetupNotRefused(before: Config, r: Outcome, after: Config)
    requires NatPostrouting in before.chains
    requires Ended(SetupProgram(), before, r, after) && Refused(SetupProgram(), r, after)
    ensures r.Done?
  {
    ExecKeepsChains(SetupProgram(), before, Budget(SetupProgram(), r));
  }

  /** The commands of an addition by position. */
  lemma RouteCommands(name: string, ips: seq<Ip>, dst: Cidr)
    ensures var prog, n := Program(AddRoute(name, ips, dst)), |ips|;
            && |prog| == n + 7
            && prog[n + 2] == EnsureFirst(ManglePrerouting, MarkRule(name, dst))
            && prog[n + 3] == EnsureLast(NatBypass, AcceptRule(name, dst))
            && prog[n + 4] == prog[n + 5] == prog[n + 6] == LinkStep
  {
  }

  /** Three commands that leave the packet filter alone. */
  lemma LinkSteps(prog: seq<Cmd>, before: Config, at: nat, now: Config)
    requires at + 3 <= |prog| && prog[at] == prog[at + 1] == prog[at + 2] == LinkStep
    requires Exec(prog, before, at) == Progress(now, at)
    ensures Exec(prog, before, at + 1) == Progress(now, at + 1) && Exec(prog, before, at + 2) == Progress(now, at + 2)
    ensures Exec(prog, before, at + 3) == Progress(now, at + 3)
  {
    Step(prog, before, at, now);
    Step(prog, before, at + 1, now);
    Step(prog, before, at + 2, now);
  }

  /** Once its rules are there an addition leaves the packet filter alone. */
  lemma RouteEnd(before: Config, name: string, ips: seq<Ip>, dst: Cidr, now: Config)
    requires var n := |ips| + 4;
             Exec(Program(AddRoute(name, ips, dst)), before, n) == Progress(now, n)
    ensures var prog, n := Program(AddRoute(name, ips, dst)), |ips| + 4;
            forall j | n <= j <= n + 3 :: Exec(prog, before, j) == Progress(now, j)
    ensures |Program(AddRoute(name, ips, dst))| == |ips| + 7 && now == Full(before, AddRoute(name, ips, dst))
  {
    RouteCommands(name, ips, dst);
    hide Program, Exec;
    LinkSteps(Program(AddRoute(name, ips, dst)), before, |ips| + 4, now);
  }

  class EgressDirector {
    const host: Host
    const nodeIP: string

    constructor (host: Host, nodeIP: string)
      ensures this.host == host && this.nodeIP == nodeIP
    {
      this.host, this.nodeIP := host, nodeIP;
    }

    /** The routing table gets its name and its policy rule, and the bypass chain its jump. Packets with
        the mark 1000 look the table up, and no others, unless it had another rule before. */
    method Setup() returns (r: Outcome)
      modifies host`chains, host`tableNamed, host`lookups, host`faults
      ensures Ended(SetupProgram(), old(host.Filter()), r, host.Filter())
      ensures host.Counted(r.Done?, Refused(SetupProgram(), r, host.Filter()))
      ensures r.Done? ==> host.tableNamed
      ensures r.Done? ==> host.lookups == if old(host.lookups) == {} then {1000} else old(host.lookups)
    {
      ghost var prog, before := SetupProgram(), host.Filter();
      var ok := host.EnsureTableName();
      if !ok { return Failed(0); }
      Step(prog, before, 0, host.Filter());
      ok := host.EnsurePolicyRule(FWMARK);
      if !ok { return Failed(1); }
      Step(prog, before, 1, host.Filter());

      ghost var now := host.Filter();
      ok := host.CreateChain(NatBypass);
      if !ok { return Failed(2); }
      Step(prog, before, 2, now);

      now := host.Filter();
      ok := host.EnsureFirst(NatPostrouting, JumpRule(NatBypass));
      if !ok { return Failed(3); }
      Step(prog, before, 3, now);
      return Done;
    }

    /** The kernel does not refuse the tunnel or the route: no other text of the listings looks like the
        tunnel, and a route to the destination is recognized. */
    predicate Reachable(dst: Cidr, gatewayIP: string)
      reads host`links, host`routes
    {
      && (host.LinkShown(TunnelName(gatewayIP)) ==> TunnelName(gatewayIP) in host.links)
      && (host.HasRoute(dst) ==> host.DestinationShown(host.routes, dst))
    }

    /** The way to the gateway, and nothing else, may have been added; if all was `done` the tunnel is
        there, between the two nodes unless it had been there before, is up, and the destination is routed
        through it unless the table seemed to have it, by whatever tunnel: then that route stays. */
    ghost predicate Tunnelled(dst: Cidr, gatewayIP: string, done: bool, before: Network, now: Network) {
      var t := TunnelName(gatewayIP);
      && before.links <= now.links <= before.links + {t}
      && (now.ends == before.ends || (t !in before.links && now.ends == before.ends[t := Ends(gatewayIP, nodeIP)]))
      && before.up <= now.up <= before.up + {t}
      && before.routes <= now.routes <= before.routes + {Route(dst, Dev(t))}
      && (host.DestinationShown(before.routes, dst) ==> now.routes == before.routes)
      && ((exists r | r in before.routes :: r.dst == dst) ==> now.routes == before.routes)
      && (done ==>
          && t in now.links && t in now.up
          && (t !in before.links ==> t in now.ends && now.ends[t] == Ends(gatewayIP, nodeIP))
          && (Route(dst, Dev(t)) in now.routes || host.DestinationShown(before.routes, dst))
          && (Route(dst, Dev(t)) in now.routes <==>
              || Route(dst, Dev(t)) in before.routes
              || (!host.DestinationShown(before.routes, dst) && forall r | r in before.routes :: r.dst != dst)))
    }

    /** Fills the source set, marks, bypasses masquerading, and routes through a tunnel. Where no command
        fails at will, it succeeds exactly when the kernel does not refuse the tunnel or the route. */
    method AddRouteToGateway(setName: string, sourceIPs: seq<Ip>, dst: Cidr, gatewayIP: string) returns (r: Outcome)
      modifies host`sets, host`chains, host`links, host`ends, host`up, host`routes, host`faults
      ensures Ended(Program(AddRoute(setName, sourceIPs, dst)), old(host.Filter()), r, host.Filter())
      ensures host.Counted(r.Done?, true)
      ensures host.faults == old(host.faults) ==>
                host.Filter() == Full(old(host.Filter()), AddRoute(setName, sourceIPs, dst))
      ensures host.faults == old(host.faults) && Ready(old(host.Filter())) ==>
                (r.Done? <==> old(Reachable(dst, gatewayIP)))
      ensures Tunnelled(dst, gatewayIP, r.Done?, old(host.Ways()), host.Ways())
    {
      ghost var before := host.Filter();
      hide Program, Exec, Apply, Enabled;
      r := AddRules(setName, sourceIPs, dst);
      if r.Failed? { return; }
      ghost var now := host.Filter();
      r := RouteThroughTunnel(dst, gatewayIP);
      RouteEnd(before, setName, sourceIPs, dst, now);
      if r.Failed? { r := Failed(|sourceIPs| + 4 + r.at); }
    }

    /** The part that concerns the packet filter. */
    method AddRules(setName: string, sourceIPs: seq<Ip>, dst: Cidr) returns (r: Outcome)
      modifies host`sets, host`chains, host`faults
      ensures var prog, n := Program(AddRoute(setName, sourceIPs, dst)), |sourceIPs| + 4;
              && (r.Done? ==> Exec(prog, old(host.Filter()), n) == Progress(host.Filter(), n))
              && (r.Failed? ==> r.at < n && Ended(prog, old(host.Filter()), r, host.Filter()))
      ensures host.Counted(r.Done?, !Ready(old(host.Filter())))
      ensures r.Failed? && host.faults == old(host.faults) ==>
                host.Filter() == Full(old(host.Filter()), AddRoute(setName, sourceIPs, dst))
    {
      ghost var prog, before := Program(AddRoute(setName, sourceIPs, dst)), host.Filter();
      var n := |sourceIPs|;
      RouteCommands(setName, sourceIPs, dst);
      r := FillSet(host, prog, setName, sourceIPs);
      if r.Failed? { return; }
      hide Program, Exec;
      ghost var now := host.Filter();
      var ok := host.EnsureFirst(ManglePrerouting, MarkRule(setName, dst));
      if !ok {
        if host.faults == old(host.faults) { EndedUnfailing(prog, before, Failed(n + 2), host.Filter()); }
        return Failed(n + 2);
      }
      Step(prog, before, n + 2, now);
      now := host.Filter();
      ok := host.EnsureLast(NatBypass, AcceptRule(setName, dst));
      if !ok {
        if host.faults == old(host.faults) { EndedUnfailing(prog, before, Failed(n + 3), host.Filter()); }
        return Failed(n + 3);
      }
      Step(prog, before, n + 3, now);
      return Done;
    }

    /** A tunnel to the gateway unless one seems to be listed, and a route through it, likewise. */
    method RouteThroughTunnel(dst: Cidr, gatewayIP: string) returns (r: Outcome)
      modifies host`links, host`ends, host`up, host`routes, host`faults
      ensures r.Failed? ==> r.at < 3
      ensures host.Counted(r.Done?, !old(Reachable(dst, gatewayIP)))
      ensures r.Done? ==> old(Reachable(dst, gatewayIP))
      ensures Tunnelled(dst, gatewayIP, r.Done?, old(host.Ways()), host.Ways())
    {
      var tunnel := TunnelName(gatewayIP);
      var ok := host.EnsureTunnel(tunnel, Ends(gatewayIP, nodeIP));
      if !ok { return Failed(0); }
      ok := host.SetUp(tunnel);
      if !ok { return Failed(1); }
      ok := host.Try();
      if ok && !host.DestinationShown(host.routes, dst) {
        ok := host.AddRoute(Route(dst, Dev(tunnel)));
      }
      return if ok then Done else Failed(2);
    }

    /** The removal of the route is attempted only when the listing does not show the destination, and is
        then refused unless there is a route by way of the gateway's address. */
    predicate Unroutable(dst: Cidr, gatewayIP: string)
      reads host`routes
    {
      host.blockText(host.routes, dst) || Route(dst, Via(gatewayIP)) in host.routes
    }

    /** Removes the rules, tries to remove the route, and destroys the set unless the route step failed. */
    method DeleteRouteToGateway(setName: string, dst: Cidr, gatewayIP: string) returns (r: Outcome)
      modifies host`sets, host`chains, host`routes, host`faults
      ensures Ended(Program(DropRoute(setName, dst)), old(host.Filter()), r, host.Filter())
      ensures host.Counted(r.Done?, true)
      ensures host.faults == old(host.faults) ==>
                host.Filter() == After(old(host.Filter()), DropRoute(setName, dst),
                                       if old(Unroutable(dst, gatewayIP)) then 6 else 4)
      ensures old(host.routes) - {Route(dst, Via(gatewayIP))} <= host.routes <= old(host.routes)
      ensures host.blockText(old(host.routes), dst) ==> host.routes == old(host.routes)
    {
      ghost var prog, before := Program(DropRoute(setName, dst)), host.Filter();
      var ok := host.Create(setName);
      if !ok { return Failed(0); }
      Step(prog, before, 0, before);
      ghost var now := host.Filter();
      ok := host.Flush(setName);
      if !ok { return Failed(1); }
      Step(prog, before, 1, now);
      var o := RemoveRulesAndRoute(prog, before, 2, setName, dst, gatewayIP);
      if o.Failed? { return o; }
      now := host.Filter();
      ok := host.Destroy(setName);
      if !ok {
        if host.faults == old(host.faults) { EndedUnfailing(prog, before, Failed(5), host.Filter()); }
        return Failed(5);
      }
      Step(prog, before, 5, now);
      return Done;
    }

    /** The same without touching the set. */
    method ClearStaleRouteToGateway(setName: string, dst: Cidr, gatewayIP: string) returns (r: Outcome)
      modifies host`chains, host`routes, host`faults
      ensures Ended(Program(StaleRoute(setName, dst)), old(host.Filter()), r, host.Filter())
      ensures host.Counted(r.Done?, !old(Unroutable(dst, gatewayIP)))
      ensures r.Done? ==> old(Unroutable(dst, gatewayIP))
      ensures host.faults == old(host.faults) ==> host.Filter() == Full(old(host.Filter()), StaleRoute(setName, dst))
      ensures old(host.routes) - {Route(dst, Via(gatewayIP))} <= host.routes <= old(host.routes)
      ensures host.blockText(old(host.routes), dst) ==> host.routes == old(host.routes)
    {
      ghost var prog, before := Program(StaleRoute(setName, dst)), host.Filter();
      r := RemoveRulesAndRoute(prog, before, 0, setName, dst, gatewayIP);
      if host.faults == old(host.faults) && r.Failed? {
        Step(prog, before, 2, host.Filter());
      }
    }

    /** The part the two removals share: both rules, each behind an existence test, then the route. */
    method RemoveRulesAndRoute(ghost prog: seq<Cmd>, ghost before: Config, at: nat, setName: string, dst: Cidr,
                               gatewayIP: string)
      returns (r: Outcome)
      requires at + 3 <= |prog|
      requires prog[at] == DeletePresent(ManglePrerouting, MarkRule(setName, dst))
      requires prog[at + 1] == DeletePresent(NatBypass, AcceptRule(setName, dst)) && prog[at + 2] == LinkStep
      requires Exec(prog, before, at) == Progress(host.Filter(), at)
      modifies host`chains, host`routes, host`faults
      ensures r.Done? ==> Exec(prog, before, at + 3) == Progress(host.Filter(), at + 3)
      ensures r.Failed? ==> r.at < at + 3 && Exec(prog, before, r.at) == Progress(host.Filter(), r.at)
      ensures host.Counted(r.Done?, r == Failed(at + 2) && !old(Unroutable(dst, gatewayIP)))
      ensures r.Done? ==> old(Unroutable(dst, gatewayIP))
      ensures old(host.routes) - {Route(dst, Via(gatewayIP))} <= host.routes <= old(host.routes)
      ensures host.blockText(old(host.routes), dst) ==> host.routes == old(host.routes)
    {
      ghost var now := host.Filter();
      var ok := host.DeleteIfPresent(ManglePrerouting, MarkRule(setName, dst));
      if !ok { return Failed(at); }
      Step(prog, before, at, now);
      now := host.Filter();
      ok := host.DeleteIfPresent(NatBypass, AcceptRule(setName, dst));
      if !ok { return Failed(at + 1); }
      Step(prog, before, at + 1, now);
      ok := host.Try();
      if ok && !host.blockText(host.routes, dst) {
        ok := host.DeleteRoute(Route(dst, Via(gatewayIP)));
      }
      if !ok { return Failed(at + 2); }
      Step(prog, before, at + 2, host.Filter());
      return Done;
    }
  }
}
