/** The controller of a node: it hears of changes to the resources and keeps the node in its role. */
module Controllers {
  import opened Base
  import opened Net
  import opened Netfilter
  import opened Programs
  import opened Hosts
  import opened Names
  import opened Endpoints
  import opened Resources
  import opened Directors
  import opened Gateways

  /** Namespace and name of a resource. */
  datatype Key = Key(space: string, name: string)

  datatype Resource = Resource(key: Key, rules: seq<EgressRule>, status: Status)

  function Ids(sha: string -> Digest, r: Resource): (ids: seq<string>)
    ensures |ids| == |r.rules|
    ensures forall i | 0 <= i < |ids| :: ids[i] == GenerateRuleId(sha, r.key.space, r.key.name, i)
  {
    seq(|r.rules|, i requires 0 <= i < |r.rules| => GenerateRuleId(sha, r.key.space, r.key.name, i))
  }

  /** The endpoints of every service of every namespace. */
  type Services = (string, string) -> Endpoints

  /** The addresses of the nodes, as far as they can be found. */
  type NodeIPs = string -> Option<string>

  function SourceLists(r: Resource, services: Services): (ips: seq<seq<Ip>>)
    ensures |ips| == |r.rules|
    ensures forall i | 0 <= i < |ips| :: ips[i] == Collected(services(r.key.space, r.rules[i].service))
  {
    seq(|r.rules|, i requires 0 <= i < |r.rules| => Collected(services(r.key.space, r.rules[i].service)))
  }

  function Text(ip: Ip): string {
    Dotted(ip / 0x100_0000, ip / 0x1_0000 % 0x100, ip / 0x100 % 0x100, ip % 0x100)
  }

  lemma TextOfOctets(a: Byte, b: Byte, c: Byte, d: Byte)
    ensures Text(Address4(a, b, c, d)) == Dotted(a, b, c, d)
  {
    hide Dotted, Address4;
    Octets(a, b, c, d);
  }

  // ---- What a log of outcomes says ----

  /** The operations a method got to, each with the outcome it logged. */
  function Logged(ops: seq<Op>, log: seq<Outcome>): (atts: seq<Attempt>)
    requires |log| <= |ops|
    ensures |atts| == |log|
    ensures forall i | 0 <= i < |log| :: atts[i] == Attempt(ops[i], Budget(Program(ops[i]), log[i]))
  {
    seq(|log|, i requires 0 <= i < |log| => Attempt(ops[i], Budget(Program(ops[i]), log[i])))
  }

  lemma LoggedNone(cfg: Config, ops: seq<Op>)
    ensures RunAll(cfg, Logged(ops, [])) == cfg
  {
  }

  lemma LoggedSnoc(cfg: Config, ops: seq<Op>, log: seq<Outcome>, op: Op, o: Outcome)
    requires |log| == |ops|
    ensures RunAll(cfg, Logged(ops + [op], log + [o]))
        == After(RunAll(cfg, Logged(ops, log)), op, Budget(Program(op), o))
  {
    var att := Attempt(op, Budget(Program(op), o));
    assert Logged(ops + [op], log + [o]) == Logged(ops, log) + [att];
    RunSnoc(cfg, Logged(ops, log), att);
  }

  /** The operations as far as they are logged have led from `before` to `after`, each up to its outcome;
      and if nothing failed at will, they left what they leave. */
  ghost predicate Went(ops: seq<Op>, log: seq<Outcome>, before: Config, calm: bool, after: Config) {
    && |log| <= |ops|
    && after == RunAll(before, Logged(ops, log))
    && (calm ==> after == SyncAll(before, ops[..|log|]))
  }

  lemma WentNone(ops: seq<Op>, cfg: Config)
    ensures Went(ops, [], cfg, true, cfg)
  {
    LoggedNone(cfg, ops);
    assert ops[..0] == [];
  }

  /** One more operation has ended. */
  lemma WentMore(ops: seq<Op>, log: seq<Outcome>, before: Config, calm: bool, now: Config, op: Op, o: Outcome,
                 still: bool, next: Config)
    requires |log| == |ops| && Went(ops, log, before, calm, now) && Ended(Program(op), now, o, next)
    requires still ==> calm && next == Full(now, op)
    ensures Went(ops + [op], log + [o], before, still, next)
  {
    hide RunAll, SyncAll, Exec, Program, Full;
    LoggedSnoc(before, ops, log, op, o);
    SyncSnoc(before, ops, op);
    assert ops[..|log|] == ops;
    assert (ops + [op])[..|log + [o]|] == ops + [op];
  }

  /** The next operation of a list has ended. */
  lemma WentNext(ops: seq<Op>, log: seq<Outcome>, before: Config, calm: bool, now: Config, o: Outcome, still: bool,
                 next: Config)
    requires |log| < |ops| && Went(ops, log, before, calm, now) && Ended(Program(ops[|log|]), now, o, next)
    requires still ==> calm && next == Full(now, ops[|log|])
    ensures Went(ops, log + [o], before, still, next)
  {
    hide RunAll, SyncAll, Exec, Program, Full;
    var first, op := ops[..|log|], ops[|log|];
    assert first[..|log|] == first;
    assert Logged(first, log) == Logged(ops, log);
    WentMore(first, log, before, calm, now, op, o, still, next);
    assert first + [op] == ops[..|log| + 1] && |log + [o]| == |log| + 1;
    assert (first + [op])[..|log + [o]|] == first + [op];
    assert Logged(first + [op], log + [o]) == Logged(ops, log + [o]);
  }

  lemma WentCalm(ops: seq<Op>, log: seq<Outcome>, before: Config, calm: bool, now: Config)
    requires Went(ops, log, before, calm, now)
    ensures Went(ops, log, before, false, now)
  {
  }

  /** An operation that ended with no failure but a refusal left what it leaves. */
  lemma EndedFull(now: Config, op: Op, o: Outcome, next: Config)
    requires Ended(Program(op), now, o, next) && Refused(Program(op), o, next)
    ensures next == Full(now, op)
  {
    EndedUnfailing(Program(op), now, o, next);
  }

  lemma DropSize(id: string, dst: Cidr)
    ensures |Program(DropRoute(id, dst))| == 6
  {
  }

  // ---- The controller ----

  /** The rules `was` and `isNow` speak of the node before and after the change. */
  function Handled(acts: bool, was: bool, isNow: bool, ids: seq<string>, rules: seq<EgressRule>): seq<Op>
    requires |ids| == |rules|
  {
    if acts then HandlerOps(was, isNow, ids, rules, |rules|) else []
  }

  function EgressIPs(rules: seq<EgressRule>): set<Ip> {
    set r | r in rules :: r.egressIP
  }

  lemma EgressIPsGrow(rules: seq<EgressRule>, i: nat)
    requires i < |rules|
    ensures EgressIPs(rules[..i + 1]) == EgressIPs(rules[..i]) + {rules[i].egressIP}
    ensures rules[i].egressIP in EgressIPs(rules)
  {
    assert rules[..i + 1] == rules[..i] + [rules[i]];
  }

  /** The tunnel to the node of an endpoint, unless that is this node or its address is unknown. */
  function Tunnel(a: Address, nodes: NodeIPs, nodeIP: string): set<string> {
    if nodes(a.node).Some? && nodes(a.node).value != nodeIP then {TunnelName(nodes(a.node).value)} else {}
  }

  ghost function Tunnels(subsets: Endpoints, nodes: NodeIPs, nodeIP: string): set<string> {
    set s, a, l | s in subsets && s.ports != [] && a in s.addresses && l in Tunnel(a, nodes, nodeIP) :: l
  }

  lemma NoEgressIPs(rules: seq<EgressRule>)
    ensures EgressIPs(rules[..0]) == {}
  {
  }

  lemma TunnelOf(subsets: Endpoints, nodes: NodeIPs, nodeIP: string, s: Subset, a: Address)
    requires s in subsets && s.ports != [] && a in s.addresses
    ensures Tunnel(a, nodes, nodeIP) <= Tunnels(subsets, nodes, nodeIP)
  {
  }

  lemma TunnelsGrow(subsets: Endpoints, s: nat, nodes: NodeIPs, nodeIP: string)
    requires s < |subsets|
    ensures Tunnels(subsets[..s + 1], nodes, nodeIP)
        == Tunnels(subsets[..s], nodes, nodeIP) + Tunnels([subsets[s]], nodes, nodeIP)
    ensures Tunnels([subsets[s]], nodes, nodeIP) <= Tunnels(subsets, nodes, nodeIP)
    ensures Collected(subsets[..s + 1]) == Collected(subsets[..s]) + PerPort(subsets[s].addresses, |subsets[s].ports|)
  {
    assert subsets[..s + 1][..s] == subsets[..s];
    assert subsets[..s + 1] == subsets[..s] + [subsets[s]];
  }

  /** Only tunnels that were asked for have been added, each with the ends its name says, and only routes
      through them. */
  ghost predicate Grown(before: Network, now: Network, tunnels: set<string>, local: string) {
    && before.links <= now.links <= before.links + tunnels
    && before.up <= now.up <= before.up + tunnels
    && before.routes <= now.routes && RoutesKept(before.routes, now.routes)
    && (forall r | r in now.routes - before.routes :: r.hop.Dev? && r.hop.link in tunnels)
    && (forall t | t in before.ends :: t in now.ends)
    && forall t | t in now.ends ::
         || (t in before.ends && now.ends[t] == before.ends[t])
         || (t !in before.links && now.ends[t].local == local && TunnelName(now.ends[t].remote) == t)
  }

  lemma GrownNone(network: Network, tunnels: set<string>, local: string)
    ensures Grown(network, network, tunnels, local)
  {
  }

  lemma NothingRouted(routes: set<Route>)
    ensures RoutesKept(routes, routes)
  {
  }

  lemma GrownTwice(before: Network, net: Network, now: Network, tunnels: set<string>, more: set<string>, local: string)
    requires Grown(before, net, tunnels, local) && Grown(net, now, more, local) && more <= tunnels
    ensures Grown(before, now, tunnels, local)
    ensures net.links <= now.links && net.up <= now.up && before.routes <= net.routes <= now.routes
    ensures before.links <= net.links
  {
    RoutesKeptTwice(before.routes, net.routes, now.routes);
  }

  class Controller {
    const host: Host
    const director: EgressDirector
    const gateway: EgressGateway
    const uid: string
    const nodeIP: string
    const sha: string -> Digest
    var pending: set<Key>

    constructor (host: Host, uid: string, nodeIP: string, sha: string -> Digest)
      ensures Valid() && pending == {}
      ensures this.host == host && this.uid == uid && this.nodeIP == nodeIP && this.sha == sha
    {
      this.host, this.uid, this.nodeIP, this.sha := host, uid, nodeIP, sha;
      this.director := new EgressDirector(host, nodeIP);
      this.gateway := new EgressGateway(host);
      pending := {};
    }

    predicate Valid() {
      director.host == host && director.nodeIP == nodeIP && gateway.host == host
    }

    /** Gateway setup, then director setup; either failure is fatal. */
    method Start() returns (ok: bool)
      requires Valid()
      modifies host`chains, host`tableNamed, host`lookups, host`faults
      ensures ok ==>
                var first := Exec(Gateways.SetupProgram(), old(host.Filter()), 4).cfg;
                host.Filter() == Exec(Directors.SetupProgram(), first, 4).cfg
      ensures ok ==> host.tableNamed
      ensures ok ==> host.lookups == if old(host.lookups) == {} then {1000} else old(host.lookups)
      ensures {NatPostrouting, FilterForward} <= old(host.chains.Keys) && host.faults == old(host.faults) ==> ok
    {
      ghost var before := host.Filter();
      var r := gateway.Setup();
      if host.faults == old(host.faults) && {NatPostrouting, FilterForward} <= before.chains.Keys {
        Gateways.SetupNotRefused(before, r, host.Filter());
        ExecKeepsChains(Gateways.SetupProgram(), before, 4);
      }
      if r.Failed? { return false; }
      before := host.Filter();
      r := director.Setup();
      if host.faults == old(host.faults) && NatPostrouting in before.chains {
        Directors.SetupNotRefused(before, r, host.Filter());
      }
      return r.Done?;
    }

    /** Whether this node is the gateway the status names; false when the node cannot be looked up. */
    method IsEgressGateway(status: Status) returns (ok: bool, isGateway: bool)
      modifies host`faults
      ensures host.Counted(ok, false)
      ensures isGateway == (ok && status.node == uid)
    {
      ok := host.Try();
      isGateway := ok && status.node == uid;
    }

    // ---- The worker ----

    /** Takes a key, and puts it back when the resource could not be processed. */
    method ProcessNextWorkItem(key: Key, lister: map<Key, Resource>, services: Services, nodes: NodeIPs)
      returns (ok: bool, log: seq<Outcome>)
      requires Valid() && key in pending
      modifies this`pending, host
      ensures pending == if ok then old(pending) - {key} else old(pending)
      ensures key !in lister ==> ok && host.Filter() == old(host.Filter())
      ensures key in lister ==> Processed(lister[key], services, ok, log)
      ensures RoutesKept(old(host.routes), host.routes)
      ensures key in lister && lister[key].status.node == "" ==> ok
      ensures !ok && host.faults == old(host.faults) ==>
                && key in lister && lister[key].status.node == uid && |log| < |lister[key].rules|
                && AnyBarred(services(lister[key].key.space, lister[key].rules[|log|].service), nodes, host.Ways())
    {
      pending := pending - {key};
      ok, log := SyncHandler(key, lister, services, nodes);
      if !ok {
        pending := pending + {key};
      }
    }

    /** The operations the status of a resource asks this node for. */
    function Asked(r: Resource, services: Services): seq<Op> {
      PassOps(uid, r.status, Ids(sha, r), r.rules, SourceLists(r, services))
    }

    /** A pass ran the operations of the node's role, all of them if it reports success, whatever became of
        each; and if no command failed but those the kernel refused, it left what the operations leave. */
    twostate predicate Processed(r: Resource, services: Services, ok: bool, log: seq<Outcome>)
      reads host
    {
      && host.faults >= old(host.faults)
      && Went(Asked(r, services), log, old(host.Filter()), ok && host.faults == old(host.faults), host.Filter())
      && (ok ==> |log| == |Asked(r, services)|)
    }

    /** Stops at the first rule whose tunnels cannot be had, and at a node that cannot be looked up. */
    method SyncHandler(key: Key, lister: map<Key, Resource>, services: Services, nodes: NodeIPs)
      returns (ok: bool, log: seq<Outcome>)
      requires Valid()
      modifies host
      ensures key !in lister ==> ok && host.Filter() == old(host.Filter())
      ensures key in lister ==> Processed(lister[key], services, ok, log)
      ensures RoutesKept(old(host.routes), host.routes)
      ensures key in lister && lister[key].status.node == "" ==> ok
      ensures !ok && host.faults == old(host.faults) ==>
                && key in lister && lister[key].status.node == uid && |log| < |lister[key].rules|
                && AnyBarred(services(lister[key].key.space, lister[key].rules[|log|].service), nodes, host.Ways())
    {
      ok, log := true, [];
      if key !in lister { return; }
      var r := lister[key];
      WentNone(Asked(r, services), host.Filter());
      if r.status.node == "" { return; }
      var isGateway;
      ok, isGateway := IsEgressGateway(r.status);
      if !ok { return; }
      if isGateway {
        ok, log := DoGatewayProcessing(r, services, nodes);
      } else {
        log := DoDirectorProcessing(r, services);
      }
    }

    /** A route that was asked for is in the table, unless the listing showed its destination at some time
        between the two. */
    ghost predicate Led(before: set<Route>, route: Route, now: set<Route>) {
      route in now || exists t: set<Route> :: before <= t <= now && host.DestinationShown(t, route.dst)
    }

    /** What the logged additions of a director have made of the network. */
    ghost predicate Connected(rules: seq<EgressRule>, gatewayIP: string, log: seq<Outcome>, before: Network,
                              now: Network)
      requires |log| <= |rules|
    {
      var t := TunnelName(gatewayIP);
      && Grown(before, now, {t}, nodeIP)
      && ((forall rule | rule in rules :: host.DestinationShown(before.routes, rule.cidr)) ==>
          now.routes == before.routes)
      && forall i | 0 <= i < |log| && log[i].Done? ::
           t in now.links && t in now.up && Led(before.routes, Route(rules[i].cidr, Dev(t)), now.routes)
    }

    lemma ConnectedMore(rules: seq<EgressRule>, gatewayIP: string, log: seq<Outcome>, before: Network, now: Network,
                        o: Outcome, next: Network)
      requires Valid() && |log| < |rules| && Connected(rules, gatewayIP, log, before, now)
      requires director.Tunnelled(rules[|log|].cidr, gatewayIP, o.Done?, now, next)
      ensures Connected(rules, gatewayIP, log + [o], before, next)
    {
    }

    /** Failures are logged and swallowed: the pass goes on with the next rule and reports success. */
    method DoDirectorProcessing(r: Resource, services: Services) returns (log: seq<Outcome>)
      requires Valid() && r.status.node != "" && r.status.node != uid
      modifies host`sets, host`chains, host`links, host`ends, host`up, host`routes, host`faults
      ensures Processed(r, services, true, log)
      ensures |log| <= |r.rules| && Connected(r.rules, r.status.ip, log, old(host.Ways()), host.Ways())
    {
      hide Went, Connected, Ended, Full;
      log := [];
      ghost var before, network, ops := host.Filter(), host.Ways(), Asked(r, services);
      WentNone(ops, before);
      ConnectedNone(r.rules, r.status.ip, network);
      if r.status.ip == "" { return; }
      for i := 0 to |r.rules|
        invariant |log| == i
        invariant host.faults >= old(host.faults)
        invariant Went(ops, log, before, host.faults == old(host.faults), host.Filter())
        invariant Connected(r.rules, r.status.ip, log, network, host.Ways())
      {
        ghost var calm, now, net := host.faults == old(host.faults), host.Filter(), host.Ways();
        var ips := CollectSources(services(r.key.space, r.rules[i].service));
        var id := GenerateRuleId(sha, r.key.space, r.key.name, i);
        var o := director.AddRouteToGateway(id, ips, r.rules[i].cidr, r.status.ip);
        WentNext(ops, log, before, calm, now, o, host.faults == old(host.faults), host.Filter());
        ConnectedMore(r.rules, r.status.ip, log, network, net, o, host.Ways());
        log := log + [o];
      }
    }

    lemma ConnectedNone(rules: seq<EgressRule>, gatewayIP: string, network: Network)
      ensures Connected(rules, gatewayIP, [], network, network)
    {
    }

    /** A tunnel step that fails ends the pass, before the rule at hand is added. */
    method DoGatewayProcessing(r: Resource, services: Services, nodes: NodeIPs) returns (ok: bool, log: seq<Outcome>)
      requires Valid() && r.status.node != "" && r.status.node == uid
      modifies host`sets, host`chains, host`links, host`ends, host`up, host`routes, host`addrs, host`faults
      ensures Processed(r, services, ok, log)
      ensures ok ==> forall i | 0 <= i < |r.rules| ::
          AllJoined(services(r.key.space, r.rules[i].service), nodes, old(host.Ways()), host.Ways())
      ensures !ok && host.faults == old(host.faults) ==>
                && |log| < |r.rules|
                && AnyBarred(services(r.key.space, r.rules[|log|].service), nodes, host.Ways())
      ensures old(host.links) <= host.links && old(host.routes) <= host.routes
      ensures RoutesKept(old(host.routes), host.routes)
      ensures old(host.addrs) <= host.addrs <= old(host.addrs) + EgressIPs(r.rules)
      ensures ok && host.faults == old(host.faults) ==> host.addrs == old(host.addrs) + EgressIPs(r.rules)
    {
      hide Went, AllJoined, AnyBarred, RoutesKept, EgressIPs, Ended, Full, Program, GenerateRuleId, Collected;
      log := [];
      ghost var before, network, ops := host.Filter(), host.Ways(), Asked(r, services);
      WentNone(ops, before);
      NoEgressIPs(r.rules);
      NothingRouted(host.routes);
      for i := 0 to |r.rules|
        invariant |log| == i
        invariant host.faults >= old(host.faults)
        invariant Went(ops, log, before, host.faults == old(host.faults), host.Filter())
        invariant forall j | 0 <= j < i ::
                    AllJoined(services(r.key.space, r.rules[j].service), nodes, network, host.Ways())
        invariant old(host.links) <= host.links && old(host.routes) <= host.routes
        invariant RoutesKept(old(host.routes), host.routes)
        invariant old(host.addrs) <= host.addrs <= old(host.addrs) + EgressIPs(r.rules)
        invariant host.faults == old(host.faults) ==> host.addrs == old(host.addrs) + EgressIPs(r.rules[..i])
      {
        ghost var calm, now, net := host.faults == old(host.faults), host.Filter(), host.Ways();
        EgressIPsGrow(r.rules, i);
        var ips;
        ok, ips := CollectBehindTunnels(services(r.key.space, r.rules[i].service), nodes);
        RoutesKeptTwice(network.routes, net.routes, host.routes);
        if !ok {
          WentCalm(ops, log, before, calm, host.Filter());
          return;
        }
        forall j | 0 <= j <= i
          ensures AllJoined(services(r.key.space, r.rules[j].service), nodes, network, host.Ways())
        {
          AllWithin(services(r.key.space, r.rules[j].service), nodes, if j < i then network else net,
                    if j < i then net else host.Ways(), network, host.Ways());
        }
        var o := StartGateway(GenerateRuleId(sha, r.key.space, r.key.name, i), ips, r.rules[i]);
        WentNext(ops, log, before, calm, now, o, host.faults == old(host.faults), host.Filter());
        log := log + [o];
      }
      assert r.rules[..|r.rules|] == r.rules;
      ok := true;
    }

    /** The rules, then the egress address; the outcomes of both are only logged. */
    method StartGateway(id: string, ips: seq<Ip>, rule: EgressRule) returns (o: Outcome)
      requires Valid()
      modifies host`sets, host`chains, host`addrs, host`faults
      ensures Ended(Program(AddSnat(id, ips, rule.cidr, rule.egressIP)), old(host.Filter()), o, host.Filter())
      ensures host.faults >= old(host.faults)
      ensures old(host.addrs) <= host.addrs <= old(host.addrs) + {rule.egressIP}
      ensures host.faults == old(host.faults) ==>
                && host.Filter() == Full(old(host.Filter()), AddSnat(id, ips, rule.cidr, rule.egressIP))
                && host.addrs == old(host.addrs) + {rule.egressIP}
    {
      ghost var before := host.Filter();
      o := gateway.AddStaticIptablesRule(id, ips, rule.cidr, rule.egressIP);
      if host.faults == old(host.faults) {
        EndedFull(before, AddSnat(id, ips, rule.cidr, rule.egressIP), o, host.Filter());
      }
      var added := host.AddAddress(rule.egressIP);
    }

    /** Collects the addresses of a service and connects their nodes; a node whose address cannot be
        found stays unconnected, its endpoints are collected all the same. */
    method CollectBehindTunnels(subsets: Endpoints, nodes: NodeIPs) returns (ok: bool, ips: seq<Ip>)
      modifies host`links, host`ends, host`up, host`routes, host`faults
      ensures ok ==> ips == Collected(subsets) && AllJoined(subsets, nodes, old(host.Ways()), host.Ways())
      ensures !ok && host.faults == old(host.faults) ==> AnyBarred(subsets, nodes, host.Ways())
      ensures Grown(old(host.Ways()), host.Ways(), Tunnels(subsets, nodes, nodeIP), nodeIP)
      ensures host.faults >= old(host.faults)
    {
      hide Grown, Joined, AllJoined, Barred, Collected, PerPort;
      ips := [];
      ghost var network, tunnels := host.Ways(), Tunnels(subsets, nodes, nodeIP);
      GrownNone(network, tunnels, nodeIP);
      NoneJoined(subsets, nodes, network);
      for s := 0 to |subsets|
        invariant ips == Collected(subsets[..s])
        invariant AllJoined(subsets[..s], nodes, network, host.Ways())
        invariant Grown(network, host.Ways(), tunnels, nodeIP)
        invariant host.faults >= old(host.faults)
      {
        ghost var net := host.Ways();
        var more;
        ok, more := CollectSubset(subsets[s], nodes);
        TunnelsGrow(subsets, s, nodes, nodeIP);
        GrownTwice(network, net, host.Ways(), tunnels, Tunnels([subsets[s]], nodes, nodeIP), nodeIP);
        if !ok { return; }
        JoinedMore(subsets, s, nodes, network, net, host.Ways());
        ips := ips + more;
      }
      assert subsets[..|subsets|] == subsets;
      ok := true;
    }

    method CollectSubset(subset: Subset, nodes: NodeIPs) returns (ok: bool, ips: seq<Ip>)
      modifies host`links, host`ends, host`up, host`routes, host`faults
      ensures ok ==> ips == PerPort(subset.addresses, |subset.ports|)
      ensures ok ==> AllJoined([subset], nodes, old(host.Ways()), host.Ways())
      ensures !ok && host.faults == old(host.faults) ==> AnyBarred([subset], nodes, host.Ways())
      ensures Grown(old(host.Ways()), host.Ways(), Tunnels([subset], nodes, nodeIP), nodeIP)
      ensures host.faults >= old(host.faults)
    {
      hide Grown, Joined, Barred, Tunnels;
      ips := [];
      var addresses := subset.addresses;
      ghost var network, tunnels := host.Ways(), Tunnels([subset], nodes, nodeIP);
      GrownNone(network, tunnels, nodeIP);
      for p := 0 to |subset.ports|
        invariant ips == PerPort(addresses, p)
        invariant p > 0 ==> forall a | a in addresses :: Joined(a, nodes, network, host.Ways())
        invariant Grown(network, host.Ways(), tunnels, nodeIP)
        invariant host.faults >= old(host.faults)
      {
        ghost var outer := ips;
        for a := 0 to |addresses|
          invariant ips == outer + Ips(addresses)[..a]
          invariant forall b | 0 <= b < a :: Joined(addresses[b], nodes, network, host.Ways())
          invariant Grown(network, host.Ways(), tunnels, nodeIP)
          invariant host.faults >= old(host.faults)
        {
          ghost var net := host.Ways();
          ips := ips + [addresses[a].ip];
          ok := Connect(addresses[a], nodes);
          TunnelOf([subset], nodes, nodeIP, subset, addresses[a]);
          GrownTwice(network, net, host.Ways(), tunnels, Tunnel(addresses[a], nodes, nodeIP), nodeIP);
          if !ok { return; }
          forall b | 0 <= b <= a ensures Joined(addresses[b], nodes, network, host.Ways()) {
            JoinedWithin(addresses[b], nodes, if b < a then network else net,
                         if b < a then net else host.Ways(), network, host.Ways());
          }
        }
        assert Ips(addresses)[..|addresses|] == Ips(addresses);
      }
      ok := true;
    }

    /** The node of an endpoint is unknown or this one, or there is a tunnel to it that is up, and a route
        through it, unless the listing showed the endpoint at some time between the two. */
    ghost predicate Joined(a: Address, nodes: NodeIPs, before: Network, now: Network) {
      forall t | t in Tunnel(a, nodes, nodeIP) ::
        && t in now.links && t in now.up
        && (Route(HostCidr(a.ip), Dev(t)) in now.routes
            || exists table: set<Route> :: before.routes <= table <= now.routes && host.addressText(table, a.ip))
    }

    ghost predicate AllJoined(subsets: Endpoints, nodes: NodeIPs, before: Network, now: Network) {
      forall s, a | s in subsets && s.ports != [] && a in s.addresses :: Joined(a, nodes, before, now)
    }

    /** The kernel refuses the tunnel of an endpoint, or its route: other text of the listing looks like the
        tunnel, or the listing of the table does not show the route there is. */
    ghost predicate Barred(a: Address, nodes: NodeIPs, now: Network) {
      exists t | t in Tunnel(a, nodes, nodeIP) ::
        || (t !in now.links && host.linkText(now.links, t))
        || (!host.addressText(now.routes, a.ip) && exists r | r in now.routes :: r.dst == HostCidr(a.ip))
    }

    ghost predicate AnyBarred(subsets: Endpoints, nodes: NodeIPs, now: Network) {
      exists s, a | s in subsets && s.ports != [] && a in s.addresses :: Barred(a, nodes, now)
    }

    lemma JoinedWithin(a: Address, nodes: NodeIPs, from: Network, to: Network, before: Network, now: Network)
      requires Joined(a, nodes, from, to) && before.routes <= from.routes
      requires to.links <= now.links && to.up <= now.up && to.routes <= now.routes
      ensures Joined(a, nodes, before, now)
    {
    }

    lemma NoneJoined(subsets: Endpoints, nodes: NodeIPs, network: Network)
      ensures AllJoined(subsets[..0], nodes, network, network) && Collected(subsets[..0]) == []
    {
    }

    lemma AllWithin(subsets: Endpoints, nodes: NodeIPs, from: Network, to: Network, before: Network, now: Network)
      requires AllJoined(subsets, nodes, from, to) && before.routes <= from.routes
      requires to.links <= now.links && to.up <= now.up && to.routes <= now.routes
      ensures AllJoined(subsets, nodes, before, now)
    {
      forall s, a | s in subsets && s.ports != [] && a in s.addresses ensures Joined(a, nodes, before, now) {
        JoinedWithin(a, nodes, from, to, before, now);
      }
    }

    lemma JoinedMore(subsets: Endpoints, s: nat, nodes: NodeIPs, before: Network, net: Network, now: Network)
      requires s < |subsets| && AllJoined(subsets[..s], nodes, before, net)
      requires AllJoined([subsets[s]], nodes, net, now) && before.routes <= net.routes
      requires net.links <= now.links && net.up <= now.up && net.routes <= now.routes
      ensures AllJoined(subsets[..s + 1], nodes, before, now)
    {
      hide Joined;
      AllWithin(subsets[..s], nodes, before, net, before, now);
      AllWithin([subsets[s]], nodes, net, now, before, now);
      assert subsets[..s + 1] == subsets[..s] + [subsets[s]];
    }

    /** One endpoint. */
    method Connect(a: Address, nodes: NodeIPs) returns (ok: bool)
      modifies host`links, host`ends, host`up, host`routes, host`faults
      ensures ok ==> Joined(a, nodes, old(host.Ways()), host.Ways())
      ensures host.Counted(ok, Barred(a, nodes, host.Ways()))
      ensures Grown(old(host.Ways()), host.Ways(), Tunnel(a, nodes, nodeIP), nodeIP)
      ensures nodes(a.node).None? ==> ok
      ensures forall x | x in host.routes - old(host.routes) ::
                nodes(a.node).Some? && x == Route(HostCidr(a.ip), Dev(TunnelName(nodes(a.node).value)))
      ensures forall t | t in host.links - old(host.links) ::
                nodes(a.node).Some? && t in host.ends && host.ends[t] == Ends(nodes(a.node).value, nodeIP)
    {
      if nodes(a.node).None? { return true; }
      var remote := nodes(a.node).value;
      var tunnel := TunnelName(remote);
      ok := host.Try();
      if !ok || remote == nodeIP { return; }
      if !host.LinkShown(tunnel) {
        ok := host.AddTunnel(tunnel, Ends(remote, nodeIP));
        if !ok { return; }
      }
      ok := host.SetUp(tunnel);
      if !ok { return; }
      ok := host.Try();
      if ok && !host.addressText(host.routes, a.ip) {
        ok := host.AddRoute(Route(HostCidr(a.ip), Dev(tunnel)));
      }
    }

    // ---- The event handlers ----

    method AddStaticEgressIP(r: Resource)
      modifies this`pending
      ensures pending == old(pending) + {r.key}
    {
      pending := pending + {r.key};
    }

    /** When one assigned gateway replaces another, the node drops the rules of the role it leaves. */
    method UpdateStaticEgressIP(before: Resource, now: Resource)
      returns (wasFound: bool, isFound: bool, log: seq<Outcome>)
      requires Valid()
      modifies this`pending, host`sets, host`chains, host`routes, host`addrs, host`faults
      ensures var ids := Ids(sha, before);
              var acts := before.status.node != "" && now.status.node != "" && before.status.node != now.status.node;
              var was, isNow := wasFound && before.status.node == uid, isFound && now.status.node == uid;
              var ops := Handled(acts, was, isNow, ids, before.rules);
              && Left(if acts && (was || isNow) then EgressIPs(before.rules) else {}, ops, log)
              && (wasFound && isFound ==> ops == UpdateOps(uid, before.status, now.status, ids, before.rules))
              && (host.faults == old(host.faults) ==> wasFound && isFound)
      ensures pending == old(pending) + {now.key}
    {
      hide Went;
      wasFound, isFound, log := true, true, [];
      WentNone([], host.Filter());
      if before.status.node != "" && now.status.node != "" && before.status.node != now.status.node {
        var was, isNow;
        wasFound, was := IsEgressGateway(before.status);
        isFound, isNow := IsEgressGateway(now.status);
        ghost var calm, filter := host.faults, host.Filter();
        log := LeaveRoles(before, was, isNow);
        WentCalm(HandlerOps(was, isNow, Ids(sha, before), before.rules, |before.rules|), log, filter,
                 host.faults == calm, host.Filter());
      }
      pending := pending + {now.key};
    }

    /** All operations were run, each up to its outcome, and no address was removed but `ips`; if no command
        failed but those the kernel refused, the operations left what they leave, and all `ips` are gone. */
    twostate predicate Left(ips: set<Ip>, ops: seq<Op>, log: seq<Outcome>)
      reads host
    {
      && |log| == |ops|
      && host.faults >= old(host.faults)
      && Went(ops, log, old(host.Filter()), host.faults == old(host.faults), host.Filter())
      && RoutesKept(old(host.routes), host.routes)
      && old(host.addrs) - ips <= host.addrs <= old(host.addrs)
      && (host.faults == old(host.faults) ==> host.addrs == old(host.addrs) - ips)
    }

    method LeaveRoles(r: Resource, was: bool, isNow: bool) returns (log: seq<Outcome>)
      requires Valid()
      modifies host`sets, host`chains, host`routes, host`addrs, host`faults
      ensures Left(if was || isNow then EgressIPs(r.rules) else {},
                   HandlerOps(was, isNow, Ids(sha, r), r.rules, |r.rules|), log)
    {
      hide Went, EgressIPs, Ended, Full, GenerateRuleId, RoutesKept;
      NothingRouted(host.routes);
      log := [];
      ghost var before, ids, ops := host.Filter(), Ids(sha, r), [];
      WentNone(ops, before);
      NoEgressIPs(r.rules);
      for i := 0 to |r.rules|
        invariant ops == HandlerOps(was, isNow, ids, r.rules, i)
        invariant Left(if was || isNow then EgressIPs(r.rules[..i]) else {}, ops, log)
      {
        var id, rule := GenerateRuleId(sha, r.key.space, r.key.name, i), r.rules[i];
        EgressIPsGrow(r.rules, i);
        if was {
          ghost var calm, now, routes := host.faults == old(host.faults), host.Filter(), host.routes;
          var o := StopGateway(id, rule);
          RoutesKeptTwice(old(host.routes), routes, host.routes);
          ghost var op := ClearSnat(id, rule.cidr, rule.egressIP);
          WentMore(ops, log, before, calm, now, op, o, host.faults == old(host.faults), host.Filter());
          ops, log := ops + [op], log + [o];
        }
        if isNow {
          ghost var calm, now, routes := host.faults == old(host.faults), host.Filter(), host.routes;
          var o := StopDirector(id, rule);
          RoutesKeptTwice(old(host.routes), routes, host.routes);
          ghost var op := StaleRoute(id, rule.cidr);
          WentMore(ops, log, before, calm, now, op, o, host.faults == old(host.faults), host.Filter());
          ops, log := ops + [op], log + [o];
        }
      }
      assert r.rules[..|r.rules|] == r.rules;
    }

    /** What the node was a gateway for: the rules, then the egress address. */
    method StopGateway(id: string, rule: EgressRule) returns (o: Outcome)
      requires Valid()
      modifies host`sets, host`chains, host`addrs, host`faults
      ensures Stopped(ClearSnat(id, rule.cidr, rule.egressIP), o, rule.egressIP)
    {
      ghost var before := host.Filter();
      o := gateway.ClearStaticIptablesRule(id, rule.cidr, rule.egressIP);
      if host.faults == old(host.faults) {
        EndedFull(before, ClearSnat(id, rule.cidr, rule.egressIP), o, host.Filter());
      }
      var removed := host.RemoveAddress(rule.egressIP);
    }

    /** What it did as a director; the egress address stands where the gateway's is expected. */
    method StopDirector(id: string, rule: EgressRule) returns (o: Outcome)
      requires Valid()
      modifies host`chains, host`routes, host`addrs, host`faults
      ensures Stopped(StaleRoute(id, rule.cidr), o, rule.egressIP)
    {
      o := director.ClearStaleRouteToGateway(id, rule.cidr, Text(rule.egressIP));
      var removed := host.RemoveAddress(rule.egressIP);
    }

    /** The operation has ended; if no command failed but those the kernel refused, it left what it leaves,
        and the address is gone. */
    twostate predicate Stopped(op: Op, o: Outcome, ip: Ip)
      reads host
    {
      && Ended(Program(op), old(host.Filter()), o, host.Filter())
      && host.faults >= old(host.faults)
      && RoutesKept(old(host.routes), host.routes)
      && (forall x | x in old(host.routes) - host.routes :: x.hop == Via(Text(ip)))
      && old(host.addrs) - {ip} <= host.addrs <= old(host.addrs)
      && (host.faults == old(host.faults) ==>
          && host.Filter() == Full(old(host.Filter()), op)
          && host.addrs == old(host.addrs) - {ip})
    }

    /** The director's part is undone for every rule; what the node holds as a gateway stays. Where the
        listing shows the destinations the routes stay too. */
    method DeleteStaticEgressIP(r: Resource) returns (log: seq<Outcome>)
      requires Valid()
      modifies this`pending, host`sets, host`chains, host`routes, host`faults
      ensures var ops := DropOps(Ids(sha, r), r.rules);
              var shown := forall rule | rule in r.rules :: host.blockText(old(host.routes), rule.cidr);
              && |log| == |ops|
              && host.faults >= old(host.faults)
              && Went(ops, log, old(host.Filter()), shown && host.faults == old(host.faults), host.Filter())
              && (shown ==> host.routes == old(host.routes))
              && RoutesKept(old(host.routes), host.routes)
              && (forall x | x in old(host.routes) - host.routes :: x.hop == Via(r.status.ip))
      ensures pending == old(pending) + {r.key}
    {
      hide Went, Ended, After, GenerateRuleId;
      log := [];
      ghost var before, ops := host.Filter(), DropOps(Ids(sha, r), r.rules);
      ghost var shown := forall rule | rule in r.rules :: host.blockText(old(host.routes), rule.cidr);
      WentNone(ops, before);
      WentCalm(ops, log, before, true, before);
      for i := 0 to |r.rules|
        invariant |log| == i
        invariant pending == old(pending)
        invariant host.faults >= old(host.faults)
        invariant Went(ops, log, before, shown && host.faults == old(host.faults), host.Filter())
        invariant shown ==> host.routes == old(host.routes)
        invariant RoutesKept(old(host.routes), host.routes)
        invariant forall x | x in old(host.routes) - host.routes :: x.hop == Via(r.status.ip)
      {
        ghost var calm, now := shown && host.faults == old(host.faults), host.Filter();
        var id := GenerateRuleId(sha, r.key.space, r.key.name, i);
        assert r.rules[i] in r.rules;
        var o := director.DeleteRouteToGateway(id, r.rules[i].cidr, r.status.ip);
        DropSize(id, r.rules[i].cidr);
        WentNext(ops, log, before, calm, now, o, shown && host.faults == old(host.faults), host.Filter());
        log := log + [o];
      }
      pending := pending + {r.key};
    }
  }

  /** The ids of a resource's rules are distinct exactly when the hashes differ within ten bytes. */
  lemma IdsDistinct(sha: string -> Digest, r: Resource)
    ensures NoDup(Ids(sha, r)) <==> forall i, j | 0 <= i < j < |r.rules| ::
              sha(Preimage(r.key.space, r.key.name, i))[..10] != sha(Preimage(r.key.space, r.key.name, j))[..10]
  {
    forall i, j | 0 <= i < j < |r.rules|
      ensures Ids(sha, r)[i] == Ids(sha, r)[j] <==>
              sha(Preimage(r.key.space, r.key.name, i))[..10] == sha(Preimage(r.key.space, r.key.name, j))[..10]
    {
      RuleIdsEqual(sha, r.key.space, r.key.name, i, r.key.space, r.key.name, j);
    }
  }
}
