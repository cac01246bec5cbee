/** One node as the program sees it: every command it can run, each of which may fail. */
module Hosts {
  import opened Base
  import opened Net
  import opened Netfilter

  /** Where a route of the policy-routing table leads. */
  datatype Hop = Dev(link: string) | Via(gateway: string)

  datatype Route = Route(dst: Cidr, hop: Hop)

  /** The outer addresses of a tunnel. */
  datatype Ends = Ends(remote: string, local: string)

  /** The part of a node's state that tunnels and routes change. */
  datatype Network = Network(links: set<string>, ends: map<string, Ends>, up: set<string>, routes: set<Route>)

  /** A route through a device stays, and its destination gets no other. */
  ghost predicate RoutesKept(before: set<Route>, now: set<Route>) {
    forall r | r in before && r.hop.Dev? :: r in now && forall x | x in now - before :: x.dst != r.dst
  }

  lemma RoutesKeptTwice(before: set<Route>, mid: set<Route>, now: set<Route>)
    requires RoutesKept(before, mid) && RoutesKept(mid, now)
    ensures RoutesKept(before, now)
  {
  }

  /** However often the table is changed in this way, a route through a device that was the only one to its
      destination remains that: the packets keep going where they went first. */
  lemma {:induction false} FirstRouteStays(tables: seq<set<Route>>, dst: Cidr, link: string, n: nat)
    requires n < |tables| && forall i | 0 <= i < n :: RoutesKept(tables[i], tables[i + 1])
    requires forall r | r in tables[0] :: r.dst == dst <==> r == Route(dst, Dev(link))
    requires Route(dst, Dev(link)) in tables[0]
    ensures Route(dst, Dev(link)) in tables[n]
    ensures forall r | r in tables[n] :: r.dst == dst <==> r == Route(dst, Dev(link))
  {
    if n > 0 {
      FirstRouteStays(tables, dst, link, n - 1);
      assert RoutesKept(tables[n - 1], tables[n - 1 + 1]);
    }
  }

  class Host {
    var sets: map<string, set<Ip>>
    var chains: map<Chain, seq<Rule>>
    var links: set<string>       // network interfaces, tunnels among them
    var ends: map<string, Ends>  // of the tunnels
    var up: set<string>          // the interfaces that were set up
    var routes: set<Route>       // the table kube-static-egress-ip (99)
    var addrs: set<Ip>           // secondary addresses
    var tableNamed: bool         // the table has a name in rt_tables
    var lookups: set<nat>        // the marks whose packets look the table up

    // What a text search finds in a listing is left open, but it is determined by what is listed.
    const linkText: (set<string>, string) -> bool
    const blockText: (set<Route>, Cidr) -> bool
    const addressText: (set<Route>, Ip) -> bool

    /** The failures so far that are not refusals of the kernel. */
    ghost var faults: nat

    constructor (chains: map<Chain, seq<Rule>>, linkText: (set<string>, string) -> bool,
                 blockText: (set<Route>, Cidr) -> bool, addressText: (set<Route>, Ip) -> bool)
      ensures Filter() == Config(map[], chains)
      ensures links == up == {} && ends == map[] && routes == {} && addrs == {} && !tableNamed && lookups == {}
      ensures this.linkText == linkText && this.blockText == blockText && this.addressText == addressText
      ensures faults == 0
    {
      this.sets, this.chains := map[], chains;
      links, ends, up, routes, addrs, tableNamed, lookups := {}, map[], {}, {}, {}, false, {};
      this.linkText, this.blockText, this.addressText := linkText, blockText, addressText;
      faults := 0;
    }

    /** The packet-filter part of the state. */
    function Filter(): Config
      reads this`sets, this`chains
    {
      Config(sets, chains)
    }

    function Ways(): Network
      reads this`links, this`ends, this`up, this`routes
    {
      Network(links, ends, up, routes)
    }

    /** A command that succeeded was one the kernel carries out and had its effect; one that failed
        changed nothing, and if that was no fault the kernel had refused it. */
    twostate predicate Ran(cmd: Cmd, ok: bool)
      reads this
    {
      && Counted(ok, !Enabled(cmd, old(Filter())))
      && if ok then Enabled(cmd, old(Filter())) && Filter() == Apply(cmd, old(Filter()))
         else Filter() == old(Filter())
    }

    /** Success is no fault; a failure is one unless there was another cause. */
    twostate predicate Counted(ok: bool, refused: bool)
      reads this`faults
    {
      && faults >= old(faults)
      && (ok ==> faults == old(faults))
      && (!ok && faults == old(faults) ==> refused)
    }

    /** Whether the next command can be run at all. */
    method Try() returns (ok: bool)
      modifies this`faults
      ensures Counted(ok, false)
    {
      ok := *;
      if !ok {
        faults := faults + 1;
      }
    }

    method Create(name: string) returns (ok: bool)
      modifies this`sets, this`faults
      ensures Ran(CreateSet(name), ok)
    {
      ok := Try();
      if ok && name !in sets {
        sets := sets[name := {}];
      }
    }

    method Flush(name: string) returns (ok: bool)
      modifies this`sets, this`faults
      ensures Ran(FlushSet(name), ok)
    {
      ok := Try();
      ok := ok && name in sets;
      if ok {
        sets := sets[name := {}];
      }
    }

    method Add(name: string, ip: Ip) returns (ok: bool)
      modifies this`sets, this`faults
      ensures Ran(AddEntry(name, ip), ok)
    {
      ok := Try();
      ok := ok && name in sets;
      if ok {
        sets := sets[name := sets[name] + {ip}];
      }
    }

    method Swap(from: string, to: string) returns (ok: bool)
      modifies this`sets, this`faults
      ensures Ran(SwapSets(from, to), ok)
    {
      ok := Try();
      ok := ok && from in sets && to in sets;
      if ok {
        sets := sets[from := sets[to]][to := sets[from]];
      }
    }

    /** Refused by the kernel while a rule names the set. */
    method Destroy(name: string) returns (ok: bool)
      modifies this`sets, this`faults
      ensures Ran(DestroySet(name), ok)
    {
      ok := Try();
      ok := ok && name in sets && !InUse(Filter(), name);
      if ok {
        sets := sets - {name};
      }
    }

    /** An error that says the chain exists already is no error to the callers. */
    method CreateChain(chain: Chain) returns (ok: bool)
      modifies this`chains, this`faults
      ensures Ran(NewChain(chain), ok)
    {
      ok := Try();
      if ok && chain !in chains {
        chains := chains[chain := []];
      }
    }

    method Exists(chain: Chain, rule: Rule) returns (ok: bool, has: bool)
      modifies this`faults
      ensures Counted(ok, false)
      ensures has <==> chain in chains && rule in chains[chain]
    {
      ok := Try();
      has := chain in chains && rule in chains[chain];
    }

    method InsertFirst(chain: Chain, rule: Rule) returns (ok: bool)
      modifies this`chains, this`faults
      ensures Counted(ok, chain !in old(chains))
      ensures ok ==> chain in old(chains) && chains == old(chains)[chain := [rule] + old(chains)[chain]]
      ensures !ok ==> chains == old(chains)
    {
      ok := Try();
      ok := ok && chain in chains;
      if ok {
        chains := chains[chain := [rule] + chains[chain]];
      }
    }

    method Append(chain: Chain, rule: Rule) returns (ok: bool)
      modifies this`chains, this`faults
      ensures Counted(ok, chain !in old(chains))
      ensures ok ==> chain in old(chains) && chains == old(chains)[chain := old(chains)[chain] + [rule]]
      ensures !ok ==> chains == old(chains)
    {
      ok := Try();
      ok := ok && chain in chains;
      if ok {
        chains := chains[chain := chains[chain] + [rule]];
      }
    }

    /** Deletes the first occurrence; an error when there is none. */
    method Delete(chain: Chain, rule: Rule) returns (ok: bool)
      modifies this`chains, this`faults
      ensures Ran(DeleteRule(chain, rule), ok)
    {
      ok := Try();
      ok := ok && chain in chains && rule in chains[chain];
      if ok {
        chains := chains[chain := Remove(chains[chain], rule)];
      }
    }

    // The guarded edits: an existence test, and the edit when the test asks for it.

    method EnsureFirst(chain: Chain, rule: Rule) returns (ok: bool)
      modifies this`chains, this`faults
      ensures Ran(Cmd.EnsureFirst(chain, rule), ok)
    {
      var has;
      ok, has := Exists(chain, rule);
      if ok && !has {
        ok := InsertFirst(chain, rule);
      }
    }

    method EnsureLast(chain: Chain, rule: Rule) returns (ok: bool)
      modifies this`chains, this`faults
      ensures Ran(Cmd.EnsureLast(chain, rule), ok)
    {
      var has;
      ok, has := Exists(chain, rule);
      if ok && !has {
        ok := Append(chain, rule);
      }
    }

    method DeleteIfPresent(chain: Chain, rule: Rule) returns (ok: bool)
      modifies this`chains, this`faults
      ensures Ran(DeletePresent(chain, rule), ok)
    {
      var has;
      ok, has := Exists(chain, rule);
      if ok && has {
        ok := Delete(chain, rule);
      } else if chain in chains {
        RemoveMembers(chains[chain], rule);
      }
    }

    // ---- Tunnels, routes and addresses ----

    /** The name is found in `ip link list`, at least when there is such a link. */
    predicate LinkShown(link: string)
      reads this`links
    {
      link in links || linkText(links, link)
    }

    /** What a listing of the table is searched for before a block is routed: the block and its address. */
    predicate DestinationShown(routes: set<Route>, dst: Cidr) {
      blockText(routes, dst) || addressText(routes, dst.base)
    }

    predicate HasRoute(dst: Cidr)
      reads this`routes
    {
      exists r | r in routes :: r.dst == dst
    }

    /** A tunnel is added unless the listing seems to show it. */
    method EnsureTunnel(link: string, e: Ends) returns (ok: bool)
      modifies this`links, this`ends, this`faults
      ensures Counted(ok, false)
      ensures if ok && !old(LinkShown(link)) then links == old(links) + {link} && ends == old(ends)[link := e]
              else links == old(links) && ends == old(ends)
    {
      ok := Try();
      if ok && !LinkShown(link) {
        ok := AddTunnel(link, e);
      }
    }

    method AddTunnel(link: string, e: Ends) returns (ok: bool)
      modifies this`links, this`ends, this`faults
      ensures Counted(ok, link in old(links))
      ensures if ok then links == old(links) + {link} && ends == old(ends)[link := e]
              else links == old(links) && ends == old(ends)
    {
      ok := Try();
      ok := ok && link !in links;
      if ok {
        links, ends := links + {link}, ends[link := e];
      }
    }

    method SetUp(link: string) returns (ok: bool)
      modifies this`up, this`faults
      ensures Counted(ok, link !in links)
      ensures ok ==> link in links
      ensures up == if ok then old(up) + {link} else old(up)
    {
      ok := Try();
      ok := ok && link in links;
      if ok {
        up := up + {link};
      }
    }

    /** The table holds one route for a destination. */
    method AddRoute(route: Route) returns (ok: bool)
      modifies this`routes, this`faults
      ensures Counted(ok, old(HasRoute(route.dst)))
      ensures ok ==> !old(HasRoute(route.dst))
      ensures routes == if ok then old(routes) + {route} else old(routes)
    {
      ok := Try();
      ok := ok && !HasRoute(route.dst);
      if ok {
        routes := routes + {route};
      }
    }

    method DeleteRoute(route: Route) returns (ok: bool)
      modifies this`routes, this`faults
      ensures Counted(ok, route !in old(routes))
      ensures ok ==> route in old(routes)
      ensures routes == if ok then old(routes) - {route} else old(routes)
    {
      ok := Try();
      ok := ok && route in routes;
      if ok {
        routes := routes - {route};
      }
    }

    /** An address that is there already is an error. */
    method AddAddress(ip: Ip) returns (ok: bool)
      modifies this`addrs, this`faults
      ensures Counted(ok, ip in old(addrs))
      ensures addrs == if ok then old(addrs) + {ip} else old(addrs)
    {
      ok := Try();
      ok := ok && ip !in addrs;
      if ok {
        addrs := addrs + {ip};
      }
    }

    method RemoveAddress(ip: Ip) returns (ok: bool)
      modifies this`addrs, this`faults
      ensures Counted(ok, ip !in old(addrs))
      ensures addrs == if ok then old(addrs) - {ip} else old(addrs)
    {
      ok := Try();
      ok := ok && ip in addrs;
      if ok {
        addrs := addrs - {ip};
      }
    }

    /** `rt_tables` is read, and a line that names the table is written unless there is one. */
    method EnsureTableName() returns (ok: bool)
      modifies this`tableNamed, this`faults
      ensures Counted(ok, false)
      ensures tableNamed == (old(tableNamed) || ok)
    {
      ok := Try();
      if ok && !tableNamed {
        ok := Try();
        tableNamed := ok;
      }
    }

    /** The rules are searched for the name of the table, not for the mark. */
    method EnsurePolicyRule(mark: nat) returns (ok: bool)
      modifies this`lookups, this`faults
      ensures Counted(ok, false)
      ensures lookups == if ok && old(lookups) == {} then {mark} else old(lookups)
    {
      ok := Try();
      if ok && lookups == {} {
        ok := Try();
        if ok {
          lookups := {mark};
        }
      }
    }
  }
}
