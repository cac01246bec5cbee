/** What convergence means for packets: once the node has settled in its role, it does to the packets of every
    rule what the role asks for. */
module Delivery {
  import opened Base
  import opened Net
  import opened Netfilter
  import opened Programs
  import opened Resources
  import opened Endpoints
  import opened NodeAddresses
  import opened Path
  import R = Roles
  import M = Managers

  /** All that happens to a node is a run of attempts. */
  lemma {:induction false} SysIsRun(states: seq<R.Sys>, events: seq<R.Event>, self: string, ids: seq<string>,
                                    rules: seq<EgressRule>, n: nat)
    returns (atts: seq<Attempt>)
    requires |ids| == |rules| && R.Run(states, events, self, ids, rules) && n <= |events|
    ensures states[n].cfg == RunAll(states[0].cfg, atts)
    decreases n
  {
    if n == 0 {
      atts := [];
    } else {
      hide RunAll, R.Next, R.Run, R.Possible;
      R.EventAt(states, events, self, ids, rules, n - 1);
      var first := SysIsRun(states, events, self, ids, rules, n - 1);
      var more := EventIsRun(states[n - 1], events[n - 1], self, ids, rules);
      RunAllConcat(states[0].cfg, first, more);
      atts := first + more;
    }
  }

  lemma EventIsRun(s: R.Sys, e: R.Event, self: string, ids: seq<string>, rules: seq<EgressRule>)
    returns (atts: seq<Attempt>)
    requires |ids| == |rules| && R.Possible(s, e, ids)
    ensures R.Next(s, e, self, ids, rules).cfg == RunAll(s.cfg, atts)
  {
    hide After, UpdateOps, PassOps;
    atts := [];
    match e
    case Reassign(_) =>
    case List =>
    case Deliver => atts := Complete(UpdateOps(self, s.hist[s.delivered], s.hist[s.delivered + 1], ids, rules));
    case Work(ips) => atts := Complete(PassOps(self, s.hist[s.listed], ids, rules, ips));
    case Elsewhere(att) =>
      atts := [att];
      RunTwo(s.cfg, att, att);
  }

  /** The rules and sets of a settled node. */
  lemma SettledHas(cfg: Config, ids: seq<string>, rules: seq<EgressRule>, r: R.Parts, eps: seq<Endpoints>, i: nat)
    requires |ids| == |rules| == |eps| && i < |ids| && R.AllHold(cfg, ids, rules, r)
    requires ids[i] in cfg.sets && cfg.sets[ids[i]] == Elems(AllCollected(eps)[i])
    ensures ids[i] in r.mark && ids[i] in r.bypass ==> DirectorHas(cfg, ids[i], rules[i], eps[i])
    ensures ids[i] in r.snat && ids[i] in r.forward ==> GatewayHas(cfg, ids[i], rules[i], eps[i])
  {
    CollectedIsSources(eps[i]);
    OnlyMembers(cfg.chains[ManglePrerouting], ids[i]);
    OnlyMembers(cfg.chains[NatBypass], ids[i]);
    OnlyMembers(cfg.chains[NatEgress], ids[i]);
    OnlyMembers(cfg.chains[FilterEgress], ids[i]);
    var f := R.FlagsOf(r, ids[i]);
    assert R.Holds(cfg, ids[i], rules[i], f);
    assert f.mark ==> MarkRule(ids[i], rules[i].cidr) in Only(cfg.chains[ManglePrerouting], ids[i]);
    assert f.bypass ==> AcceptRule(ids[i], rules[i].cidr) in Only(cfg.chains[NatBypass], ids[i]);
    assert f.snat ==> SnatRule(ids[i], rules[i].cidr, rules[i].egressIP) in Only(cfg.chains[NatEgress], ids[i]);
    assert f.forward ==> AcceptRule(ids[i], rules[i].cidr) in Only(cfg.chains[FilterEgress], ids[i]);
  }

  /** The node after one more pass. */
  ghost function LastNode(states: seq<R.Sys>, events: seq<R.Event>, self: string, ids: seq<string>,
                          rules: seq<EgressRule>, eps: seq<Endpoints>): Config
    requires |ids| == |rules| == |eps| && R.Run(states, events, self, ids, rules)
    requires R.WellFormed(states[|events|])
  {
    R.Next(states[|events|], R.Work(AllCollected(eps)), self, ids, rules).cfg
  }

  /** Whatever gateways the managers assigned and in whatever order a controller, started at any time on a node
      with any rules of the ids, heard of them: after one more pass every packet of every rule of the resource
      is marked and exempt from masquerading if the node is a director, and if it is the gateway it is
      forwarded and translated to the egress address, under the conditions on the rules of others. */
  lemma EveryPacket(versions: seq<seq<M.Version>>, updates: seq<M.Event>, parse: Parser, since: nat,
                    base: Config, start: Config, before: seq<Attempt>,
                    states: seq<R.Sys>, events: seq<R.Event>, self: string, ids: seq<string>,
                    rules: seq<EgressRule>, found: R.Parts, eps: seq<Endpoints>, i: nat, p: Packet, mark: nat,
                    depth: nat)
    requires M.Run(versions, updates, parse) && forall v | v in versions[|updates|] :: v.rules == rules
    requires self != "" && |ids| == |rules| == |eps| && NoDup(ids) && R.Run(states, events, self, ids, rules)
    requires R.Start(states[0], ids, rules, found) && since < |versions[|updates|]|
    requires var s := states[|events|];
             && s.hist == M.Statuses(versions[|updates|])[since..]
             && s.delivered == s.listed == |s.hist| - 1 && s.hist[s.listed].node != ""
             && (M.Managed(versions, updates, parse)
                 || (R.NoGap(s.hist, self) && (s.hist[s.listed].node == self || s.hist[s.listed].ip != "")))
    requires Booted(start, base) && states[0].cfg == RunAll(start, before)
    requires i < |ids| && p.src in Sources(eps[i]) && InCidr(rules[i].cidr, p.dst) && depth >= 1
    ensures var now := LastNode(states, events, self, ids, rules, eps);
            && Ready(now)
            && var s := states[|events|];
               if s.hist[s.listed].node != self then
                 && Walk(now, now.chains[ManglePrerouting], p, mark, depth)
                    == Walk(now, base.chains[ManglePrerouting], p, FWMARK, depth)
                 && Walk(now, now.chains[NatPostrouting], p, FWMARK, depth) == Fate(FWMARK, Accepted)
               else
                 OnlyRule(base, now, ids[i], rules[i], p, mark, depth) ==>
                   && Walk(now, now.chains[FilterForward], p, mark, depth).verdict == Accepted
                   && Walk(now, now.chains[NatPostrouting], p, mark, depth) == Fate(mark, Translated(rules[i].egressIP))
  {
    hide RunAll, Walk, OnlyRule, R.AllHold, R.Next, R.PartsAt;
    var s, now := states[|events|], LastNode(states, events, self, ids, rules, eps);
    M.ManagedConvergence(versions, updates, parse, since, states, events, self, ids, rules, found, AllCollected(eps));
    SettledHas(now, ids, rules, R.Settled(states, events, self, ids, rules, found), eps, i);
    var atts := SysIsRun(states, events, self, ids, rules, |events|);
    var more := EventIsRun(s, R.Work(AllCollected(eps)), self, ids, rules);
    RunAllConcat(states[0].cfg, atts, more);
    RunAllConcat(start, before, atts + more);
    assert ids[i] in ids;
    if s.hist[s.listed].node != self {
      MarkedPath(base, start, before + (atts + more), ids[i], rules[i], eps[i], p, mark, depth);
    } else if OnlyRule(base, now, ids[i], rules[i], p, mark, depth) {
      TranslatedPath(base, start, before + (atts + more), ids[i], rules[i], eps[i], p, mark, depth);
    }
  }
}
