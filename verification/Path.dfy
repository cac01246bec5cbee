/** A packet on its way: from the director, marked and unmasqueraded, to the gateway, forwarded and
    translated. */
module Path {
  import opened Base
  import opened Net
  import opened Netfilter
  import opened Programs
  import opened Resources
  import opened Endpoints
  import opened Ordering
  import opened Confluence
  import opened Provenance
  import D = Directors
  import G = Gateways

  // ---- After setup ----

  /** The built-in chains with whatever rules other programs have put there, and none of ours. */
  ghost predicate Untouched(base: Config) {
    && {ManglePrerouting, NatPostrouting, FilterForward} <= base.chains.Keys
    && NatBypass !in base.chains && NatEgress !in base.chains && FilterEgress !in base.chains
    && JumpRule(NatBypass) !in base.chains[NatPostrouting] && JumpRule(NatEgress) !in base.chains[NatPostrouting]
    && JumpRule(FilterEgress) !in base.chains[FilterForward]
    && forall r | r in base.chains[ManglePrerouting] :: r.target != Mark(FWMARK)
  }

  /** Packets leaving the node meet the bypass chain, then the SNAT chain, then the rules of others;
      forwarded packets meet the rules of others first. */
  ghost predicate Booted(cfg: Config, base: Config) {
    && Untouched(base) && Ready(cfg) && cfg.sets == base.sets
    && cfg.chains[NatBypass] == cfg.chains[NatEgress] == cfg.chains[FilterEgress] == []
    && cfg.chains[NatPostrouting] == [JumpRule(NatBypass), JumpRule(NatEgress)] + base.chains[NatPostrouting]
    && cfg.chains[FilterForward] == base.chains[FilterForward] + [JumpRule(FilterEgress)]
    && cfg.chains[ManglePrerouting] == base.chains[ManglePrerouting]
    && cfg.chains.Keys == base.chains.Keys + {NatBypass, NatEgress, FilterEgress}
    && forall c | c in base.chains && c.Other? :: cfg.chains[c] == base.chains[c]
  }

  /** Gateway setup, then director setup, as at the start of the controller. */
  function BothSetups(cfg: Config): Config {
    Exec(D.SetupProgram(), Exec(G.SetupProgram(), cfg, 4).cfg, 4).cfg
  }

  lemma SetupBoots(base: Config)
    requires Untouched(base)
    ensures Booted(BothSetups(base), base)
  {
    var g := G.SetupProgram();
    var g1 := base.(chains := base.chains[FilterEgress := []]);
    var g2 := g1.(chains := g1.chains[FilterForward := base.chains[FilterForward] + [JumpRule(FilterEgress)]]);
    var g3 := g2.(chains := g2.chains[NatEgress := []]);
    var g4 := g3.(chains := g3.chains[NatPostrouting := [JumpRule(NatEgress)] + base.chains[NatPostrouting]]);
    Step(g, base, 0, base);
    Step(g, base, 1, g1);
    Step(g, base, 2, g2);
    Step(g, base, 3, g3);
    SecondSetup(base, g4);
  }

  lemma SecondSetup(base: Config, cfg: Config)
    requires Untouched(base) && NatPostrouting in cfg.chains && NatBypass !in cfg.chains
    requires cfg.chains[NatPostrouting] == [JumpRule(NatEgress)] + base.chains[NatPostrouting]
    ensures Exec(D.SetupProgram(), cfg, 4).cfg
         == cfg.(chains := cfg.chains[NatBypass := []][NatPostrouting := [JumpRule(NatBypass), JumpRule(NatEgress)]
             + base.chains[NatPostrouting]])
  {
    var d := D.SetupProgram();
    Step(d, cfg, 0, cfg);
    Step(d, cfg, 1, cfg);
    Step(d, cfg, 2, cfg);
    var d3 := cfg.(chains := cfg.chains[NatBypass := []]);
    Step(d, cfg, 3, d3);
    assert [JumpRule(NatBypass)] + ([JumpRule(NatEgress)] + base.chains[NatPostrouting])
        == [JumpRule(NatBypass), JumpRule(NatEgress)] + base.chains[NatPostrouting];
  }

  /** Both setups of a restarted controller change nothing, whatever was done since the first. */
  lemma SetupAgain(base: Config, start: Config, atts: seq<Attempt>)
    requires Booted(start, base)
    ensures BothSetups(RunAll(start, atts)) == RunAll(start, atts)
  {
    FrameAll(start, atts);
    var cfg := RunAll(start, atts);
    assert cfg.chains[NatPostrouting][0] == JumpRule(NatBypass) && cfg.chains[NatPostrouting][1] == JumpRule(NatEgress);
    SetupKeeps(cfg);
  }

  lemma SetupKeeps(cfg: Config)
    requires Ready(cfg) && JumpRule(NatBypass) in cfg.chains[NatPostrouting]
        && JumpRule(NatEgress) in cfg.chains[NatPostrouting]
    requires JumpRule(FilterEgress) in cfg.chains[FilterForward]
    ensures BothSetups(cfg) == cfg
  {
    var g, d := G.SetupProgram(), D.SetupProgram();
    assert forall c | c in cfg.chains :: cfg.(chains := cfg.chains[c := cfg.chains[c]]) == cfg;
    Step(g, cfg, 0, cfg);
    Step(g, cfg, 1, cfg);
    Step(g, cfg, 2, cfg);
    Step(g, cfg, 3, cfg);
    Step(d, cfg, 0, cfg);
    Step(d, cfg, 1, cfg);
    Step(d, cfg, 2, cfg);
    Step(d, cfg, 3, cfg);
  }

  // ---- After a successful pass ----

  /** The rule of an addition is in its chain. */
  lemma AddedRule(cfg: Config, ops: seq<Op>, op: Op, c: Chain)
    requires Ready(cfg) && Additions(ops) && op in ops && c in cfg.chains
    requires EditOf(op, |Program(op)|, true, c) != Keep
    ensures c in SyncAll(cfg, ops).chains && RuleOf(op, c) in SyncAll(cfg, ops).chains[c]
  {
    hide After, SyncAll;
    SyncedMembers(cfg, ops, c);
    RulesForMembers(ops, c);
  }

  /** In either role, and whatever the set held before, the set of a rule holds exactly the addresses
      of the service: the union over the subsets that have a port. */
  lemma SourceSetExact(cfg: Config, self: string, status: Status, ids: seq<string>, rules: seq<EgressRule>,
                       eps: seq<Endpoints>, i: nat)
    requires |ids| == |rules| == |eps| && NoDup(ids) && Ready(cfg) && i < |ids|
    requires status.node != "" && (status.node == self || status.ip != "")
    ensures var now := SyncAll(cfg, PassOps(self, status, ids, rules, AllCollected(eps)));
            ids[i] in now.sets && now.sets[ids[i]] == Sources(eps[i])
  {
    hide After;
    var ops := PassOps(self, status, ids, rules, AllCollected(eps));
    SyncedSets(cfg, ops, ids[i]);
    CollectedIsSources(eps[i]);
    assert ops[i].name == ids[i];
  }

  function AllCollected(eps: seq<Endpoints>): (ips: seq<seq<Ip>>)
    ensures |ips| == |eps| && forall i | 0 <= i < |eps| :: ips[i] == Collected(eps[i])
  {
    seq(|eps|, i requires 0 <= i < |eps| => Collected(eps[i]))
  }

  lemma PassIsRun(start: Config, atts: seq<Attempt>, ops: seq<Op>)
    ensures SyncAll(RunAll(start, atts), ops) == RunAll(start, atts + Complete(ops))
  {
    RunAllConcat(start, atts, Complete(ops));
  }

  // ---- What a node has for a rule, and keeps ----

  ghost predicate HasSet(cfg: Config, id: string, e: Endpoints) {
    id in cfg.sets && cfg.sets[id] == Sources(e)
  }

  ghost predicate DirectorHas(cfg: Config, id: string, rule: EgressRule, e: Endpoints) {
    && Ready(cfg) && HasSet(cfg, id, e)
    && MarkRule(id, rule.cidr) in cfg.chains[ManglePrerouting] && AcceptRule(id, rule.cidr) in cfg.chains[NatBypass]
  }

  ghost predicate GatewayHas(cfg: Config, id: string, rule: EgressRule, e: Endpoints) {
    && Ready(cfg) && HasSet(cfg, id, e)
    && AcceptRule(id, rule.cidr) in cfg.chains[FilterEgress]
    && SnatRule(id, rule.cidr, rule.egressIP) in cfg.chains[NatEgress]
  }

  /** Attempts on other ids, wherever they stop, leave a rule of this one where it is, and its set. */
  lemma OtherAttempt(cfg: Config, op: Op, k: nat, id: string, c: Chain, r: Rule)
    requires Ready(cfg) && op.name != id && c in cfg.chains && r in cfg.chains[c] && Named(r, id)
    ensures c in After(cfg, op, k).chains && r in After(cfg, op, k).chains[c]
  {
    hide After;
    ChainEffect(cfg, op, k, c);
    RemoveMembers(cfg.chains[c], RuleOf(op, c));
  }

  lemma {:induction false} RuleStays(cfg: Config, later: seq<Attempt>, id: string, c: Chain, r: Rule)
    requires Ready(cfg) && c in cfg.chains && r in cfg.chains[c] && Named(r, id)
    requires forall att | att in later :: att.op.name != id
    ensures c in RunAll(cfg, later).chains && r in RunAll(cfg, later).chains[c]
    decreases |later|
  {
    hide After;
    if later != [] {
      var n := |later| - 1;
      RuleStays(cfg, later[..n], id, c, r);
      FrameAll(cfg, later[..n]);
      assert later[n] in later;
      OtherAttempt(RunAll(cfg, later[..n]), later[n].op, later[n].k, id, c, r);
    }
  }

  lemma DirectorKeeps(cfg: Config, later: seq<Attempt>, id: string, rule: EgressRule, e: Endpoints)
    requires DirectorHas(cfg, id, rule, e) && forall att | att in later :: att.op.name != id
    ensures DirectorHas(RunAll(cfg, later), id, rule, e)
  {
    hide RunAll;
    FrameAll(cfg, later);
    SetsApart(cfg, later, id);
    RuleStays(cfg, later, id, ManglePrerouting, MarkRule(id, rule.cidr));
    RuleStays(cfg, later, id, NatBypass, AcceptRule(id, rule.cidr));
  }

  lemma GatewayKeeps(cfg: Config, later: seq<Attempt>, id: string, rule: EgressRule, e: Endpoints)
    requires GatewayHas(cfg, id, rule, e) && forall att | att in later :: att.op.name != id
    ensures GatewayHas(RunAll(cfg, later), id, rule, e)
  {
    hide RunAll;
    FrameAll(cfg, later);
    SetsApart(cfg, later, id);
    RuleStays(cfg, later, id, FilterEgress, AcceptRule(id, rule.cidr));
    RuleStays(cfg, later, id, NatEgress, SnatRule(id, rule.cidr, rule.egressIP));
  }

  // ---- On the director ----

  /** On a node that has the director's rules for a rule, after whatever run, every packet of the rule comes to
      the rules of other programs in PREROUTING with the mark, and leaves unmasqueraded through the bypass
      chain. */
  lemma MarkedPath(base: Config, start: Config, atts: seq<Attempt>, id: string, rule: EgressRule, e: Endpoints,
                   p: Packet, mark: nat, depth: nat)
    requires Booted(start, base) && DirectorHas(RunAll(start, atts), id, rule, e)
    requires p.src in Sources(e) && InCidr(rule.cidr, p.dst)
    ensures var now := RunAll(start, atts);
            && Walk(now, now.chains[ManglePrerouting], p, mark, depth)
               == Walk(now, base.chains[ManglePrerouting], p, FWMARK, depth)
            && (depth >= 1 ==> Walk(now, now.chains[NatPostrouting], p, FWMARK, depth) == Fate(FWMARK, Accepted))
  {
    hide RunAll;
    NodeShape(base, start, atts);
    var ours := MarksInFront(start, atts);
    DirectorWalks(base, start, RunAll(start, atts), ours, id, rule.cidr, p, mark, depth);
  }

  /** A complete director pass puts them there, and attempts on other ids leave them there. */
  lemma DirectorPath(base: Config, start: Config, atts: seq<Attempt>, ids: seq<string>, rules: seq<EgressRule>,
                     eps: seq<Endpoints>, later: seq<Attempt>, i: nat, p: Packet, mark: nat, depth: nat)
    requires Booted(start, base) && |ids| == |rules| == |eps| && NoDup(ids) && i < |ids|
    requires forall att | att in later :: att.op.name != ids[i]
    requires p.src in Sources(eps[i]) && InCidr(rules[i].cidr, p.dst)
    ensures var now := DirectorNode(start, atts, ids, rules, eps, later);
            && Walk(now, now.chains[ManglePrerouting], p, mark, depth)
               == Walk(now, base.chains[ManglePrerouting], p, FWMARK, depth)
            && (depth >= 1 ==> Walk(now, now.chains[NatPostrouting], p, FWMARK, depth) == Fate(FWMARK, Accepted))
  {
    hide RunAll, SyncAll, Walk;
    var ops := RouteOps(ids, rules, AllCollected(eps));
    RoutePass(RunAll(start, atts), ids, rules, eps, i) by {
      FrameAll(start, atts);
    }
    PassIsRun(start, atts, ops);
    DirectorKeeps(RunAll(start, atts + Complete(ops)), later, ids[i], rules[i], eps[i]);
    RunAllConcat(start, atts + Complete(ops), later);
    MarkedPath(base, start, atts + Complete(ops) + later, ids[i], rules[i], eps[i], p, mark, depth);
  }

  /** Any run, a complete pass over the rules of a resource, and any run again. */
  ghost function DirectorNode(start: Config, atts: seq<Attempt>, ids: seq<string>, rules: seq<EgressRule>,
                              eps: seq<Endpoints>, later: seq<Attempt>): (now: Config)
    requires |ids| == |rules| == |eps| && Ready(start)
    ensures Ready(now)
  {
    Reached(start, atts + Complete(RouteOps(ids, rules, AllCollected(eps))) + later)
  }

  ghost function GatewayNode(start: Config, atts: seq<Attempt>, ids: seq<string>, rules: seq<EgressRule>,
                             eps: seq<Endpoints>, later: seq<Attempt>): (now: Config)
    requires |ids| == |rules| == |eps| && Ready(start)
    ensures Ready(now)
  {
    Reached(start, atts + Complete(SnatOps(ids, rules, AllCollected(eps))) + later)
  }

  lemma RoutePass(cfg: Config, ids: seq<string>, rules: seq<EgressRule>, eps: seq<Endpoints>, i: nat)
    requires |ids| == |rules| == |eps| && NoDup(ids) && i < |ids| && Ready(cfg)
    ensures DirectorHas(SyncAll(cfg, RouteOps(ids, rules, AllCollected(eps))), ids[i], rules[i], eps[i])
  {
    hide SyncAll;
    var ops := RouteOps(ids, rules, AllCollected(eps));
    ProgramSize(ops[i]);
    AddedRule(cfg, ops, ops[i], ManglePrerouting);
    AddedRule(cfg, ops, ops[i], NatBypass);
    SyncedChain(cfg, ops, NatBypass);
    SourceSetExact(cfg, "gateway", Status("director", "ip"), ids, rules, eps, i);
  }

  lemma SnatPass(cfg: Config, ids: seq<string>, rules: seq<EgressRule>, eps: seq<Endpoints>, i: nat)
    requires |ids| == |rules| == |eps| && NoDup(ids) && i < |ids| && Ready(cfg)
    ensures GatewayHas(SyncAll(cfg, SnatOps(ids, rules, AllCollected(eps))), ids[i], rules[i], eps[i])
  {
    hide SyncAll;
    var ops := SnatOps(ids, rules, AllCollected(eps));
    ProgramSize(ops[i]);
    AddedRule(cfg, ops, ops[i], FilterEgress);
    AddedRule(cfg, ops, ops[i], NatEgress);
    SyncedChain(cfg, ops, NatEgress);
    SourceSetExact(cfg, "gateway", Status("gateway", "ip"), ids, rules, eps, i);
  }

  lemma ProgramSize(op: Op)
    ensures op.AddRoute? ==> |Program(op)| == |op.ips| + 7
    ensures op.AddSnat? ==> |Program(op)| == |op.ips| + 5
  {
  }

  /** What every configuration reached from a booted one keeps. */
  lemma NodeShape(base: Config, start: Config, atts: seq<Attempt>)
    requires Booted(start, base)
    ensures var now := RunAll(start, atts);
            && Shaped(start, now)
            && now.chains[NatPostrouting] == start.chains[NatPostrouting]
            && now.chains[FilterForward] == start.chains[FilterForward]
  {
    ShapedRun(start, atts);
    FrameAll(start, atts);
  }

  lemma DirectorWalks(base: Config, start: Config, now: Config, ours: seq<Rule>, name: string, dst: Cidr, p: Packet,
                      mark: nat, depth: nat)
    requires Booted(start, base) && Shaped(start, now) && now.chains[NatPostrouting] == start.chains[NatPostrouting]
    requires MarkRule(name, dst) in now.chains[ManglePrerouting] && AcceptRule(name, dst) in now.chains[NatBypass]
    requires name in now.sets && p.src in now.sets[name] && InCidr(dst, p.dst)
    requires InFront(now.chains[ManglePrerouting], ours, base.chains[ManglePrerouting])
    ensures Walk(now, now.chains[ManglePrerouting], p, mark, depth)
        == Walk(now, base.chains[ManglePrerouting], p, FWMARK, depth)
    ensures depth >= 1 ==> Walk(now, now.chains[NatPostrouting], p, FWMARK, depth) == Fate(FWMARK, Accepted)
  {
    assert Matches(now.sets, MarkRule(name, dst), p) && Matches(now.sets, AcceptRule(name, dst), p);
    assert NatBypass in MANAGED;
    assert MarkRule(name, dst) in ours;
    WalkMarks(now, ours, base.chains[ManglePrerouting], p, FWMARK, mark, depth);
    if depth >= 1 {
      WalkAccepts(now, now.chains[NatBypass], p, FWMARK, depth - 1);
    }
  }

  // ---- On the gateway ----

  /** Other programs let the packet through FORWARD, and no managed rule of the nat table matches it but the
      one. */
  ghost predicate OnlyRule(base: Config, now: Config, id: string, rule: EgressRule, p: Packet, mark: nat, depth: nat)
    requires Ready(now) && FilterForward in base.chains
  {
    && Through(now, base.chains[FilterForward], p, mark, depth).Some?
    && NoneMatches(now.sets, now.chains[NatBypass], p)
    && forall r | r in now.chains[NatEgress] && Matches(now.sets, r, p) ::
         r == SnatRule(id, rule.cidr, rule.egressIP)
  }

  /** On a node that has the gateway's rules for a rule, after whatever run, such a packet of the rule is
      accepted for forwarding and leaves with exactly the egress address. */
  lemma TranslatedPath(base: Config, start: Config, atts: seq<Attempt>, id: string, rule: EgressRule, e: Endpoints,
                       p: Packet, mark: nat, depth: nat)
    requires Booted(start, base) && GatewayHas(RunAll(start, atts), id, rule, e) && depth >= 1
    requires p.src in Sources(e) && InCidr(rule.cidr, p.dst)
    requires OnlyRule(base, RunAll(start, atts), id, rule, p, mark, depth)
    ensures var now := RunAll(start, atts);
            && Walk(now, now.chains[FilterForward], p, mark, depth).verdict == Accepted
            && Walk(now, now.chains[NatPostrouting], p, mark, depth) == Fate(mark, Translated(rule.egressIP))
  {
    hide RunAll;
    NodeShape(base, start, atts);
    GatewayWalks(base, start, RunAll(start, atts), id, rule.cidr, rule.egressIP, p, mark, depth);
  }

  /** A complete gateway pass puts them there, and attempts on other ids leave them there. */
  lemma GatewayPath(base: Config, start: Config, atts: seq<Attempt>, ids: seq<string>, rules: seq<EgressRule>,
                    eps: seq<Endpoints>, later: seq<Attempt>, i: nat, p: Packet, mark: nat, depth: nat)
    requires Booted(start, base) && |ids| == |rules| == |eps| && NoDup(ids) && i < |ids| && depth >= 1
    requires forall att | att in later :: att.op.name != ids[i]
    requires p.src in Sources(eps[i]) && InCidr(rules[i].cidr, p.dst)
    requires OnlyRule(base, GatewayNode(start, atts, ids, rules, eps, later), ids[i], rules[i], p, mark, depth)
    ensures var now := GatewayNode(start, atts, ids, rules, eps, later);
            && Walk(now, now.chains[FilterForward], p, mark, depth).verdict == Accepted
            && Walk(now, now.chains[NatPostrouting], p, mark, depth) == Fate(mark, Translated(rules[i].egressIP))
  {
    hide RunAll, SyncAll, Walk, OnlyRule;
    var ops := SnatOps(ids, rules, AllCollected(eps));
    SnatPass(RunAll(start, atts), ids, rules, eps, i) by {
      FrameAll(start, atts);
    }
    PassIsRun(start, atts, ops);
    GatewayKeeps(RunAll(start, atts + Complete(ops)), later, ids[i], rules[i], eps[i]);
    RunAllConcat(start, atts + Complete(ops), later);
    TranslatedPath(base, start, atts + Complete(ops) + later, ids[i], rules[i], eps[i], p, mark, depth);
  }

  lemma GatewayWalks(base: Config, start: Config, now: Config, name: string, dst: Cidr, eip: Ip, p: Packet, mark: nat,
                     depth: nat)
    requires Booted(start, base) && Shaped(start, now) && depth >= 1
    requires now.chains[NatPostrouting] == start.chains[NatPostrouting]
        && now.chains[FilterForward] == start.chains[FilterForward]
    requires AcceptRule(name, dst) in now.chains[FilterEgress] && SnatRule(name, dst, eip) in now.chains[NatEgress]
    requires name in now.sets && p.src in now.sets[name] && InCidr(dst, p.dst)
    requires Through(now, base.chains[FilterForward], p, mark, depth).Some?
        && NoneMatches(now.sets, now.chains[NatBypass], p)
    requires forall r | r in now.chains[NatEgress] && Matches(now.sets, r, p) :: r == SnatRule(name, dst, eip)
    ensures Walk(now, now.chains[FilterForward], p, mark, depth).verdict == Accepted
    ensures Walk(now, now.chains[NatPostrouting], p, mark, depth) == Fate(mark, Translated(eip))
  {
    var accept, snat := AcceptRule(name, dst), SnatRule(name, dst, eip);
    assert Matches(now.sets, accept, p) && Matches(now.sets, snat, p);
    assert FilterEgress in MANAGED;
    ForwardWalk(now, base.chains[FilterForward], p, mark, depth);
    hide Walk;
    WalkNoMatch(now, now.chains[NatBypass], [], p, mark, depth - 1);
    WalkOnlyMatch(now, now.chains[NatEgress], snat, p, mark, depth - 1);
    PostroutingWalk(now, base.chains[NatPostrouting], p, mark, depth);
  }

  /** The jump behind FORWARD, for a packet that the rules in front of it let through. */
  lemma ForwardWalk(now: Config, front: seq<Rule>, p: Packet, mark: nat, depth: nat)
    requires Ready(now) && depth >= 1 && now.chains[FilterForward] == front + [JumpRule(FilterEgress)]
    requires Through(now, front, p, mark, depth).Some? && !NoneMatches(now.sets, now.chains[FilterEgress], p)
    requires forall r | r in now.chains[FilterEgress] && Matches(now.sets, r, p) :: r.target == Accept
    ensures Walk(now, now.chains[FilterForward], p, mark, depth).verdict == Accepted
  {
    WalkAccepts(now, now.chains[FilterEgress], p, Through(now, front, p, mark, depth).value, depth - 1);
    WalkThrough(now, front, [JumpRule(FilterEgress)], p, mark, depth);
  }

  /** The two jumps in front of POSTROUTING. */
  lemma PostroutingWalk(now: Config, rest: seq<Rule>, p: Packet, mark: nat, depth: nat)
    requires Ready(now) && depth >= 1 && now.chains[NatPostrouting] == [JumpRule(NatBypass), JumpRule(NatEgress)] + rest
    ensures var bypass := Walk(now, now.chains[NatBypass], p, mark, depth - 1);
            var snat := Walk(now, now.chains[NatEgress], p, bypass.mark, depth - 1);
            var fate := Walk(now, now.chains[NatPostrouting], p, mark, depth);
            if !bypass.verdict.Continue? then fate == bypass
            else if !snat.verdict.Continue? then fate == snat
            else fate == Walk(now, rest, p, snat.mark, depth)
  {
    var rules := now.chains[NatPostrouting];
    assert rules[1..] == [JumpRule(NatEgress)] + rest;
    assert rules[1..][1..] == rest;
  }

  /** From end to end: a director and the gateway, both synced from the same endpoints, on which other
      programs do not take the mark away and let the packet through FORWARD. */
  lemma EndToEnd(base: Config, start: Config, atts: seq<Attempt>, later: seq<Attempt>,
                 base': Config, start': Config, atts': seq<Attempt>, later': seq<Attempt>,
                 ids: seq<string>, rules: seq<EgressRule>, eps: seq<Endpoints>, i: nat, p: Packet, mark: nat,
                 depth: nat)
    requires |ids| == |rules| == |eps| && NoDup(ids) && i < |ids| && depth >= 1
    requires forall att | att in later + later' :: att.op.name != ids[i]
    requires p.src in Sources(eps[i]) && InCidr(rules[i].cidr, p.dst)
    requires Booted(start, base) && Booted(start', base')
    requires var d := DirectorNode(start, atts, ids, rules, eps, later);
             Walk(d, base.chains[ManglePrerouting], p, FWMARK, depth).mark == FWMARK
    requires OnlyRule(base', GatewayNode(start', atts', ids, rules, eps, later'), ids[i], rules[i], p, mark, depth)
    ensures var d := DirectorNode(start, atts, ids, rules, eps, later);
            var g := GatewayNode(start', atts', ids, rules, eps, later');
            && Walk(d, d.chains[ManglePrerouting], p, mark, depth).mark == FWMARK
            && Walk(d, d.chains[NatPostrouting], p, FWMARK, depth).verdict == Accepted
            && Walk(g, g.chains[FilterForward], p, mark, depth).verdict == Accepted
            && Walk(g, g.chains[NatPostrouting], p, mark, depth).verdict == Translated(rules[i].egressIP)
  {
    hide DirectorNode, GatewayNode, OnlyRule, Walk;
    DirectorPath(base, start, atts, ids, rules, eps, later, i, p, mark, depth);
    GatewayPath(base', start', atts', ids, rules, eps, later', i, p, mark, depth);
  }

  // ---- Packets no managed rule matches ----

  /** The node before the program came: rules of other programs jump only into chains of other programs,
      and name no set of the run. */
  ghost predicate OthersApart(base: Config, atts: seq<Attempt>) {
    && Untouched(base)
    && forall c, r | c in base.chains && r in base.chains[c] ::
         && (r.target.Jump? ==> r.target.chain.Other?)
         && (r.srcSet.Some? ==> forall att | att in atts :: att.op.name != r.srcSet.value)
  }

  /** A chain of other programs after a run: the same rules, which name the same sets. */
  ghost predicate Unchanged(base: Config, now: Config) {
    && (forall c: Chain | c.Other? :: c in now.chains <==> c in base.chains)
    && (forall c | c in base.chains && c.Other? :: now.chains[c] == base.chains[c])
    && forall c, r | c in base.chains && r in base.chains[c] ::
         && (r.target.Jump? ==> r.target.chain.Other?)
         && (r.srcSet.Some? ==> SameAt(now.sets, base.sets, r.srcSet.value))
  }

  lemma {:induction false} SetsApart(start: Config, atts: seq<Attempt>, name: string)
    requires Ready(start) && forall att | att in atts :: att.op.name != name
    ensures SameAt(RunAll(start, atts).sets, start.sets, name)
    decreases |atts|
  {
    hide After;
    if atts != [] {
      var n := |atts| - 1;
      FrameAll(start, atts[..n]);
      SetsApart(start, atts[..n], name);
      assert atts[n] in atts;
      FrameSets(RunAll(start, atts[..n]), atts[n].op, atts[n].k);
    }
  }

  lemma RunUnchanged(base: Config, start: Config, atts: seq<Attempt>)
    requires Booted(start, base) && OthersApart(base, atts)
    ensures Unchanged(base, RunAll(start, atts))
  {
    hide RunAll;
    FrameAll(start, atts);
    forall c, r | c in base.chains && r in base.chains[c] && r.srcSet.Some?
      ensures SameAt(RunAll(start, atts).sets, base.sets, r.srcSet.value)
    {
      SetsApart(start, atts, r.srcSet.value);
    }
  }

  /** Rules of other programs do to a packet what they did before. */
  lemma {:induction false} WalkUnchanged(base: Config, now: Config, rules: seq<Rule>, p: Packet, mark: nat, depth: nat)
    requires Unchanged(base, now)
    requires forall r | r in rules ::
               && (r.target.Jump? ==> r.target.chain.Other?)
               && (r.srcSet.Some? ==> SameAt(now.sets, base.sets, r.srcSet.value))
    ensures Walk(now, rules, p, mark, depth) == Walk(base, rules, p, mark, depth)
    decreases depth, |rules|
  {
    if rules != [] {
      assert rules == [rules[0]] + rules[1..];
      assert Matches(now.sets, rules[0], p) <==> Matches(base.sets, rules[0], p);
      WalkUnchanged(base, now, rules[1..], p, mark, depth);
      match rules[0].target
      case Mark(m) => WalkUnchanged(base, now, rules[1..], p, m, depth);
      case Jump(c) =>
        if depth > 0 && c in base.chains {
          WalkUnchanged(base, now, base.chains[c], p, mark, depth - 1);
          WalkUnchanged(base, now, rules[1..], p, Walk(base, base.chains[c], p, mark, depth - 1).mark, depth);
        }
      case _ =>
    }
  }

  /** No addition that the run attempted, complete or not, is for the packet as the sets are now. */
  ghost predicate Unselected(start: Config, atts: seq<Attempt>, p: Packet)
    requires Ready(start)
  {
    forall att | att in atts :: !Selects(Reached(start, atts).sets, att.op, p) && !Returns(att.op, p)
  }

  /** After any run, a packet that is of no rule of which an addition was attempted, because it goes elsewhere
      or comes from an address that is not in the set now, and is not on its way back to an egress address, fares
      as it did on the node before the program came, with all its chains and sets as they were then. */
  lemma UnmanagedPackets(base: Config, start: Config, atts: seq<Attempt>, p: Packet, mark: nat, depth: nat)
    requires Booted(start, base) && OthersApart(base, atts) && depth >= 1 && Unselected(start, atts, p)
    ensures var now := Reached(start, atts);
            forall c | c in {ManglePrerouting, NatPostrouting, FilterForward} ::
              Walk(now, now.chains[c], p, mark, depth) == Walk(base, base.chains[c], p, mark, depth)
  {
    hide Reached, Walk;
    OtherPackets(base, start, atts, p);
    UnmatchedPackets(base, start, atts, p, mark, depth);
  }

  /** Chain by chain: a packet of no attempted director rule is not exempt from masquerading, one of no attempted
      gateway rule is neither translated nor let through, and neither is marked on its way out or back. */
  lemma OtherPackets(base: Config, start: Config, atts: seq<Attempt>, p: Packet)
    requires Booted(start, base)
    ensures var now := Reached(start, atts);
            var routed := exists att | att in atts :: att.op.AddRoute? && Selects(now.sets, att.op, p);
            var translated := exists att | att in atts :: att.op.AddSnat? && Selects(now.sets, att.op, p);
            && (!routed ==> NoneMatches(now.sets, now.chains[NatBypass], p))
            && (!translated ==>
                NoneMatches(now.sets, now.chains[NatEgress], p) && NoneMatches(now.sets, now.chains[FilterEgress], p))
            && (!routed && (forall att | att in atts :: !Returns(att.op, p)) ==>
                forall r | r in now.chains[ManglePrerouting] && r.target == Mark(FWMARK) :: !Matches(now.sets, r, p))
  {
    hide Reached;
    var now := Reached(start, atts);
    forall c, r | c in MANAGED && r in now.chains[c] && r !in start.chains[c] && Matches(now.sets, r, p)
      ensures exists att | att in atts :: Concerns(now.sets, att.op, c, p)
    {
      MatchProvenance(start, atts, c, r, p);
      var att :| att in atts && Puts(att, c, r)
                 && (Selects(now.sets, att.op, p) || (c == ManglePrerouting && Returns(att.op, p)));
      RuleForChain(now.sets, att, c, r, p);
    }
  }

  /** An operation is for the packet, in a chain. */
  ghost predicate Concerns(sets: map<string, set<Ip>>, op: Op, c: Chain, p: Packet) {
    match c
    case ManglePrerouting => (op.AddRoute? && Selects(sets, op, p)) || Returns(op, p)
    case NatBypass => op.AddRoute? && Selects(sets, op, p)
    case _ => op.AddSnat? && Selects(sets, op, p)
  }

  lemma RuleForChain(sets: map<string, set<Ip>>, att: Attempt, c: Chain, r: Rule, p: Packet)
    requires c in MANAGED && Puts(att, c, r) && Matches(sets, r, p)
    ensures Concerns(sets, att.op, c, p)
  {
    PutMatches(sets, att, c, r, p);
    if att.op.AddSnat? {
      ReturnMarkMatches(sets, att.op.dst, att.op.egressIP, p);
    }
  }

  /** If of the attempted additions only those of the rule are for the packet, no other managed rule of the nat
      table matches it. */
  lemma OnlyRuleOfRun(base: Config, start: Config, atts: seq<Attempt>, id: string, rule: EgressRule, p: Packet,
                      mark: nat, depth: nat)
    requires Booted(start, base) && Through(Reached(start, atts), base.chains[FilterForward], p, mark, depth).Some?
    requires forall att | att in atts && Selects(Reached(start, atts).sets, att.op, p) ::
               att.op.AddSnat? && att.op.name == id && att.op.dst == rule.cidr && att.op.egressIP == rule.egressIP
    ensures OnlyRule(base, Reached(start, atts), id, rule, p, mark, depth)
  {
    hide Reached, Through;
    var now := Reached(start, atts);
    OtherPackets(base, start, atts, p);
    forall r | r in now.chains[NatEgress] && Matches(now.sets, r, p)
      ensures r == SnatRule(id, rule.cidr, rule.egressIP)
    {
      MatchProvenance(start, atts, NatEgress, r, p);
    }
  }

  // ---- Return traffic ----

  /** Once a gateway rule was added completely, the packets from its destination to its egress address come to the
      rules of other programs in PREROUTING with the mark, whatever is done later, the clearing of the rule
      included. */
  lemma ReturnPath(base: Config, start: Config, atts: seq<Attempt>, op: Op, later: seq<Attempt>, p: Packet, mark: nat,
                   depth: nat)
    requires Booted(start, base) && op.AddSnat? && InCidr(op.dst, p.src) && p.dst == op.egressIP
    ensures var now := Reached(start, atts + Complete([op]) + later);
            Walk(now, now.chains[ManglePrerouting], p, mark, depth)
            == Walk(now, base.chains[ManglePrerouting], p, FWMARK, depth)
  {
    hide RunAll, Walk;
    var all := atts + Complete([op]) + later;
    var now, back := Reached(start, all), ReturnMarkRule(op.dst, op.egressIP);
    ReturnMarkThere(Reached(start, atts), op);
    PassIsRun(start, atts, [op]);
    UnnamedStays(Reached(start, atts + Complete([op])), later, ManglePrerouting, back);
    RunAllConcat(start, atts + Complete([op]), later);
    NodeShape(base, start, all);
    var ours := MarksInFront(start, all);
    assert back in ours;
    ReturnMarkMatches(now.sets, op.dst, op.egressIP, p);
    assert ManglePrerouting in MANAGED;
    WalkMarks(now, ours, base.chains[ManglePrerouting], p, FWMARK, mark, depth);
  }

  lemma ReturnMarkThere(cfg: Config, op: Op)
    requires Ready(cfg) && op.AddSnat?
    ensures Ready(SyncAll(cfg, [op]))
    ensures ReturnMarkRule(op.dst, op.egressIP) in SyncAll(cfg, [op]).chains[ManglePrerouting]
  {
    hide After, SyncAll;
    ProgramSize(op);
    AddedRule(cfg, [op], op, ManglePrerouting);
    FrameAll(cfg, Complete([op]));
    SyncIsRun(cfg, [op]);
  }

  lemma SyncIsRun(cfg: Config, ops: seq<Op>)
    ensures SyncAll(cfg, ops) == RunAll(cfg, Complete(ops))
  {
  }

  /** After any run, a packet that no managed rule matches fares as it did on the node before. */
  lemma UnmatchedPackets(base: Config, start: Config, atts: seq<Attempt>, p: Packet, mark: nat, depth: nat)
    requires Booted(start, base) && OthersApart(base, atts) && depth >= 1
    requires var now := Reached(start, atts);
             && NoneMatches(now.sets, now.chains[NatBypass], p)
             && NoneMatches(now.sets, now.chains[NatEgress], p)
             && NoneMatches(now.sets, now.chains[FilterEgress], p)
             && forall r | r in now.chains[ManglePrerouting] && r.target == Mark(FWMARK) :: !Matches(now.sets, r, p)
    ensures var now := Reached(start, atts);
            forall c | c in {ManglePrerouting, NatPostrouting, FilterForward} ::
              Walk(now, now.chains[c], p, mark, depth) == Walk(base, base.chains[c], p, mark, depth)
  {
    hide RunAll, Walk;
    var now := Reached(start, atts);
    RunUnchanged(base, start, atts);
    UnmanagedChains(base, start, atts, p, mark, depth);
    forall c | c in {ManglePrerouting, NatPostrouting, FilterForward}
      ensures Walk(now, base.chains[c], p, mark, depth) == Walk(base, base.chains[c], p, mark, depth)
    {
      WalkUnchanged(base, now, base.chains[c], p, mark, depth);
    }
  }

  /** The managed rules let the packet through to those of other programs. */
  lemma UnmanagedChains(base: Config, start: Config, atts: seq<Attempt>, p: Packet, mark: nat, depth: nat)
    requires Booted(start, base) && depth >= 1
    requires var now := Reached(start, atts);
             && NoneMatches(now.sets, now.chains[NatBypass], p)
             && NoneMatches(now.sets, now.chains[NatEgress], p)
             && NoneMatches(now.sets, now.chains[FilterEgress], p)
             && forall r | r in now.chains[ManglePrerouting] && r.target == Mark(FWMARK) :: !Matches(now.sets, r, p)
    ensures var now := Reached(start, atts);
            && Walk(now, now.chains[ManglePrerouting], p, mark, depth)
                == Walk(now, base.chains[ManglePrerouting], p, mark, depth)
            && Walk(now, now.chains[NatPostrouting], p, mark, depth)
                == Walk(now, base.chains[NatPostrouting], p, mark, depth)
            && Walk(now, now.chains[FilterForward], p, mark, depth)
                == Walk(now, base.chains[FilterForward], p, mark, depth)
  {
    hide RunAll, Walk;
    var now := Reached(start, atts);
    FrameAll(start, atts);
    var ours := MarksInFront(start, atts);
    WalkNoMatch(now, ours, base.chains[ManglePrerouting], p, mark, depth);
    WalkNoMatch(now, now.chains[NatBypass], [], p, mark, depth - 1);
    WalkNoMatch(now, now.chains[NatEgress], [], p, mark, depth - 1);
    PostroutingWalk(now, base.chains[NatPostrouting], p, mark, depth);
    QuietJump(now, base.chains[FilterForward], FilterEgress, p, mark, depth);
  }
}
