/** What every reachable node configuration keeps, whatever commands fail on the way, and what a
    crashed addition leaves for the next one. */
module Integrity {
  import opened Base
  import opened Net
  import opened Netfilter
  import opened Programs

  // ---- No rule is held twice ----

  ghost predicate NoDuplicates(cfg: Config) {
    forall c | c in cfg.chains && c in MANAGED :: NoDup(cfg.chains[c])
  }

  lemma DuplicateFreeStep(cfg: Config, op: Op, k: nat)
    requires Ready(cfg) && NoDuplicates(cfg)
    ensures NoDuplicates(After(cfg, op, k))
  {
    FrameChains(cfg, op, k);
    forall c | c in cfg.chains && c in MANAGED
      ensures NoDup(After(cfg, op, k).chains[c])
    {
      ChainEffect(cfg, op, k, c);
      RemoveNoDup(cfg.chains[c], RuleOf(op, c));
    }
  }

  /** Every existence test before an insertion keeps duplicates out, over every run. */
  lemma {:induction false} DuplicateFree(cfg: Config, atts: seq<Attempt>)
    requires Ready(cfg) && NoDuplicates(cfg)
    ensures NoDuplicates(RunAll(cfg, atts))
    decreases |atts|
  {
    if atts != [] {
      var n := |atts| - 1;
      DuplicateFree(cfg, atts[..n]);
      FrameAll(cfg, atts[..n]);
      DuplicateFreeStep(RunAll(cfg, atts[..n]), atts[n].op, atts[n].k);
    }
  }

  // ---- Referential integrity ----

  ghost predicate Referential(cfg: Config) {
    forall c, r | c in cfg.chains && r in cfg.chains[c] && r.srcSet.Some? :: r.srcSet.value in cfg.sets
  }

  lemma ReferentialStep(cfg: Config, op: Op, k: nat)
    requires Ready(cfg) && Referential(cfg)
    ensures Referential(After(cfg, op, k))
  {
    FrameSets(cfg, op, k);
    FrameChains(cfg, op, k);
    var a := After(cfg, op, k);
    forall c, r | c in a.chains && r in a.chains[c] && r.srcSet.Some?
      ensures r.srcSet.value in a.sets
    {
      ReferentialRule(cfg, op, k, c, r);
    }
  }

  /** One rule of the configuration an operation leaves. */
  lemma ReferentialRule(cfg: Config, op: Op, k: nat, c: Chain, r: Rule)
    requires Ready(cfg) && Referential(cfg)
    requires c in After(cfg, op, k).chains && r in After(cfg, op, k).chains[c] && r.srcSet.Some?
    ensures r.srcSet.value in After(cfg, op, k).sets
  {
    FrameSets(cfg, op, k);
    FrameChains(cfg, op, k);
    if op.AddRoute? || op.AddSnat? {
      ChainEffect(cfg, op, k, c);
      AdditionSets(cfg, op, k);
    } else {
      RemovalShrinks(cfg, op, k, c);
      RemovalSets(cfg, op, k);
    }
  }

  /** An addition creates its set before anything else. */
  lemma AdditionSets(cfg: Config, op: Op, k: nat)
    requires Ready(cfg) && (op.AddRoute? || op.AddSnat?)
    ensures op.name in cfg.sets || k >= 1 ==> op.name in After(cfg, op, k).sets
  {
    match op
    case AddRoute(n, ips, dst) => AddRouteEffect(cfg, n, ips, dst, k);
    case AddSnat(n, ips, dst, eip) => AddSnatEffect(cfg, n, ips, dst, eip, k);
  }

  lemma RemovalShrinks(cfg: Config, op: Op, k: nat, c: Chain)
    requires Ready(cfg) && (op.DropRoute? || op.StaleRoute? || op.ClearSnat?) && c in cfg.chains
    ensures c in After(cfg, op, k).chains && forall r | r in After(cfg, op, k).chains[c] :: r in cfg.chains[c]
  {
    ChainEffect(cfg, op, k, c);
    RemoveMembers(cfg.chains[c], RuleOf(op, c));
  }

  /** A removal that loses the set leaves no rule naming it. */
  lemma RemovalSets(cfg: Config, op: Op, k: nat)
    requires Ready(cfg) && (op.DropRoute? || op.StaleRoute? || op.ClearSnat?)
    ensures op.name in cfg.sets ==> op.name in After(cfg, op, k).sets || !InUse(After(cfg, op, k), op.name)
  {
    match op
    case DropRoute(n, dst) => DropRouteEffect(cfg, n, dst, k);
    case StaleRoute(n, dst) => StaleRouteEffect(cfg, n, dst, k);
    case ClearSnat(n, dst, eip) => ClearSnatEffect(cfg, n, dst, eip, k);
  }

  /** In every reachable configuration, and between any two commands of any operation, a rule that
      names a set names one that exists. */
  lemma {:induction false} ReferentialIntegrity(cfg: Config, atts: seq<Attempt>)
    requires Ready(cfg) && Referential(cfg)
    ensures Referential(RunAll(cfg, atts))
    decreases |atts|
  {
    if atts != [] {
      var n := |atts| - 1;
      ReferentialIntegrity(cfg, atts[..n]);
      FrameAll(cfg, atts[..n]);
      ReferentialStep(RunAll(cfg, atts[..n]), atts[n].op, atts[n].k);
    }
  }

  // ---- When the set of a removed rule survives ----

  /** A rule other than the listed ones names the set. */
  ghost predicate NamedElsewhere(cfg: Config, name: string, removed: set<(Chain, Rule)>) {
    exists c, r :: c in cfg.chains && r in cfg.chains[c] && Named(r, name) && (c, r) !in removed
  }

  /** The destroy step of a route deletion is refused exactly when another rule names the set,
      for instance the rules of the gateway role. */
  lemma RouteSetSurvives(cfg: Config, name: string, dst: Cidr)
    requires Ready(cfg) && NoDuplicates(cfg)
    ensures name in Full(cfg, DropRoute(name, dst)).sets
       <==> NamedElsewhere(cfg, name, {(ManglePrerouting, MarkRule(name, dst)), (NatBypass, AcceptRule(name, dst))})
    ensures name in Full(cfg, DropRoute(name, dst)).sets ==> Full(cfg, DropRoute(name, dst)).sets[name] == {}
  {
    DropRouteEffect(cfg, name, dst, 5);
    DropRouteEffect(cfg, name, dst, 6);
    var last := After(cfg, DropRoute(name, dst), 5);
    RemoveMembers(cfg.chains[ManglePrerouting], MarkRule(name, dst));
    RemoveMembers(cfg.chains[NatBypass], AcceptRule(name, dst));
    RemoveNoDup(cfg.chains[ManglePrerouting], MarkRule(name, dst));
    RemoveNoDup(cfg.chains[NatBypass], AcceptRule(name, dst));
    var removed := {(ManglePrerouting, MarkRule(name, dst)), (NatBypass, AcceptRule(name, dst))};
    InUseElsewhere(cfg, last, name, removed);
  }

  /** The same for clearing a gateway rule, once its SNAT rule has been found. */
  lemma SnatSetSurvives(cfg: Config, name: string, dst: Cidr, eip: Ip)
    requires Ready(cfg) && NoDuplicates(cfg) && SnatRule(name, dst, eip) in cfg.chains[NatEgress]
    ensures name in Full(cfg, ClearSnat(name, dst, eip)).sets
       <==> NamedElsewhere(cfg, name, {(NatEgress, SnatRule(name, dst, eip)), (FilterEgress, AcceptRule(name, dst))})
    ensures name in Full(cfg, ClearSnat(name, dst, eip)).sets ==> Full(cfg, ClearSnat(name, dst, eip)).sets[name] == {}
  {
    ClearSnatEffect(cfg, name, dst, eip, 4);
    ClearSnatEffect(cfg, name, dst, eip, 5);
    var last := After(cfg, ClearSnat(name, dst, eip), 4);
    RemoveMembers(cfg.chains[NatEgress], SnatRule(name, dst, eip));
    RemoveMembers(cfg.chains[FilterEgress], AcceptRule(name, dst));
    RemoveNoDup(cfg.chains[NatEgress], SnatRule(name, dst, eip));
    RemoveNoDup(cfg.chains[FilterEgress], AcceptRule(name, dst));
    var removed := {(NatEgress, SnatRule(name, dst, eip)), (FilterEgress, AcceptRule(name, dst))};
    InUseElsewhere(cfg, last, name, removed);
  }

  lemma InUseElsewhere(cfg: Config, last: Config, name: string, removed: set<(Chain, Rule)>)
    requires last.chains.Keys == cfg.chains.Keys
    requires forall c, r | c in cfg.chains :: r in last.chains[c] <==> r in cfg.chains[c] && (c, r) !in removed
    ensures InUse(last, name) <==> NamedElsewhere(cfg, name, removed)
  {
    if NamedElsewhere(cfg, name, removed) {
      var c, r :| c in cfg.chains && r in cfg.chains[c] && Named(r, name) && (c, r) !in removed;
      assert r in last.chains[c];
    }
    if InUse(last, name) {
      var c :| c in last.chains && exists r | r in last.chains[c] :: Named(r, name);
      var r :| r in last.chains[c] && Named(r, name);
      assert (c, r) !in removed;
    }
  }

  // ---- Crash and retry ----

  /** An addition that stopped after any number of its commands and is then run to its end leaves
      what the complete run alone leaves: same sets, same chains in the same order. */
  lemma RetryAfterCrash(cfg: Config, op: Op, k: nat)
    requires Ready(cfg) && (op.AddRoute? || op.AddSnat?)
    ensures Full(After(cfg, op, k), op) == Full(cfg, op)
  {
    match op
    case AddRoute(n, ips, dst) => RetryRoute(cfg, n, ips, dst, k);
    case AddSnat(n, ips, dst, eip) => RetrySnat(cfg, n, ips, dst, eip, k);
  }

  lemma RetryRoute(cfg: Config, n: string, ips: seq<Ip>, dst: Cidr, k: nat)
    requires Ready(cfg)
    ensures Full(After(cfg, AddRoute(n, ips, dst), k), AddRoute(n, ips, dst)) == Full(cfg, AddRoute(n, ips, dst))
  {
    RetryChains(cfg, AddRoute(n, ips, dst), k);
    AddRouteEffect(cfg, n, ips, dst, k);
    FullAddRoute(cfg, n, ips, dst);
    FullAddRoute(After(cfg, AddRoute(n, ips, dst), k), n, ips, dst);
    Refill(cfg.sets, n, ips, k);
  }

  lemma RetrySnat(cfg: Config, n: string, ips: seq<Ip>, dst: Cidr, eip: Ip, k: nat)
    requires Ready(cfg)
    ensures Full(After(cfg, AddSnat(n, ips, dst, eip), k), AddSnat(n, ips, dst, eip))
        == Full(cfg, AddSnat(n, ips, dst, eip))
  {
    RetryChains(cfg, AddSnat(n, ips, dst, eip), k);
    AddSnatEffect(cfg, n, ips, dst, eip, k);
    FullAddSnat(cfg, n, ips, dst, eip);
    FullAddSnat(After(cfg, AddSnat(n, ips, dst, eip), k), n, ips, dst, eip);
    Refill(cfg.sets, n, ips, k);
  }

  lemma RetryChains(cfg: Config, op: Op, k: nat)
    requires Ready(cfg) && (op.AddRoute? || op.AddSnat?)
    ensures Ready(After(cfg, op, k)) && Full(After(cfg, op, k), op).chains == Full(cfg, op).chains
  {
    var mid := After(cfg, op, k);
    FrameChains(cfg, op, k);
    FrameChains(mid, op, |Program(op)|);
    FrameChains(cfg, op, |Program(op)|);
    hide After;
    forall c | c in cfg.chains
      ensures Full(mid, op).chains[c] == Full(cfg, op).chains[c]
    {
      ChainEffect(cfg, op, k, c);
      ChainEffect(mid, op, |Program(op)|, c);
      ChainEffect(cfg, op, |Program(op)|, c);
    }
  }

  lemma Refill(sets: map<string, set<Ip>>, name: string, ips: seq<Ip>, k: nat)
    ensures Filled(sets, name, ips, k)[name := Elems(ips)] == sets[name := Elems(ips)]
  {
    if k == 1 {
      PutTwice(sets, name, {}, Elems(ips));
    } else if k >= 2 {
      PutTwice(sets, name, Elems(ips[..if k - 2 <= |ips| then k - 2 else |ips|]), Elems(ips));
    }
  }

  /** A director's removal that stopped anywhere is completed by running it again. */
  lemma RetryRemoval(cfg: Config, op: Op, k: nat)
    requires Ready(cfg) && NoDuplicates(cfg) && (op.DropRoute? || op.StaleRoute?)
    ensures Full(After(cfg, op, k), op) == Full(cfg, op)
  {
    RemoveNoDup(cfg.chains[ManglePrerouting], MarkRule(op.name, op.dst));
    RemoveNoDup(cfg.chains[NatBypass], AcceptRule(op.name, op.dst));
    if op.StaleRoute? {
      RetryStale(cfg, op.name, op.dst, k);
    } else {
      RetryDrop(cfg, op.name, op.dst, k);
    }
  }

  lemma RemovedTwice(rules: seq<Rule>, r: Rule)
    requires NoDup(rules)
    ensures Remove(Remove(rules, r), r) == Remove(rules, r)
  {
    RemoveNoDup(rules, r);
    RemoveMembers(Remove(rules, r), r);
  }

  lemma RetryStale(cfg: Config, name: string, dst: Cidr, k: nat)
    requires Ready(cfg) && NoDuplicates(cfg)
    ensures Full(After(cfg, StaleRoute(name, dst), k), StaleRoute(name, dst)) == Full(cfg, StaleRoute(name, dst))
  {
    var op := StaleRoute(name, dst);
    StaleRouteEffect(cfg, name, dst, k);
    StaleRouteEffect(cfg, name, dst, 3);
    StaleRouteEffect(After(cfg, op, k), name, dst, 3);
    RemovedTwice(cfg.chains[ManglePrerouting], MarkRule(name, dst));
    RemovedTwice(cfg.chains[NatBypass], AcceptRule(name, dst));
  }

  lemma RetryDrop(cfg: Config, name: string, dst: Cidr, k: nat)
    requires Ready(cfg) && NoDuplicates(cfg)
    ensures Full(After(cfg, DropRoute(name, dst), k), DropRoute(name, dst)) == Full(cfg, DropRoute(name, dst))
  {
    var op := DropRoute(name, dst);
    hide After, Full;
    DropChains(cfg, name, dst, k);
    FullDropRoute(cfg, name, dst);
    FullDropRoute(After(cfg, op, k), name, dst);
    DroppedAgain(cfg, After(cfg, op, k), name, dst);
  }

  /** What a complete deletion leaves, told without its commands. */
  lemma FullDropRoute(cfg: Config, name: string, dst: Cidr)
    requires Ready(cfg)
    ensures Ready(Dropped(cfg, name, dst))
        && Full(cfg, DropRoute(name, dst)) == Destroyed(Dropped(cfg, name, dst), true, name)
  {
    DropRouteEffect(cfg, name, dst, 6);
  }

  function Dropped(cfg: Config, name: string, dst: Cidr): Config
    requires Ready(cfg)
  {
    Config(cfg.sets[name := {}],
           cfg.chains[ManglePrerouting := Remove(cfg.chains[ManglePrerouting], MarkRule(name, dst))]
                     [NatBypass := Remove(cfg.chains[NatBypass], AcceptRule(name, dst))])
  }

  lemma DropChains(cfg: Config, name: string, dst: Cidr, k: nat)
    requires Ready(cfg)
    ensures var now := After(cfg, DropRoute(name, dst), k);
            && Ready(now) && now.chains.Keys == cfg.chains.Keys && SameSetsBut(now.sets, cfg.sets, name)
            && (forall c | c in cfg.chains && c !in {ManglePrerouting, NatBypass} :: now.chains[c] == cfg.chains[c])
            && now.chains[ManglePrerouting] in {cfg.chains[ManglePrerouting],
                Remove(cfg.chains[ManglePrerouting], MarkRule(name, dst))}
            && now.chains[NatBypass] in {cfg.chains[NatBypass], Remove(cfg.chains[NatBypass], AcceptRule(name, dst))}
  {
    DropRouteEffect(cfg, name, dst, k);
  }

  lemma DroppedAgain(cfg: Config, now: Config, name: string, dst: Cidr)
    requires Ready(cfg) && NoDuplicates(cfg)
    requires Ready(now) && now.chains.Keys == cfg.chains.Keys && SameSetsBut(now.sets, cfg.sets, name)
    requires forall c | c in cfg.chains && c !in {ManglePrerouting, NatBypass} :: now.chains[c] == cfg.chains[c]
    requires now.chains[ManglePrerouting] in {cfg.chains[ManglePrerouting],
        Remove(cfg.chains[ManglePrerouting], MarkRule(name, dst))}
    requires now.chains[NatBypass] in {cfg.chains[NatBypass], Remove(cfg.chains[NatBypass], AcceptRule(name, dst))}
    ensures Dropped(now, name, dst) == Dropped(cfg, name, dst)
  {
    RemovedTwice(cfg.chains[ManglePrerouting], MarkRule(name, dst));
    RemovedTwice(cfg.chains[NatBypass], AcceptRule(name, dst));
    assert Dropped(now, name, dst).chains == Dropped(cfg, name, dst).chains;
    assert now.sets[name := {}] == cfg.sets[name := {}];
  }

  /** What the interrupted clearing has to have done, or found done, to be complete: nothing else will. */
  ghost predicate Finished(cfg: Config, name: string, dst: Cidr, eip: Ip, k: nat)
    requires Ready(cfg)
  {
    var used := NamedElsewhere(cfg, name,
        {(NatEgress, SnatRule(name, dst, eip)), (FilterEgress, AcceptRule(name, dst))});
    var empty := name in cfg.sets && cfg.sets[name] == {};
    || k >= 5
    || (k == 4 && used)
    || (k == 3 && used && (empty || name !in cfg.sets))
    || (k == 2 && (if used then empty else name !in cfg.sets))
    || (k == 1 && (if used then empty else name !in cfg.sets) && AcceptRule(name, dst) !in cfg.chains[FilterEgress])
  }

  /** The clearing of a gateway rule deletes its SNAT rule first and unguarded. Once stopped behind that it
      is never completed: run again it fails at once and does nothing. So what it leaves is what a complete
      one would have left if and only if it had nothing more to do. */
  lemma RetryClear(cfg: Config, name: string, dst: Cidr, eip: Ip, k: nat)
    requires Ready(cfg) && NoDuplicates(cfg) && SnatRule(name, dst, eip) in cfg.chains[NatEgress] && k >= 1
    ensures var op := ClearSnat(name, dst, eip);
            && Full(After(cfg, op, k), op) == After(cfg, op, k)
            && (Full(After(cfg, op, k), op) == Full(cfg, op) <==> Finished(cfg, name, dst, eip, k))
  {
    var op := ClearSnat(name, dst, eip);
    ClearStops(cfg, name, dst, eip, k);
    ClearFinished(cfg, name, dst, eip, k);
  }

  lemma ClearStops(cfg: Config, name: string, dst: Cidr, eip: Ip, k: nat)
    requires Ready(cfg) && NoDuplicates(cfg) && SnatRule(name, dst, eip) in cfg.chains[NatEgress] && k >= 1
    ensures var op := ClearSnat(name, dst, eip);
            Full(After(cfg, op, k), op) == After(cfg, op, k)
  {
    var op := ClearSnat(name, dst, eip);
    ClearSnatEffect(cfg, name, dst, eip, k);
    RemoveNoDup(cfg.chains[NatEgress], SnatRule(name, dst, eip));
    ClearSnatEffect(After(cfg, op, k), name, dst, eip, |Program(op)|);
  }

  /** The configuration before the set is destroyed. */
  function Cleared(cfg: Config, name: string, dst: Cidr, eip: Ip, k: nat): Config
    requires Ready(cfg)
  {
    var c0 := cfg.(sets := Emptied(cfg, name, if k >= 2 then k - 2 else 0));
    var c1 := Updated(c0, k >= 1, NatEgress, Remove(cfg.chains[NatEgress], SnatRule(name, dst, eip)));
    Updated(c1, k >= 2, FilterEgress, Remove(cfg.chains[FilterEgress], AcceptRule(name, dst)))
  }

  lemma ClearFinished(cfg: Config, name: string, dst: Cidr, eip: Ip, k: nat)
    requires Ready(cfg) && NoDuplicates(cfg) && SnatRule(name, dst, eip) in cfg.chains[NatEgress] && k >= 1
    ensures var op := ClearSnat(name, dst, eip);
            After(cfg, op, k) == Full(cfg, op) <==> Finished(cfg, name, dst, eip, k)
  {
    var op, all := ClearSnat(name, dst, eip), Cleared(cfg, name, dst, eip, 5);
    ClearSnatEffect(cfg, name, dst, eip, k);
    ClearSnatEffect(cfg, name, dst, eip, 5);
    assert |Program(op)| == 5;
    hide After, Full;
    RemoveMembers(cfg.chains[NatEgress], SnatRule(name, dst, eip));
    RemoveNoDup(cfg.chains[NatEgress], SnatRule(name, dst, eip));
    RemoveMembers(cfg.chains[FilterEgress], AcceptRule(name, dst));
    RemoveNoDup(cfg.chains[FilterEgress], AcceptRule(name, dst));
    InUseElsewhere(cfg, all, name, {(NatEgress, SnatRule(name, dst, eip)), (FilterEgress, AcceptRule(name, dst))});
    var now := Cleared(cfg, name, dst, eip, k);
    assert now.chains[NatEgress] == all.chains[NatEgress];
    assert k >= 2 ==> now.chains == all.chains;
    assert now.sets == all.sets || now.sets.Keys == cfg.sets.Keys || now.sets.Keys == cfg.sets.Keys + {name};
  }
}
