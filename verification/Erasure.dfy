/** Adding a rule id and removing it again, with any operations on other ids in between, leaves the
    chains those operations alone would have left. */
module Erasure {
  import opened Base
  import opened Net
  import opened Netfilter
  import opened Programs

  // ---- Two chains that differ only in rules naming `n` ----

  ghost predicate Alike(x: seq<Rule>, y: seq<Rule>, n: string) {
    forall m | m != n :: Only(x, m) == Only(y, m)
  }

  /** Edits with a rule of another id keep two chains alike, keep one the erasure of the other, and
      keep the rules of the erased id. */
  lemma EditAlike(x: seq<Rule>, y: seq<Rule>, r: Rule, n: string)
    requires Alike(x, y, n) && !Named(r, n)
    ensures Alike(PushFirst(x, r), PushFirst(y, r), n)
    ensures Alike(PushLast(x, r), PushLast(y, r), n)
    ensures Alike(Remove(x, r), Remove(y, r), n)
  {
    forall m | m != n
      ensures Only(PushFirst(x, r), m) == Only(PushFirst(y, r), m)
      ensures Only(PushLast(x, r), m) == Only(PushLast(y, r), m)
      ensures Only(Remove(x, r), m) == Only(Remove(y, r), m)
    {
      FilterPush(x, r, m);
      FilterPush(y, r, m);
      FilterRemove(x, r, m);
      FilterRemove(y, r, m);
    }
  }

  lemma EditErased(x: seq<Rule>, r: Rule, n: string)
    requires !Named(r, n)
    ensures Without(PushFirst(x, r), n) == PushFirst(Without(x, n), r)
    ensures Without(PushLast(x, r), n) == PushLast(Without(x, n), r)
    ensures Without(Remove(x, r), n) == Remove(Without(x, n), r)
    ensures Only(PushFirst(x, r), n) == Only(PushLast(x, r), n) == Only(Remove(x, r), n) == Only(x, n)
  {
    FilterPush(x, r, n);
    FilterRemove(x, r, n);
  }

  /** An edit with a rule of the erased id. */
  lemma OwnEdit(x: seq<Rule>, r: Rule, n: string)
    requires Named(r, n)
    ensures Alike(PushFirst(x, r), x, n) && Alike(PushLast(x, r), x, n) && Alike(Remove(x, r), x, n)
    ensures Without(PushFirst(x, r), n) == Without(PushLast(x, r), n) == Without(Remove(x, r), n) == Without(x, n)
    ensures Only(PushFirst(x, r), n) == PushFirst(Only(x, n), r)
    ensures Only(PushLast(x, r), n) == PushLast(Only(x, n), r)
    ensures Only(Remove(x, r), n) == Remove(Only(x, n), r)
  {
    FilterPush(x, r, n);
    FilterRemove(x, r, n);
    forall m | m != n
      ensures Only(PushFirst(x, r), m) == Only(PushLast(x, r), m) == Only(Remove(x, r), m) == Only(x, m)
    {
      FilterPush(x, r, m);
      FilterRemove(x, r, m);
    }
  }

  /** Inserting a rule that names no set. */
  lemma UnnamedEdit(x: seq<Rule>, r: Rule, n: string)
    requires r.srcSet == None
    ensures Alike(PushFirst(x, r), x, n) && Only(PushFirst(x, r), n) == Only(x, n)
  {
    forall m ensures Only(PushFirst(x, r), m) == Only(x, m) {
      FilterPush(x, r, m);
    }
  }

  lemma {:induction false} NoneNamed(x: seq<Rule>, n: string)
    ensures Only(x, n) == [] ==> Without(x, n) == x
  {
    if x != [] {
      NoneNamed(x[1..], n);
    }
  }

  // ---- One operation on another id ----

  /** `b` is `a` without the rules naming `n`: exactly so in the tracked chains, and up to rules that
      name no set in the others. */
  ghost predicate Erased(a: Config, b: Config, n: string, tracked: set<Chain>) {
    && Ready(a) && Ready(b) && a.chains.Keys == b.chains.Keys
    && forall c | c in a.chains :: ErasedChain(a, b, n, tracked, c)
  }

  ghost predicate ErasedChain(a: Config, b: Config, n: string, tracked: set<Chain>, c: Chain)
    requires c in a.chains && c in b.chains
  {
    Alike(a.chains[c], b.chains[c], n) && (c in tracked ==> b.chains[c] == Without(a.chains[c], n))
  }

  lemma ErasedEdit(a: Config, b: Config, n: string, tracked: set<Chain>, op: Op, k: nat, c: Chain)
    requires Erased(a, b, n, tracked) && op.name != n && c in a.chains
    ensures c in After(a, op, k).chains && c in After(b, op, k).chains
    ensures ErasedChain(After(a, op, k), After(b, op, k), n, tracked, c)
    ensures Only(After(a, op, k).chains[c], n) == Only(a.chains[c], n)
  {
    hide After, Only, Without, EditOf, RuleOf, Alike;
    SameStart(a, b, n, tracked, op);
    ChainEffect(a, op, k, c);
    ChainEffect(b, op, k, c);
    NeverItsRule(op, c, n);
    EditedAlike(EditOf(op, k, Starts(a, op), c), a.chains[c], b.chains[c], RuleOf(op, c), n);
  }

  /** A clearing starts in both or in neither. */
  lemma SameStart(a: Config, b: Config, n: string, tracked: set<Chain>, op: Op)
    requires Erased(a, b, n, tracked) && op.name != n
    ensures Starts(a, op) <==> Starts(b, op)
  {
    assert ErasedChain(a, b, n, tracked, NatEgress);
    if op.ClearSnat? {
      SnatPresence(a.chains[NatEgress], b.chains[NatEgress], n, SnatRule(op.name, op.dst, op.egressIP));
    }
  }

  lemma NeverItsRule(op: Op, c: Chain, n: string)
    requires op.name != n
    ensures !Named(RuleOf(op, c), n)
  {
  }

  lemma EditedAlike(e: Edit, x: seq<Rule>, y: seq<Rule>, r: Rule, n: string)
    requires Alike(x, y, n) && !Named(r, n)
    ensures Alike(Edited(e, x, r), Edited(e, y, r), n)
    ensures y == Without(x, n) ==> Edited(e, y, r) == Without(Edited(e, x, r), n)
    ensures Only(Edited(e, x, r), n) == Only(x, n)
  {
    EditAlike(x, y, r, n);
    EditErased(x, r, n);
  }

  /** The same operation, stopped at the same command, in both configurations. */
  lemma ErasedStep(a: Config, b: Config, n: string, tracked: set<Chain>, att: Attempt)
    requires Erased(a, b, n, tracked) && att.op.name != n
    ensures Erased(After(a, att.op, att.k), After(b, att.op, att.k), n, tracked)
    ensures forall c | c in a.chains ::
              c in After(a, att.op, att.k).chains && Only(After(a, att.op, att.k).chains[c], n) == Only(a.chains[c], n)
  {
    FrameChains(a, att.op, att.k);
    FrameChains(b, att.op, att.k);
    forall c | c in a.chains
      ensures ErasedChain(After(a, att.op, att.k), After(b, att.op, att.k), n, tracked, c)
      ensures Only(After(a, att.op, att.k).chains[c], n) == Only(a.chains[c], n)
    {
      ErasedEdit(a, b, n, tracked, att.op, att.k, c);
    }
  }

  lemma SnatPresence(x: seq<Rule>, y: seq<Rule>, n: string, r: Rule)
    requires Alike(x, y, n) && r.srcSet.Some? && r.srcSet.value != n
    ensures r in x <==> r in y
  {
    OnlyMembers(x, r.srcSet.value);
    OnlyMembers(y, r.srcSet.value);
    assert Only(x, r.srcSet.value) == Only(y, r.srcSet.value);
  }

  lemma {:induction false} ErasedRun(a: Config, b: Config, n: string, tracked: set<Chain>, atts: seq<Attempt>)
    requires Erased(a, b, n, tracked) && forall att | att in atts :: att.op.name != n
    ensures Erased(RunAll(a, atts), RunAll(b, atts), n, tracked)
    ensures RunAll(a, atts).chains.Keys == a.chains.Keys
    ensures forall c | c in a.chains :: Only(RunAll(a, atts).chains[c], n) == Only(a.chains[c], n)
    decreases |atts|
  {
    FrameAll(a, atts);
    if atts != [] {
      var l := |atts| - 1;
      ErasedRun(a, b, n, tracked, atts[..l]);
      ErasedStep(RunAll(a, atts[..l]), RunAll(b, atts[..l]), n, tracked, atts[l]);
    }
  }

  // ---- Adding and removing the erased id ----

  ghost predicate Unnamed(cfg: Config, n: string) {
    forall c | c in cfg.chains :: Only(cfg.chains[c], n) == []
  }

  /** An insertion into a chain that has no rule of the id. */
  lemma OwnInsertion(x: seq<Rule>, e: Edit, r: Rule, n: string)
    requires Only(x, n) == [] && e != Cut && (Named(r, n) || (r.srcSet == None && e != Last))
    ensures Alike(Edited(e, x, r), x, n)
    ensures Named(r, n) ==> Without(Edited(e, x, r), n) == x
    ensures Only(Edited(e, x, r), n) == if e == Keep || !Named(r, n) then [] else [r]
  {
    NoneNamed(x, n);
    OnlyMembers(x, n);
    if Named(r, n) {
      OwnEdit(x, r, n);
    } else {
      UnnamedEdit(x, r, n);
    }
  }

  /** A chain after an addition of the erased id that stopped anywhere. */
  lemma OwnAddition(cfg: Config, op: Op, k: nat, c: Chain)
    requires Ready(cfg) && Unnamed(cfg, op.name) && c in cfg.chains && (op.AddRoute? || op.AddSnat?)
    ensures c in After(cfg, op, k).chains
    ensures var x := After(cfg, op, k).chains[c];
            && Alike(x, cfg.chains[c], op.name)
            && (op.AddRoute? || c != ManglePrerouting ==> cfg.chains[c] == Without(x, op.name))
            && Only(x, op.name)
                == (if EditOf(op, k, true, c) == Keep || (op.AddSnat? && c == ManglePrerouting) then []
                else [RuleOf(op, c)])
  {
    ChainEffect(cfg, op, k, c);
    if EditOf(op, k, true, c) == Keep {
      NoneNamed(cfg.chains[c], op.name);
    } else {
      OwnInsertion(cfg.chains[c], EditOf(op, k, true, c), RuleOf(op, c), op.name);
    }
  }

  lemma AdditionErased(cfg: Config, op: Op, k: nat)
    requires Ready(cfg) && Unnamed(cfg, op.name) && (op.AddRoute? || op.AddSnat?)
    ensures Erased(After(cfg, op, k), cfg, op.name, if op.AddRoute? then cfg.chains.Keys
        else cfg.chains.Keys - {ManglePrerouting})
  {
    FrameChains(cfg, op, k);
    forall c | c in cfg.chains
      ensures Alike(After(cfg, op, k).chains[c], cfg.chains[c], op.name)
      ensures op.AddRoute? || c != ManglePrerouting ==> cfg.chains[c] == Without(After(cfg, op, k).chains[c], op.name)
    {
      OwnAddition(cfg, op, k, c);
    }
  }

  /** Removing the id's last rule from a chain leaves the erasure of the chain. */
  lemma LastRule(x: seq<Rule>, n: string, r: Rule)
    requires Named(r, n) && (Only(x, n) == [] || Only(x, n) == [r])
    ensures Remove(x, r) == Without(x, n)
  {
    OwnEdit(x, r, n);
    NoneNamed(Remove(x, r), n);
  }

  /** The rule that an addition of a route leaves in a chain when it stops after `k` commands. */
  function RoutePut(c: Chain, name: string, ips: seq<Ip>, dst: Cidr, k: nat): seq<Rule> {
    if c == ManglePrerouting && k >= |ips| + 3 then [MarkRule(name, dst)]
    else if c == NatBypass && k >= |ips| + 4 then [AcceptRule(name, dst)]
    else []
  }

  /** The removal got to the rule of the chain. */
  predicate RouteCut(removal: Attempt, c: Chain) {
    || (c == ManglePrerouting && removal.k >= if removal.op.DropRoute? then 3 else 1)
    || (c == NatBypass && removal.k >= if removal.op.DropRoute? then 4 else 2)
  }

  /** A director's route, added completely or not and removed completely or not, is gone without trace from
      a chain exactly when the addition had not got there or the removal has: always from every chain but
      the two, and from these also when the trailing route step of the removal fails. */
  lemma RouteErased(cfg: Config, name: string, ips: seq<Ip>, dst: Cidr, k: nat, others: seq<Attempt>, removal: Attempt)
    requires Ready(cfg) && Unnamed(cfg, name)
    requires forall att | att in others :: att.op.name != name
    requires removal.op in {DropRoute(name, dst), StaleRoute(name, dst)}
    ensures var both := RunAll(cfg, [Attempt(AddRoute(name, ips, dst), k)] + others + [removal]);
            var alone := RunAll(cfg, others);
            && both.chains.Keys == alone.chains.Keys
            && forall c | c in both.chains ::
                 both.chains[c] == alone.chains[c] <==> RoutePut(c, name, ips, dst, k) == [] || RouteCut(removal, c)
  {
    hide RunAll;
    var add := Attempt(AddRoute(name, ips, dst), k);
    ThreeParts(cfg, add, others, removal);
    RouteRemains(cfg, name, ips, dst, k, others);
    var x := RunAll(After(cfg, add.op, k), others);
    FrameChains(x, removal.op, removal.k);
    forall c | c in x.chains
      ensures After(x, removal.op, removal.k).chains[c] == Without(x.chains[c], name)
         <==> Only(x.chains[c], name) == [] || RouteCut(removal, c)
    {
      RouteRemoved(x, name, dst, removal, c);
    }
  }

  /** What is left of the route before its removal. */
  lemma RouteRemains(cfg: Config, name: string, ips: seq<Ip>, dst: Cidr, k: nat, others: seq<Attempt>)
    requires Ready(cfg) && Unnamed(cfg, name)
    requires forall att | att in others :: att.op.name != name
    ensures var x, y := RunAll(After(cfg, AddRoute(name, ips, dst), k), others), RunAll(cfg, others);
            && Ready(x) && x.chains.Keys == y.chains.Keys
            && forall c | c in x.chains ::
                 && y.chains[c] == Without(x.chains[c], name)
                 && Only(x.chains[c], name) == RoutePut(c, name, ips, dst, k)
  {
    hide RunAll;
    var op := AddRoute(name, ips, dst);
    AdditionErased(cfg, op, k);
    ErasedRun(After(cfg, op, k), cfg, name, cfg.chains.Keys, others);
    forall c | c in cfg.chains ensures Only(After(cfg, op, k).chains[c], name) == RoutePut(c, name, ips, dst, k) {
      OwnAddition(cfg, op, k, c);
    }
  }

  lemma RouteRemoved(x: Config, name: string, dst: Cidr, removal: Attempt, c: Chain)
    requires Ready(x) && c in x.chains && removal.op in {DropRoute(name, dst), StaleRoute(name, dst)}
    requires Only(x.chains[c], name) == []
          || (c in {ManglePrerouting, NatBypass} && Only(x.chains[c], name) == [RuleOf(removal.op, c)])
    ensures c in After(x, removal.op, removal.k).chains
    ensures After(x, removal.op, removal.k).chains[c] == Without(x.chains[c], name)
       <==> Only(x.chains[c], name) == [] || RouteCut(removal, c)
  {
    hide After, Only, Without;
    ChainEffect(x, removal.op, removal.k, c);
    NoneNamed(x.chains[c], name);
    if c in {ManglePrerouting, NatBypass} {
      OneCleared(x.chains[c], name, RuleOf(removal.op, c), RouteCut(removal, c));
    }
  }

  lemma ThreeParts(cfg: Config, first: Attempt, others: seq<Attempt>, last: Attempt)
    ensures RunAll(cfg, [first] + others + [last])
        == After(RunAll(After(cfg, first.op, first.k), others), last.op, last.k)
  {
    RunTwo(cfg, first, last);
    RunAllConcat(cfg, [first], others);
    RunAllConcat(cfg, [first] + others, [last]);
    RunTwo(RunAll(cfg, [first] + others), last, last);
  }

  /** A gateway rule, added completely or not and cleared completely or not, is gone without trace from the
      SNAT chain exactly when the clearing got to its first command or there was nothing to delete; and
      from the forward chain exactly when the addition had not got that far, or had got to the SNAT rule as
      well and the clearing to its second command. With the forward rule but no SNAT rule clearing fails at
      once. */
  lemma SnatErased(cfg: Config, name: string, ips: seq<Ip>, dst: Cidr, eip: Ip, k: nat, others: seq<Attempt>, last: nat)
    requires Ready(cfg) && Unnamed(cfg, name)
    requires forall att | att in others :: att.op.name != name
    ensures var both := RunAll(cfg,
        [Attempt(AddSnat(name, ips, dst, eip), k)] + others + [Attempt(ClearSnat(name, dst, eip), last)]);
            var alone := RunAll(cfg, others);
            && Ready(both) && Ready(alone)
            && (both.chains[NatEgress] == alone.chains[NatEgress] <==> k < |ips| + 4 || last >= 1)
            && (both.chains[FilterEgress] == alone.chains[FilterEgress] <==>
                k < |ips| + 3 || (k >= |ips| + 4 && last >= 2))
  {
    var add, clear := Attempt(AddSnat(name, ips, dst, eip), k), Attempt(ClearSnat(name, dst, eip), last);
    ThreeParts(cfg, add, others, clear);
    AdditionErased(cfg, add.op, k);
    ErasedRun(After(cfg, add.op, k), cfg, name, cfg.chains.Keys - {ManglePrerouting}, others);
    SnatAdded(cfg, name, ips, dst, eip, k);
    SnatCleared(RunAll(After(cfg, add.op, k), others), RunAll(cfg, others), name, dst, eip, last);
  }

  /** The id's rules in the forward and SNAT chains after an addition that stopped anywhere. */
  lemma SnatAdded(cfg: Config, name: string, ips: seq<Ip>, dst: Cidr, eip: Ip, k: nat)
    requires Ready(cfg) && Unnamed(cfg, name)
    ensures var a := After(cfg, AddSnat(name, ips, dst, eip), k);
            && FilterEgress in a.chains && NatEgress in a.chains
            && Only(a.chains[FilterEgress], name) == (if k >= |ips| + 3 then [AcceptRule(name, dst)] else [])
            && Only(a.chains[NatEgress], name) == (if k >= |ips| + 4 then [SnatRule(name, dst, eip)] else [])
  {
    var op := AddSnat(name, ips, dst, eip);
    ChainEffect(cfg, op, k, FilterEgress);
    ChainEffect(cfg, op, k, NatEgress);
    OwnEdit(cfg.chains[FilterEgress], AcceptRule(name, dst), name);
    OwnEdit(cfg.chains[NatEgress], SnatRule(name, dst, eip), name);
  }

  lemma SnatCleared(x: Config, y: Config, name: string, dst: Cidr, eip: Ip, last: nat)
    requires Ready(x) && Ready(y)
    requires y.chains[FilterEgress] == Without(x.chains[FilterEgress], name)
    requires y.chains[NatEgress] == Without(x.chains[NatEgress], name)
    requires Only(x.chains[FilterEgress], name) in {[], [AcceptRule(name, dst)]}
    requires Only(x.chains[NatEgress], name) in {[], [SnatRule(name, dst, eip)]}
    requires Only(x.chains[NatEgress], name) != [] ==> Only(x.chains[FilterEgress], name) != []
    ensures var z := After(x, ClearSnat(name, dst, eip), last);
            && Ready(z)
            && (z.chains[NatEgress] == y.chains[NatEgress] <==> Only(x.chains[NatEgress], name) == [] || last >= 1)
            && (z.chains[FilterEgress] == y.chains[FilterEgress]
                <==> Only(x.chains[FilterEgress], name) == [] || (Only(x.chains[NatEgress], name) != [] && last >= 2))
  {
    var op := ClearSnat(name, dst, eip);
    hide After, Only, Without;
    FrameChains(x, op, last);
    ChainEffect(x, op, last, FilterEgress);
    ChainEffect(x, op, last, NatEgress);
    OnlyMembers(x.chains[NatEgress], name);
    NoElements(Only(x.chains[NatEgress], name));
    assert Starts(x, op) <==> Only(x.chains[NatEgress], name) != [];
    OneCleared(x.chains[NatEgress], name, SnatRule(name, dst, eip), Starts(x, op) && last >= 1);
    OneCleared(x.chains[FilterEgress], name, AcceptRule(name, dst), Starts(x, op) && last >= 2);
  }

  /** A chain with at most one rule of the id is rid of it exactly if that is deleted. */
  lemma OneCleared(x: seq<Rule>, name: string, r: Rule, cut: bool)
    requires Named(r, name) && Only(x, name) in {[], [r]}
    ensures (if cut then Remove(x, r) else x) == Without(x, name) <==> Only(x, name) == [] || cut
  {
    LastRule(x, name, r);
    NoneNamed(x, name);
    OnlyMembers(x, name);
    WithoutMembers(x, name);
    NoElements(Only(x, name));
  }
}
