/** What the deletion of a resource leaves on a node. */
module Deletion {
  import opened Base
  import opened Net
  import opened Netfilter
  import opened Programs
  import opened Resources
  import opened Roles

  /** The set of an id is in use exactly while the id has rules. */
  lemma HeldInUse(cfg: Config, id: string, rule: EgressRule, f: Flags)
    requires Holds(cfg, id, rule, f)
    ensures InUse(cfg, id) <==> f != Flags(false, false, false, false)
  {
    forall c | c in cfg.chains ensures (exists r | r in cfg.chains[c] :: Named(r, id)) <==> Held(c, id, rule, f) != [] {
      OnlyMembers(cfg.chains[c], id);
      NoElements(Held(c, id, rule, f));
      var only := Only(cfg.chains[c], id);
      assert only != [] ==> only[0] in cfg.chains[c] && Named(only[0], id);
    }
    assert {ManglePrerouting, NatBypass, NatEgress, FilterEgress} <= cfg.chains.Keys;
  }

  /** The destroy step of a deletion is refused exactly while a gateway's rule names the set. */
  lemma DropSet(cfg: Config, id: string, rule: EgressRule, f: Flags)
    requires Holds(cfg, id, rule, f)
    ensures id in Full(cfg, DropRoute(id, rule.cidr)).sets <==> f.snat || f.forward
  {
    hide Held, Only, Exec;
    var op := DropRoute(id, rule.cidr);
    OwnOperation(cfg, op, 6, id, rule, f);
    HeldInUse(After(cfg, op, 6), id, rule, f.(mark := false, bypass := false));
    DropRouteEffect(cfg, id, rule.cidr, 6);
  }

  lemma {:induction false} DroppedSets(cfg: Config, ids: seq<string>, rules: seq<EgressRule>, r: Parts, n: nat)
    requires |ids| == |rules| && NoDup(ids) && AllHold(cfg, ids, rules, r) && n <= |ids|
    ensures forall i | 0 <= i < n ::
              ids[i] in SyncAll(cfg, DropOps(ids, rules)[..n]).sets <==> ids[i] in r.snat || ids[i] in r.forward
    decreases n
  {
    hide SyncAll, After, Holds;
    if n > 0 {
      var ops, m := DropOps(ids, rules), n - 1;
      DroppedSets(cfg, ids, rules, r, m);
      DroppedBefore(cfg, ids, rules, r, m);
      DropSet(SyncAll(cfg, ops[..m]), ids[m], rules[m], FlagsOf(r, ids[m]));
      FrameSets(SyncAll(cfg, ops[..m]), ops[m], |Program(ops[m])|);
      assert ops[..n] == ops[..m] + [ops[m]];
      SyncSnoc(cfg, ops[..m], ops[m]);
    }
  }

  /** The deletions of the first `m` rules leave the next one's as they are. */
  lemma DroppedBefore(cfg: Config, ids: seq<string>, rules: seq<EgressRule>, r: Parts, m: nat)
    requires |ids| == |rules| && NoDup(ids) && AllHold(cfg, ids, rules, r) && m < |ids|
    ensures var now := SyncAll(cfg, DropOps(ids, rules)[..m]);
            Ready(now) && Holds(now, ids[m], rules[m], FlagsOf(r, ids[m]))
  {
    hide SyncAll, Holds;
    var ops := DropOps(ids, rules);
    DropsApart(cfg, ops[..m], ids[m], rules[m], FlagsOf(r, ids[m]));
    FrameAll(cfg, Complete(ops[..m]));
    SyncIsRun(cfg, ops[..m]);
  }

  lemma SyncIsRun(cfg: Config, ops: seq<Op>)
    ensures SyncAll(cfg, ops) == RunAll(cfg, Complete(ops))
  {
  }

  lemma {:induction false} DropsApart(cfg: Config, ops: seq<Op>, id: string, rule: EgressRule, f: Flags)
    requires Holds(cfg, id, rule, f) && forall op | op in ops :: op.name != id
    ensures Holds(SyncAll(cfg, ops), id, rule, f)
    decreases |ops|
  {
    hide SyncAll, Holds;
    if ops == [] {
      NothingSynced(cfg);
    } else {
      var n := |ops| - 1;
      DropsApart(cfg, ops[..n], id, rule, f);
      assert ops == ops[..n] + [ops[n]];
      OtherOperation(SyncAll(cfg, ops[..n]), ops[n], |Program(ops[n])|, id, rule, f);
      SyncSnoc(cfg, ops[..n], ops[n]);
    }
  }

  /** Deleting a resource takes away all rules of a director, and the sets of all ids without a rule of a
      gateway; those rules stay, and their sets with them. */
  lemma DeletionLeaves(cfg: Config, ids: seq<string>, rules: seq<EgressRule>, r: Parts)
    requires |ids| == |rules| && NoDup(ids) && AllHold(cfg, ids, rules, r) && Confined(r, ids)
    ensures var now := SyncAll(cfg, DropOps(ids, rules));
            && AllHold(now, ids, rules, r.(mark := {}, bypass := {}))
            && forall i | 0 <= i < |ids| :: ids[i] in now.sets <==> ids[i] in r.snat || ids[i] in r.forward
  {
    hide SyncAll, AllHold;
    var ops, kind := DropOps(ids, rules), DropRoute("", Cidr(0, 0));
    assert ops[..|ids|] == ops;
    DroppedSets(cfg, ids, rules, r, |ids|);
    UniformPass(cfg, ops, ids, rules, r, kind);
    assert Uniform(r, kind, Elems(ids)) == r.(mark := {}, bypass := {});
  }
}
