/** Additions that are stopped at any command and run again, and what failures leave behind. A controller
    that starts again for the same role ends where an undisturbed one does; for a change of role in the
    meantime see `Roles.RestartKeepsBoth`. */
module Recovery {
  import opened Base
  import opened Netfilter
  import opened Programs
  import opened Integrity
  import opened Confluence

  /** Attempts at one operation, each stopped somewhere. */
  function Crashes(op: Op, stops: seq<nat>): (atts: seq<Attempt>)
    ensures |atts| == |stops| && forall i | 0 <= i < |stops| :: atts[i] == Attempt(op, stops[i])
  {
    seq(|stops|, i requires 0 <= i < |stops| => Attempt(op, stops[i]))
  }

  /** However often an addition is stopped, and wherever, the complete run in the end leaves what it
      would have left at once. */
  lemma {:induction false} RetryAfterCrashes(cfg: Config, op: Op, stops: seq<nat>)
    requires Ready(cfg) && (op.AddRoute? || op.AddSnat?)
    ensures Full(RunAll(cfg, Crashes(op, stops)), op) == Full(cfg, op)
    decreases |stops|
  {
    hide After, Full;
    FrameAll(cfg, Crashes(op, stops));
    if stops != [] {
      var n := |stops| - 1;
      FrameAll(cfg, Crashes(op, stops[..n]));
      RetryAfterCrashes(cfg, op, stops[..n]);
      assert Crashes(op, stops)[..n] == Crashes(op, stops[..n]);
      RetryAfterCrash(RunAll(cfg, Crashes(op, stops[..n])), op, stops[n]);
    }
  }

  /** A pass that stopped in operation `j` after `k` of its commands. */
  function Interrupted(cfg: Config, ops: seq<Op>, j: nat, k: nat): Config
    requires j < |ops|
  {
    After(SyncAll(cfg, ops[..j]), ops[j], k)
  }

  /** A pass over any number of rules, stopped at any command, and then run completely from its start
      leaves what the complete pass alone leaves. */
  lemma InterruptedPass(cfg: Config, ops: seq<Op>, j: nat, k: nat)
    requires Ready(cfg) && Additions(ops) && DistinctNames(ops) && j < |ops|
    ensures SyncAll(Interrupted(cfg, ops, j, k), ops) == SyncAll(cfg, ops)
  {
    hide After, SyncAll, Full;
    var mid := Interrupted(cfg, ops, j, k);
    assert ops == ops[..j] + ops[j..] && ops[j..][0] == ops[j] && ops[j..][1..] == ops[j + 1..];
    assert ops[j] in ops;
    SyncConcat(mid, ops[..j], ops[j..]);
    SyncConcat(cfg, ops[..j], ops[j..]);
    SyncHead(mid, ops[j..]);
    SyncHead(SyncAll(cfg, ops[..j]), ops[j..]);
    NothingNew(cfg, ops, j, k);
    SyncedChain(cfg, ops[..j], NatEgress);
    RetryAfterCrash(SyncAll(cfg, ops[..j]), ops[j], k);
  }

  lemma SyncConcat(cfg: Config, a: seq<Op>, b: seq<Op>)
    ensures SyncAll(cfg, a + b) == SyncAll(SyncAll(cfg, a), b)
  {
    hide Program, RunAll;
    assert Complete(a + b) == Complete(a) + Complete(b);
    RunAllConcat(cfg, Complete(a), Complete(b));
  }

  /** The operations before the interrupted one find all of their rules and entries. */
  lemma NothingNew(cfg: Config, ops: seq<Op>, j: nat, k: nat)
    requires Ready(cfg) && Additions(ops) && DistinctNames(ops) && j < |ops|
    ensures Ready(Interrupted(cfg, ops, j, k))
    ensures SyncAll(Interrupted(cfg, ops, j, k), ops[..j]) == Interrupted(cfg, ops, j, k)
  {
    hide After, SyncAll;
    var mid, before := Interrupted(cfg, ops, j, k), SyncAll(cfg, ops[..j]);
    SyncedChain(cfg, ops[..j], NatEgress);
    FrameChains(before, ops[j], k);
    SyncedChain(mid, ops[..j], NatEgress);
    forall c | c in cfg.chains ensures SyncAll(mid, ops[..j]).chains[c] == mid.chains[c] {
      NothingNewIn(cfg, ops, j, k, c);
    }
    forall n ensures SameAt(SyncAll(mid, ops[..j]).sets, mid.sets, n) {
      SameSet(cfg, ops, j, k, n);
    }
    SameMaps(SyncAll(mid, ops[..j]).sets, mid.sets);
  }

  lemma NothingNewIn(cfg: Config, ops: seq<Op>, j: nat, k: nat, c: Chain)
    requires Ready(cfg) && Additions(ops) && j < |ops| && c in cfg.chains && Ready(Interrupted(cfg, ops, j, k))
    ensures var mid := Interrupted(cfg, ops, j, k);
            && c in mid.chains && c in SyncAll(mid, ops[..j]).chains
            && SyncAll(mid, ops[..j]).chains[c] == mid.chains[c]
  {
    RulesThere(cfg, ops, j, k, c);
    hide After, SyncAll, Interrupted;
    AllThere(Interrupted(cfg, ops, j, k), ops[..j], c);
  }

  lemma AllThere(cfg: Config, ops: seq<Op>, c: Chain)
    requires Ready(cfg) && Additions(ops) && c in cfg.chains && forall r | r in RulesFor(ops, c) :: r in cfg.chains[c]
    ensures c in SyncAll(cfg, ops).chains && SyncAll(cfg, ops).chains[c] == cfg.chains[c]
  {
    hide SyncAll;
    var rules := RulesFor(ops, c);
    SyncedChain(cfg, ops, c);
    NewRulesOnce(rules, Elems(cfg.chains[c]));
    NoElements(NewRules(rules, Elems(cfg.chains[c])));
  }

  lemma RulesThere(cfg: Config, ops: seq<Op>, j: nat, k: nat, c: Chain)
    requires Ready(cfg) && Additions(ops) && j < |ops| && c in cfg.chains
    ensures var mid := Interrupted(cfg, ops, j, k);
            c in mid.chains && forall r | r in RulesFor(ops[..j], c) :: r in mid.chains[c]
  {
    hide After, SyncAll;
    SyncedMembers(cfg, ops[..j], c);
    SyncedChain(cfg, ops[..j], c);
    assert ops[j] in ops;
    ChainEffect(SyncAll(cfg, ops[..j]), ops[j], k, c);
  }

  lemma SameSet(cfg: Config, ops: seq<Op>, j: nat, k: nat, n: string)
    requires Ready(cfg) && Additions(ops) && DistinctNames(ops) && j < |ops| && Ready(Interrupted(cfg, ops, j, k))
    ensures SameAt(SyncAll(Interrupted(cfg, ops, j, k), ops[..j]).sets, Interrupted(cfg, ops, j, k).sets, n)
  {
    hide After, SyncAll;
    var mid, before := Interrupted(cfg, ops, j, k), SyncAll(cfg, ops[..j]);
    SyncedChain(cfg, ops[..j], NatEgress);
    SyncedSets(cfg, ops[..j], n);
    SyncedSets(mid, ops[..j], n);
    FrameSets(before, ops[j], k);
    if i :| 0 <= i < j && ops[i].name == n {
      assert ops[..j][i].name == n && ops[j].name != n;
    }
  }

  // ---- Failures that are logged and passed over ----

  ghost predicate AttemptsAt(atts: seq<Attempt>, ops: seq<Op>) {
    forall att | att in atts :: att.op in ops
  }

  /** Attempts at additions take no rule away, and add none but those of the additions. */
  lemma {:induction false} AttemptedMembers(cfg: Config, atts: seq<Attempt>, ops: seq<Op>, c: Chain)
    requires Ready(cfg) && Additions(ops) && AttemptsAt(atts, ops) && c in cfg.chains
    ensures Ready(RunAll(cfg, atts)) && RunAll(cfg, atts).chains.Keys == cfg.chains.Keys
    ensures forall r | r in cfg.chains[c] :: r in RunAll(cfg, atts).chains[c]
    ensures forall r | r in RunAll(cfg, atts).chains[c] :: r in cfg.chains[c] || r in RulesFor(ops, c)
    decreases |atts|
  {
    hide After, RulesFor;
    FrameAll(cfg, atts);
    if atts != [] {
      var n := |atts| - 1;
      AttemptedMembers(cfg, atts[..n], ops, c);
      assert atts[n] in atts;
      AttemptedOnce(RunAll(cfg, atts[..n]), atts[n].op, atts[n].k, ops, c);
    }
  }

  lemma AttemptedOnce(cfg: Config, op: Op, k: nat, ops: seq<Op>, c: Chain)
    requires Ready(cfg) && Additions(ops) && op in ops && c in cfg.chains
    ensures c in After(cfg, op, k).chains
    ensures forall r | r in cfg.chains[c] :: r in After(cfg, op, k).chains[c]
    ensures forall r | r in After(cfg, op, k).chains[c] :: r in cfg.chains[c] || r in RulesFor(ops, c)
  {
    hide After, RulesFor, EditOf, RuleOf;
    ChainEffect(cfg, op, k, c);
    EditGrows(op, k, c);
    RulesForMembers(ops, c);
  }

  lemma EditGrows(op: Op, k: nat, c: Chain)
    requires op.AddRoute? || op.AddSnat?
    ensures EditOf(op, k, true, c) in {Keep, EditOf(op, |Program(op)|, true, c)}
    ensures EditOf(op, k, true, c) != Cut
  {
  }

  lemma {:induction false} AttemptedSets(cfg: Config, atts: seq<Attempt>, ops: seq<Op>, name: string)
    requires Ready(cfg) && AttemptsAt(atts, ops) && forall op | op in ops :: op.name != name
    ensures SameAt(RunAll(cfg, atts).sets, cfg.sets, name)
    decreases |atts|
  {
    hide After;
    if atts != [] {
      var n := |atts| - 1;
      FrameAll(cfg, atts[..n]);
      AttemptedSets(cfg, atts[..n], ops, name);
      assert atts[n] in atts;
      FrameSets(RunAll(cfg, atts[..n]), atts[n].op, atts[n].k);
    }
  }

  /** Whatever additions of a pass failed before, in whatever order and at whatever command, one pass
      without failures gives the same sets and the same rules in every chain as if none had. */
  lemma EventuallyComplete(cfg: Config, atts: seq<Attempt>, ops: seq<Op>)
    requires Ready(cfg) && NoDuplicates(cfg) && Additions(ops) && DistinctNames(ops) && AttemptsAt(atts, ops)
    ensures SyncAll(RunAll(cfg, atts), ops).sets == SyncAll(cfg, ops).sets
    ensures SyncAll(RunAll(cfg, atts), ops).chains.Keys == SyncAll(cfg, ops).chains.Keys == cfg.chains.Keys
    ensures forall c | c in cfg.chains ::
              multiset(SyncAll(RunAll(cfg, atts), ops).chains[c]) == multiset(SyncAll(cfg, ops).chains[c])
  {
    hide SyncAll, RunAll;
    var mid := RunAll(cfg, atts);
    FrameAll(cfg, atts);
    SyncedChain(cfg, ops, NatEgress);
    SyncedChain(mid, ops, NatEgress);
    forall c | c in cfg.chains ensures multiset(SyncAll(mid, ops).chains[c]) == multiset(SyncAll(cfg, ops).chains[c]) {
      EventualChain(cfg, atts, ops, c);
    }
    forall n ensures SameAt(SyncAll(mid, ops).sets, SyncAll(cfg, ops).sets, n) {
      EventualSet(cfg, atts, ops, n);
    }
    SameMaps(SyncAll(mid, ops).sets, SyncAll(cfg, ops).sets);
  }

  lemma EventualChain(cfg: Config, atts: seq<Attempt>, ops: seq<Op>, c: Chain)
    requires Ready(cfg) && NoDuplicates(cfg) && Additions(ops) && AttemptsAt(atts, ops) && c in cfg.chains
    ensures c in SyncAll(RunAll(cfg, atts), ops).chains && c in SyncAll(cfg, ops).chains
    ensures multiset(SyncAll(RunAll(cfg, atts), ops).chains[c]) == multiset(SyncAll(cfg, ops).chains[c])
  {
    hide RunAll;
    var mid := RunAll(cfg, atts);
    AttemptedMembers(cfg, atts, ops, c);
    FrameAll(cfg, atts);
    FrameAll(cfg, Complete(ops));
    FrameAll(mid, Complete(ops));
    if c in MANAGED {
      DuplicateFree(cfg, atts);
      DuplicateFree(cfg, Complete(ops));
      DuplicateFree(mid, Complete(ops));
      SyncedMembers(cfg, ops, c);
      SyncedMembers(mid, ops, c);
      SameElements(SyncAll(mid, ops).chains[c], SyncAll(cfg, ops).chains[c]);
    }
  }

  lemma EventualSet(cfg: Config, atts: seq<Attempt>, ops: seq<Op>, name: string)
    requires Ready(cfg) && Additions(ops) && DistinctNames(ops) && AttemptsAt(atts, ops)
    ensures SameAt(SyncAll(RunAll(cfg, atts), ops).sets, SyncAll(cfg, ops).sets, name)
  {
    hide SyncAll, RunAll;
    FrameAll(cfg, atts);
    SyncedSets(cfg, ops, name);
    SyncedSets(RunAll(cfg, atts), ops, name);
    if forall i | 0 <= i < |ops| :: ops[i].name != name {
      AttemptedSets(cfg, atts, ops, name);
    }
  }
}
