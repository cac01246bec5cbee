/** The command programs of the director and gateway operations, and the configuration each one
    leaves when it stops after any number of commands. */
module Programs {
  import opened Base
  import opened Net
  import opened Netfilter

  const FWMARK: nat := 1000

  function MarkRule(name: string, dst: Cidr): Rule {
    Rule(Some(name), None, Some(dst), Mark(FWMARK))
  }

  function AcceptRule(name: string, dst: Cidr): Rule {
    Rule(Some(name), None, Some(dst), Accept)
  }

  function SnatRule(name: string, dst: Cidr, egressIP: Ip): Rule {
    Rule(Some(name), None, Some(dst), Snat(egressIP))
  }

  /** Return traffic from the destination to the egress address is marked too. */
  function ReturnMarkRule(dst: Cidr, egressIP: Ip): Rule {
    Rule(None, Some(dst), Some(HostCidr(egressIP)), Mark(FWMARK))
  }

  function JumpRule(chain: Chain): Rule {
    Rule(None, None, None, Jump(chain))
  }

  function Entries(name: string, ips: seq<Ip>): (cmds: seq<Cmd>)
    ensures |cmds| == |ips|
    ensures forall i | 0 <= i < |ips| :: cmds[i] == AddEntry(name, ips[i])
  {
    seq(|ips|, i requires 0 <= i < |ips| => AddEntry(name, ips[i]))
  }

  function Fill(name: string, ips: seq<Ip>): seq<Cmd> {
    [CreateSet(name), FlushSet(name)] + Entries(name, ips)
  }

  // ---- Operations ----

  datatype Op =
    | AddRoute(name: string, ips: seq<Ip>, dst: Cidr)               // AddRouteToGateway
    | DropRoute(name: string, dst: Cidr)                            // DeleteRouteToGateway
    | StaleRoute(name: string, dst: Cidr)                           // ClearStaleRouteToGateway
    | AddSnat(name: string, ips: seq<Ip>, dst: Cidr, egressIP: Ip)  // AddStaticIptablesRule
    | ClearSnat(name: string, dst: Cidr, egressIP: Ip)              // ClearStaticIptablesRule, DeleteStaticIptablesRule

  function Program(op: Op): seq<Cmd> {
    match op
    case AddRoute(n, ips, dst) =>
      Fill(n, ips) + [EnsureFirst(ManglePrerouting, MarkRule(n, dst)), EnsureLast(NatBypass, AcceptRule(n, dst)),
                      LinkStep, LinkStep, LinkStep]
    case DropRoute(n, dst) =>
      [CreateSet(n), FlushSet(n),
       DeletePresent(ManglePrerouting, MarkRule(n, dst)), DeletePresent(NatBypass, AcceptRule(n, dst)),
       LinkStep, DestroySet(n)]
    case StaleRoute(n, dst) =>
      [DeletePresent(ManglePrerouting, MarkRule(n, dst)), DeletePresent(NatBypass, AcceptRule(n, dst)), LinkStep]
    case AddSnat(n, ips, dst, eip) =>
      Fill(n, ips) + [EnsureLast(FilterEgress, AcceptRule(n, dst)), EnsureFirst(NatEgress, SnatRule(n, dst, eip)),
                      EnsureFirst(ManglePrerouting, ReturnMarkRule(dst, eip))]
    case ClearSnat(n, dst, eip) =>
      [DeleteRule(NatEgress, SnatRule(n, dst, eip)), DeletePresent(FilterEgress, AcceptRule(n, dst)),
       CreateSet(n), FlushSet(n), DestroySet(n)]
  }

  /** An operation together with the number of its commands that are carried out before one fails. */
  datatype Attempt = Attempt(op: Op, k: nat)

  function After(cfg: Config, op: Op, k: nat): Config {
    Exec(Program(op), cfg, k).cfg
  }

  /** No command fails, except those the kernel refuses. */
  function Full(cfg: Config, op: Op): Config {
    After(cfg, op, |Program(op)|)
  }

  function RunAll(cfg: Config, atts: seq<Attempt>): Config
    decreases |atts|
  {
    if atts == [] then cfg
    else var n := |atts| - 1; After(RunAll(cfg, atts[..n]), atts[n].op, atts[n].k)
  }

  function Complete(ops: seq<Op>): (atts: seq<Attempt>)
    ensures |atts| == |ops|
    ensures forall i | 0 <= i < |ops| :: atts[i] == Attempt(ops[i], |Program(ops[i])|)
  {
    seq(|ops|, i requires 0 <= i < |ops| => Attempt(ops[i], |Program(ops[i])|))
  }

  /** One operation after the other, each with no command failing but those the kernel refuses. */
  function SyncAll(cfg: Config, ops: seq<Op>): Config {
    RunAll(cfg, Complete(ops))
  }

  lemma RunSnoc(cfg: Config, atts: seq<Attempt>, att: Attempt)
    ensures RunAll(cfg, atts + [att]) == After(RunAll(cfg, atts), att.op, att.k)
  {
    assert (atts + [att])[..|atts|] == atts;
  }

  lemma SyncSnoc(cfg: Config, ops: seq<Op>, op: Op)
    ensures SyncAll(cfg, ops + [op]) == Full(SyncAll(cfg, ops), op)
  {
    assert Complete(ops + [op]) == Complete(ops) + Complete([op]);
    RunSnoc(cfg, Complete(ops), Complete([op])[0]);
    assert Complete([op]) == [Complete([op])[0]];
  }

  lemma SyncHead(cfg: Config, ops: seq<Op>)
    requires ops != []
    ensures SyncAll(cfg, ops) == SyncAll(Full(cfg, ops[0]), ops[1..])
  {
    var first := Complete(ops)[0];
    assert Complete(ops) == [first] + Complete(ops[1..]);
    RunAllConcat(cfg, [first], Complete(ops[1..]));
    RunTwo(cfg, first, first);
  }

  lemma {:induction false} RunAllConcat(cfg: Config, a: seq<Attempt>, b: seq<Attempt>)
    ensures RunAll(cfg, a + b) == RunAll(RunAll(cfg, a), b)
    decreases |b|
  {
    if b == [] {
      assert a + b == a;
    } else {
      var n := |b| - 1;
      assert (a + b)[..|a + b| - 1] == a + b[..n];
      RunAllConcat(cfg, a, b[..n]);
    }
  }

  lemma RunTwo(cfg: Config, a: Attempt, b: Attempt)
    ensures RunAll(cfg, [a]) == After(cfg, a.op, a.k)
    ensures RunAll(cfg, [a, b]) == After(After(cfg, a.op, a.k), b.op, b.k)
  {
    assert [a][..0] == [] && [a, b][..1] == [a];
    assert RunAll(cfg, [a]) == After(RunAll(cfg, [a][..0]), a.op, a.k);
  }

  /** The chains both setups have put in place, next to the built-in ones. */
  ghost predicate Ready(cfg: Config) {
    {ManglePrerouting, NatPostrouting, NatBypass, NatEgress, FilterForward, FilterEgress} <= cfg.chains.Keys
  }

  // ---- The effect of each operation, wherever it stops ----

  /** What `k` commands of a set-filling prefix leave of the sets. */
  function Filled(sets: map<string, set<Ip>>, name: string, ips: seq<Ip>, k: nat): map<string, set<Ip>> {
    if k == 0 then sets
    else if k == 1 then (if name in sets then sets else sets[name := {}])
    else sets[name := Elems(ips[..if k - 2 <= |ips| then k - 2 else |ips|])]
  }

  /** One more command. */
  lemma Step(prog: seq<Cmd>, cfg: Config, k: nat, now: Config)
    requires k < |prog| && Exec(prog, cfg, k) == Progress(now, k) && Enabled(prog[k], now)
    ensures Exec(prog, cfg, k + 1) == Progress(Apply(prog[k], now), k + 1)
  {
  }

  lemma PutTwice<K, V>(m: map<K, V>, x: K, a: V, b: V)
    ensures m[x := a][x := b] == m[x := b]
  {
  }

  lemma {:induction false} FillEffect(cfg: Config, prog: seq<Cmd>, name: string, ips: seq<Ip>, k: nat)
    requires Fill(name, ips) <= prog && k <= |ips| + 2
    ensures Exec(prog, cfg, k) == Progress(cfg.(sets := Filled(cfg.sets, name, ips, k)), k)
  {
    if k > 0 {
      FillEffect(cfg, prog, name, ips, k - 1);
      var now := cfg.(sets := Filled(cfg.sets, name, ips, k - 1));
      assert prog[k - 1] == Fill(name, ips)[k - 1];
      Step(prog, cfg, k - 1, now);
      if k == 2 {
        PutTwice(cfg.sets, name, {}, {});
        assert Elems(ips[..0]) == {};
      } else if k > 2 {
        assert ips[..k - 2] == ips[..k - 3] + [ips[k - 3]];
        assert Elems(ips[..k - 2]) == Elems(ips[..k - 3]) + {ips[k - 3]};
        PutTwice(cfg.sets, name, Elems(ips[..k - 3]), Elems(ips[..k - 2]));
      }
    }
  }

  /** Beyond its last command a program does nothing. */
  lemma {:induction false} ExecBeyond(prog: seq<Cmd>, cfg: Config, k: nat)
    requires k >= |prog|
    ensures Exec(prog, cfg, k) == Exec(prog, cfg, |prog|)
  {
    if k > |prog| {
      ExecBeyond(prog, cfg, k - 1);
    }
  }

  function Updated(cfg: Config, yes: bool, c: Chain, rules: seq<Rule>): Config {
    if yes then cfg.(chains := cfg.chains[c := rules]) else cfg
  }

  /** The commands behind the filling of the set, from command `m` on. */
  lemma {:induction false} RouteTail(prog: seq<Cmd>, cfg: Config, m: nat, now: Config, mark: Rule, accept: Rule, k: nat)
    requires |prog| == m + 5 && m <= k <= m + 5
    requires prog[m] == EnsureFirst(ManglePrerouting, mark) && prog[m + 1] == EnsureLast(NatBypass, accept)
    requires prog[m + 2] == prog[m + 3] == prog[m + 4] == LinkStep
    requires Exec(prog, cfg, m) == Progress(now, m) && ManglePrerouting in now.chains && NatBypass in now.chains
    ensures
      var c1 := Updated(now, k >= m + 1, ManglePrerouting, PushFirst(now.chains[ManglePrerouting], mark));
      Exec(prog, cfg, k) == Progress(Updated(c1, k >= m + 2, NatBypass, PushLast(now.chains[NatBypass], accept)), k)
  {
    hide PushFirst, PushLast, InUse;
    if k > m {
      RouteTail(prog, cfg, m, now, mark, accept, k - 1);
      Step(prog, cfg, k - 1, Exec(prog, cfg, k - 1).cfg);
    }
  }

  lemma {:induction false} AddRouteEffect(cfg: Config, name: string, ips: seq<Ip>, dst: Cidr, k: nat)
    requires Ready(cfg)
    ensures
      var n := |ips|;
      var c0 := cfg.(sets := Filled(cfg.sets, name, ips, k));
      var c1 := Updated(c0, k >= n + 3, ManglePrerouting, PushFirst(cfg.chains[ManglePrerouting], MarkRule(name, dst)));
      After(cfg, AddRoute(name, ips, dst), k)
      == Updated(c1, k >= n + 4, NatBypass, PushLast(cfg.chains[NatBypass], AcceptRule(name, dst)))
    ensures k <= |ips| + 7 ==> Exec(Program(AddRoute(name, ips, dst)), cfg, k).done == k
  {
    var prog := Program(AddRoute(name, ips, dst));
    var n := |ips|;
    if k <= n + 2 {
      FillEffect(cfg, prog, name, ips, k);
    } else if k > n + 7 {
      ExecBeyond(prog, cfg, k);
      AddRouteEffect(cfg, name, ips, dst, n + 7);
    } else {
      FillEffect(cfg, prog, name, ips, n + 2);
      var now := cfg.(sets := Filled(cfg.sets, name, ips, n + 2));
      RouteTail(prog, cfg, n + 2, now, MarkRule(name, dst), AcceptRule(name, dst), k);
    }
  }

  lemma {:induction false} SnatTail(prog: seq<Cmd>, cfg: Config, m: nat, now: Config, accept: Rule, snat: Rule,
                                    back: Rule, k: nat)
    requires |prog| == m + 3 && m <= k <= m + 3
    requires prog[m] == EnsureLast(FilterEgress, accept) && prog[m + 1] == EnsureFirst(NatEgress, snat)
    requires prog[m + 2] == EnsureFirst(ManglePrerouting, back)
    requires Exec(prog, cfg, m) == Progress(now, m) && {FilterEgress, NatEgress, ManglePrerouting} <= now.chains.Keys
    ensures
      var c1 := Updated(now, k >= m + 1, FilterEgress, PushLast(now.chains[FilterEgress], accept));
      var c2 := Updated(c1, k >= m + 2, NatEgress, PushFirst(now.chains[NatEgress], snat));
      Exec(prog, cfg, k)
      == Progress(Updated(c2, k >= m + 3, ManglePrerouting, PushFirst(now.chains[ManglePrerouting], back)), k)
  {
    if k > m {
      SnatTail(prog, cfg, m, now, accept, snat, back, k - 1);
      Step(prog, cfg, k - 1, Exec(prog, cfg, k - 1).cfg);
    }
  }

  lemma {:induction false} AddSnatEffect(cfg: Config, name: string, ips: seq<Ip>, dst: Cidr, eip: Ip, k: nat)
    requires Ready(cfg)
    ensures
      var n := |ips|;
      var c0 := cfg.(sets := Filled(cfg.sets, name, ips, k));
      var c1 := Updated(c0, k >= n + 3, FilterEgress, PushLast(cfg.chains[FilterEgress], AcceptRule(name, dst)));
      var c2 := Updated(c1, k >= n + 4, NatEgress, PushFirst(cfg.chains[NatEgress], SnatRule(name, dst, eip)));
      After(cfg, AddSnat(name, ips, dst, eip), k)
      == Updated(c2, k >= n + 5, ManglePrerouting, PushFirst(cfg.chains[ManglePrerouting], ReturnMarkRule(dst, eip)))
    ensures k <= |ips| + 5 ==> Exec(Program(AddSnat(name, ips, dst, eip)), cfg, k).done == k
  {
    var prog := Program(AddSnat(name, ips, dst, eip));
    var n := |ips|;
    if k <= n + 2 {
      FillEffect(cfg, prog, name, ips, k);
    } else if k > n + 5 {
      ExecBeyond(prog, cfg, k);
      AddSnatEffect(cfg, name, ips, dst, eip, n + 5);
    } else {
      FillEffect(cfg, prog, name, ips, n + 2);
      var now := cfg.(sets := Filled(cfg.sets, name, ips, n + 2));
      SnatTail(prog, cfg, n + 2, now, AcceptRule(name, dst), SnatRule(name, dst, eip), ReturnMarkRule(dst, eip), k);
    }
  }

  /** What a complete addition leaves, told without its commands. */
  lemma FullAddRoute(cfg: Config, name: string, ips: seq<Ip>, dst: Cidr)
    requires Ready(cfg)
    ensures Full(cfg, AddRoute(name, ips, dst))
         == Config(cfg.sets[name := Elems(ips)],
                   cfg.chains[ManglePrerouting := PushFirst(cfg.chains[ManglePrerouting], MarkRule(name, dst))]
                             [NatBypass := PushLast(cfg.chains[NatBypass], AcceptRule(name, dst))])
  {
    AddRouteEffect(cfg, name, ips, dst, |ips| + 7);
    assert ips[..|ips|] == ips;
  }

  lemma FullAddSnat(cfg: Config, name: string, ips: seq<Ip>, dst: Cidr, eip: Ip)
    requires Ready(cfg)
    ensures Full(cfg, AddSnat(name, ips, dst, eip))
         == Config(cfg.sets[name := Elems(ips)],
                   cfg.chains[FilterEgress := PushLast(cfg.chains[FilterEgress], AcceptRule(name, dst))]
                             [NatEgress := PushFirst(cfg.chains[NatEgress], SnatRule(name, dst, eip))]
                             [ManglePrerouting := PushFirst(cfg.chains[ManglePrerouting], ReturnMarkRule(dst, eip))])
  {
    AddSnatEffect(cfg, name, ips, dst, eip, |ips| + 5);
    assert ips[..|ips|] == ips;
  }

  /** The sets after `k` commands of a create, flush, destroy sequence that starts at command `at`. */
  function Emptied(cfg: Config, name: string, k: nat): map<string, set<Ip>> {
    if k == 0 then cfg.sets
    else if k == 1 then (if name in cfg.sets then cfg.sets else cfg.sets[name := {}])
    else cfg.sets[name := {}]
  }

  /** The last step of a deletion: refused while a rule names the set. */
  function Destroyed(cfg: Config, yes: bool, name: string): Config {
    if yes && !InUse(cfg, name) then cfg.(sets := cfg.sets - {name}) else cfg
  }

  lemma {:induction false} DropRouteEffect(cfg: Config, name: string, dst: Cidr, k: nat)
    requires Ready(cfg)
    ensures
      var c0 := cfg.(sets := Emptied(cfg, name, k));
      var c1 := Updated(c0, k >= 3, ManglePrerouting, Remove(cfg.chains[ManglePrerouting], MarkRule(name, dst)));
      var c2 := Updated(c1, k >= 4, NatBypass, Remove(cfg.chains[NatBypass], AcceptRule(name, dst)));
      After(cfg, DropRoute(name, dst), k) == Destroyed(c2, k >= 6, name)
    ensures k <= 5 ==> Exec(Program(DropRoute(name, dst)), cfg, k).done == k
  {
    var prog := Program(DropRoute(name, dst));
    if k > 6 {
      ExecBeyond(prog, cfg, k);
      DropRouteEffect(cfg, name, dst, 6);
    } else if k > 0 {
      DropRouteEffect(cfg, name, dst, k - 1);
      PutTwice(cfg.sets, name, {}, {});
      var now := After(cfg, DropRoute(name, dst), k - 1);
      if k < 6 || !InUse(now, name) {
        Step(prog, cfg, k - 1, now);
      }
    }
  }

  lemma {:induction false} StaleRouteEffect(cfg: Config, name: string, dst: Cidr, k: nat)
    requires Ready(cfg)
    ensures
      var c1 := Updated(cfg, k >= 1, ManglePrerouting, Remove(cfg.chains[ManglePrerouting], MarkRule(name, dst)));
      After(cfg, StaleRoute(name, dst), k)
      == Updated(c1, k >= 2, NatBypass, Remove(cfg.chains[NatBypass], AcceptRule(name, dst)))
    ensures k <= 3 ==> Exec(Program(StaleRoute(name, dst)), cfg, k).done == k
  {
    var prog := Program(StaleRoute(name, dst));
    if k > 3 {
      ExecBeyond(prog, cfg, k);
      StaleRouteEffect(cfg, name, dst, 3);
    } else if k > 0 {
      StaleRouteEffect(cfg, name, dst, k - 1);
    }
  }

  /** The commands that clear a gateway rule whose SNAT rule is there. */
  lemma {:induction false} ClearTail(prog: seq<Cmd>, cfg: Config, name: string, snat: Rule, accept: Rule, k: nat)
    requires prog == [DeleteRule(NatEgress, snat), DeletePresent(FilterEgress, accept), CreateSet(name),
        FlushSet(name), DestroySet(name)]
    requires NatEgress in cfg.chains && FilterEgress in cfg.chains && snat in cfg.chains[NatEgress] && k <= 4
    ensures
      var c0 := cfg.(sets := Emptied(cfg, name, if k >= 2 then k - 2 else 0));
      var c1 := Updated(c0, k >= 1, NatEgress, Remove(cfg.chains[NatEgress], snat));
      Exec(prog, cfg, k) == Progress(Updated(c1, k >= 2, FilterEgress, Remove(cfg.chains[FilterEgress], accept)), k)
  {
    if k > 0 {
      ClearTail(prog, cfg, name, snat, accept, k - 1);
      PutTwice(cfg.sets, name, {}, {});
      Step(prog, cfg, k - 1, Exec(prog, cfg, k - 1).cfg);
    }
  }

  /** The SNAT rule is deleted unguarded: without it the operation fails before doing anything. */
  lemma ClearSnatEffect(cfg: Config, name: string, dst: Cidr, eip: Ip, k: nat)
    requires Ready(cfg)
    ensures SnatRule(name, dst, eip) !in cfg.chains[NatEgress] ==> After(cfg, ClearSnat(name, dst, eip), k) == cfg
    ensures
      SnatRule(name, dst, eip) in cfg.chains[NatEgress] ==>
        var c0 := cfg.(sets := Emptied(cfg, name, if k >= 2 then k - 2 else 0));
        var c1 := Updated(c0, k >= 1, NatEgress, Remove(cfg.chains[NatEgress], SnatRule(name, dst, eip)));
        var c2 := Updated(c1, k >= 2, FilterEgress, Remove(cfg.chains[FilterEgress], AcceptRule(name, dst)));
        After(cfg, ClearSnat(name, dst, eip), k) == Destroyed(c2, k >= 5, name)
  {
    var prog := Program(ClearSnat(name, dst, eip));
    if SnatRule(name, dst, eip) !in cfg.chains[NatEgress] {
      ExecStuck(prog, cfg, k);
    } else if k <= 4 {
      ClearTail(prog, cfg, name, SnatRule(name, dst, eip), AcceptRule(name, dst), k);
    } else {
      ExecBeyond(prog, cfg, k);
      ClearTail(prog, cfg, name, SnatRule(name, dst, eip), AcceptRule(name, dst), 4);
      var now := Exec(prog, cfg, 4).cfg;
      if !InUse(now, name) {
        Step(prog, cfg, 4, now);
      }
    }
  }

  lemma {:induction false} ExecStuck(prog: seq<Cmd>, cfg: Config, k: nat)
    requires |prog| > 0 && !Enabled(prog[0], cfg)
    ensures Exec(prog, cfg, k) == Progress(cfg, 0)
  {
    if k > 0 {
      ExecStuck(prog, cfg, k - 1);
    }
  }

  // ---- Frames ----

  /** The chains an operation edits. */
  const MANAGED: set<Chain> := {ManglePrerouting, NatBypass, NatEgress, FilterEgress}

  ghost predicate SameSetsBut(a: map<string, set<Ip>>, b: map<string, set<Ip>>, name: string) {
    forall m | m != name :: (m in a <==> m in b) && (m in a ==> a[m] == b[m])
  }

  /** An operation touches no set but its own, */
  lemma FrameSets(cfg: Config, op: Op, k: nat)
    requires Ready(cfg)
    ensures SameSetsBut(After(cfg, op, k).sets, cfg.sets, op.name)
  {
    match op
    case AddRoute(n, ips, dst) => AddRouteEffect(cfg, n, ips, dst, k);
    case DropRoute(n, dst) => DropRouteEffect(cfg, n, dst, k);
    case StaleRoute(n, dst) => StaleRouteEffect(cfg, n, dst, k);
    case AddSnat(n, ips, dst, eip) => AddSnatEffect(cfg, n, ips, dst, eip, k);
    case ClearSnat(n, dst, eip) => ClearSnatEffect(cfg, n, dst, eip, k);
  }

  /** Clearing a gateway rule starts only when its SNAT rule is there. */
  ghost predicate Starts(cfg: Config, op: Op)
    requires Ready(cfg)
  {
    op.ClearSnat? ==> SnatRule(op.name, op.dst, op.egressIP) in cfg.chains[NatEgress]
  }

  /** What an operation does to one chain, all of it through a single rule. */
  datatype Edit = Keep | First | Last | Cut

  function Edited(e: Edit, rules: seq<Rule>, r: Rule): seq<Rule> {
    match e
    case Keep => rules
    case First => PushFirst(rules, r)
    case Last => PushLast(rules, r)
    case Cut => Remove(rules, r)
  }

  /** The rule of an operation in a chain. */
  function RuleOf(op: Op, c: Chain): Rule {
    match op
    case AddSnat(n, _, dst, eip) =>
      if c == NatEgress then SnatRule(n, dst, eip)
      else if c == FilterEgress then AcceptRule(n, dst)
      else ReturnMarkRule(dst, eip)
    case ClearSnat(n, dst, eip) => if c == NatEgress then SnatRule(n, dst, eip) else AcceptRule(n, dst)
    case _ => if c == ManglePrerouting then MarkRule(op.name, op.dst) else AcceptRule(op.name, op.dst)
  }

  /** The edit of a chain by the first `k` commands of an operation. */
  function EditOf(op: Op, k: nat, starts: bool, c: Chain): Edit {
    match op
    case AddRoute(n, ips, dst) =>
      if c == ManglePrerouting && k >= |ips| + 3 then First else if c == NatBypass && k >= |ips| + 4 then Last else Keep
    case DropRoute(n, dst) =>
      if (c == ManglePrerouting && k >= 3) || (c == NatBypass && k >= 4) then Cut else Keep
    case StaleRoute(n, dst) =>
      if (c == ManglePrerouting && k >= 1) || (c == NatBypass && k >= 2) then Cut else Keep
    case AddSnat(n, ips, dst, eip) =>
      if c == FilterEgress && k >= |ips| + 3 then Last
      else if (c == NatEgress && k >= |ips| + 4) || (c == ManglePrerouting && k >= |ips| + 5) then First
      else Keep
    case ClearSnat(n, dst, eip) =>
      if starts && ((c == NatEgress && k >= 1) || (c == FilterEgress && k >= 2)) then Cut else Keep
  }

  ghost predicate HasEffect(cfg: Config, op: Op, k: nat, c: Chain)
    requires Ready(cfg) && c in cfg.chains
  {
    && c in After(cfg, op, k).chains
    && After(cfg, op, k).chains[c] == Edited(EditOf(op, k, Starts(cfg, op), c), cfg.chains[c], RuleOf(op, c))
  }

  /** An operation, stopped after any number of commands, edits a chain in at most one place. */
  lemma ChainEffect(cfg: Config, op: Op, k: nat, c: Chain)
    requires Ready(cfg) && c in cfg.chains
    ensures HasEffect(cfg, op, k, c)
  {
    match op
    case AddRoute(n, ips, dst) => AddRouteChain(cfg, n, ips, dst, k, c);
    case DropRoute(n, dst) => DropRouteChain(cfg, n, dst, k, c);
    case StaleRoute(n, dst) => StaleRouteChain(cfg, n, dst, k, c);
    case AddSnat(n, ips, dst, eip) => AddSnatChain(cfg, n, ips, dst, eip, k, c);
    case ClearSnat(n, dst, eip) => ClearSnatChain(cfg, n, dst, eip, k, c);
  }

  lemma AddRouteChain(cfg: Config, n: string, ips: seq<Ip>, dst: Cidr, k: nat, c: Chain)
    requires Ready(cfg) && c in cfg.chains
    ensures HasEffect(cfg, AddRoute(n, ips, dst), k, c)
  {
    hide Exec, Program, PushFirst, PushLast, Filled;
    AddRouteEffect(cfg, n, ips, dst, k);
  }

  lemma DropRouteChain(cfg: Config, n: string, dst: Cidr, k: nat, c: Chain)
    requires Ready(cfg) && c in cfg.chains
    ensures HasEffect(cfg, DropRoute(n, dst), k, c)
  {
    DropRouteEffect(cfg, n, dst, k);
  }

  lemma StaleRouteChain(cfg: Config, n: string, dst: Cidr, k: nat, c: Chain)
    requires Ready(cfg) && c in cfg.chains
    ensures HasEffect(cfg, StaleRoute(n, dst), k, c)
  {
    StaleRouteEffect(cfg, n, dst, k);
  }

  lemma AddSnatChain(cfg: Config, n: string, ips: seq<Ip>, dst: Cidr, eip: Ip, k: nat, c: Chain)
    requires Ready(cfg) && c in cfg.chains
    ensures HasEffect(cfg, AddSnat(n, ips, dst, eip), k, c)
  {
    hide Exec, Program, PushFirst, PushLast, Filled;
    AddSnatEffect(cfg, n, ips, dst, eip, k);
  }

  lemma ClearSnatChain(cfg: Config, n: string, dst: Cidr, eip: Ip, k: nat, c: Chain)
    requires Ready(cfg) && c in cfg.chains
    ensures HasEffect(cfg, ClearSnat(n, dst, eip), k, c)
  {
    ClearSnatEffect(cfg, n, dst, eip, k);
  }

  ghost predicate SameChainsBut(a: Config, b: Config, chains: set<Chain>) {
    a.chains.Keys == b.chains.Keys && forall c | c in b.chains && c !in chains :: a.chains[c] == b.chains[c]
  }

  /** and no chain but the four managed ones. */
  lemma FrameChains(cfg: Config, op: Op, k: nat)
    requires Ready(cfg)
    ensures SameChainsBut(After(cfg, op, k), cfg, MANAGED)
  {
    match op
    case AddRoute(n, ips, dst) => AddRouteEffect(cfg, n, ips, dst, k);
    case DropRoute(n, dst) => DropRouteEffect(cfg, n, dst, k);
    case StaleRoute(n, dst) => StaleRouteEffect(cfg, n, dst, k);
    case AddSnat(n, ips, dst, eip) => AddSnatEffect(cfg, n, ips, dst, eip, k);
    case ClearSnat(n, dst, eip) => ClearSnatEffect(cfg, n, dst, eip, k);
  }

  lemma {:induction false} FrameAll(cfg: Config, atts: seq<Attempt>)
    requires Ready(cfg)
    ensures SameChainsBut(RunAll(cfg, atts), cfg, MANAGED)
    decreases |atts|
  {
    if atts != [] {
      var n := |atts| - 1;
      FrameAll(cfg, atts[..n]);
      FrameChains(RunAll(cfg, atts[..n]), atts[n].op, atts[n].k);
    }
  }

  /** The configuration a run reaches. */
  ghost function Reached(start: Config, atts: seq<Attempt>): (cfg: Config)
    requires Ready(start)
    ensures cfg == RunAll(start, atts) && Ready(cfg) && cfg.chains.Keys == start.chains.Keys
  {
    FrameAll(start, atts);
    RunAll(start, atts)
  }

  ghost function AllSynced(start: Config, ops: seq<Op>): (cfg: Config)
    requires Ready(start)
    ensures cfg == SyncAll(start, ops) && Ready(cfg)
  {
    Reached(start, Complete(ops))
  }
}
