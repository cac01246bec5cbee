/** The order of the director's commands: a packet that skips masquerading is also marked. */
module Ordering {
  import opened Base
  import opened Net
  import opened Netfilter
  import opened Programs
  import opened Integrity

  // ---- What kinds of rules the managed chains hold ----

  function ManagedTarget(c: Chain, t: Target): bool {
    match c
    case ManglePrerouting => t == Mark(FWMARK)
    case NatBypass => t == Accept
    case FilterEgress => t == Accept
    case NatEgress => t.Snat?
    case _ => false
  }

  /** Every rule of a managed chain stood there at the start or has the chain's own target. */
  ghost predicate Shaped(start: Config, cfg: Config) {
    && Ready(start) && Ready(cfg)
    && forall c, r | c in MANAGED && r in cfg.chains[c] :: r in start.chains[c] || ManagedTarget(c, r.target)
  }

  lemma ShapedRule(cfg: Config, op: Op, k: nat, c: Chain, r: Rule)
    requires Ready(cfg) && c in MANAGED && c in After(cfg, op, k).chains && r in After(cfg, op, k).chains[c]
    ensures r in cfg.chains[c] || ManagedTarget(c, r.target)
  {
    ChainEffect(cfg, op, k, c);
    RemoveMembers(cfg.chains[c], RuleOf(op, c));
  }

  lemma ShapedStep(start: Config, cfg: Config, op: Op, k: nat)
    requires Shaped(start, cfg)
    ensures Shaped(start, After(cfg, op, k))
  {
    FrameChains(cfg, op, k);
    forall c, r | c in MANAGED && r in After(cfg, op, k).chains[c]
      ensures r in start.chains[c] || ManagedTarget(c, r.target)
    {
      ShapedRule(cfg, op, k, c, r);
    }
  }

  lemma {:induction false} ShapedRun(cfg: Config, atts: seq<Attempt>)
    requires Ready(cfg)
    ensures Shaped(cfg, RunAll(cfg, atts))
    decreases |atts|
  {
    if atts != [] {
      var n := |atts| - 1;
      ShapedRun(cfg, atts[..n]);
      ShapedStep(cfg, RunAll(cfg, atts[..n]), atts[n].op, atts[n].k);
    }
  }

  // ---- Every bypass rule has its mark rule ----

  /** Between operations. */
  ghost predicate Paired(cfg: Config) {
    && Ready(cfg)
    && (forall n, dst ::
        AcceptRule(n, dst) in cfg.chains[NatBypass] ==> MarkRule(n, dst) in cfg.chains[ManglePrerouting])
    && (forall r | r in cfg.chains[NatBypass] ::
        r.srcSet.Some? && r.dst.Some? && r == AcceptRule(r.srcSet.value, r.dst.value))
  }

  /** Between commands: the mark rule may be missing as long as the set is empty. */
  ghost predicate PairedOrEmpty(cfg: Config) {
    && Ready(cfg)
    && (forall n, dst :: AcceptRule(n, dst) in cfg.chains[NatBypass] ==>
          MarkRule(n, dst) in cfg.chains[ManglePrerouting] || (n in cfg.sets ==> cfg.sets[n] == {}))
    && (forall r | r in cfg.chains[NatBypass] ::
        r.srcSet.Some? && r.dst.Some? && r == AcceptRule(r.srcSet.value, r.dst.value))
  }

  /** Every rule of the bypass chain is one of a director. */
  ghost predicate Plain(cfg: Config) {
    && Ready(cfg) && NoDuplicates(cfg)
    && forall r | r in cfg.chains[NatBypass] ::
        r.srcSet.Some? && r.dst.Some? && r == AcceptRule(r.srcSet.value, r.dst.value)
  }

  lemma PlainStep(cfg: Config, op: Op, k: nat)
    requires Plain(cfg)
    ensures Plain(After(cfg, op, k))
  {
    hide After;
    FrameChains(cfg, op, k);
    DuplicateFreeStep(cfg, op, k);
    ChainEffect(cfg, op, k, NatBypass);
    RemoveMembers(cfg.chains[NatBypass], RuleOf(op, NatBypass));
  }

  lemma {:induction false} PlainRun(cfg: Config, atts: seq<Attempt>)
    requires Plain(cfg)
    ensures Plain(RunAll(cfg, atts))
    decreases |atts|
  {
    hide After;
    if atts != [] {
      var n := |atts| - 1;
      PlainRun(cfg, atts[..n]);
      PlainStep(RunAll(cfg, atts[..n]), atts[n].op, atts[n].k);
    }
  }

  // ---- One attempt ----

  /** The attempts that do not stop between the removal of a mark rule and that of its bypass rule. */
  predicate Tidy(att: Attempt) {
    && (att.op.DropRoute? ==> att.k != 3)
    && (att.op.StaleRoute? ==> att.k != 1)
  }

  /** An attempt leaves bypass and mark rules paired if and only if it is tidy or had no bypass rule to
      leave behind. */
  lemma PairedStep(cfg: Config, att: Attempt)
    requires Paired(cfg) && NoDuplicates(cfg)
    ensures Paired(After(cfg, att.op, att.k)) <==>
        Tidy(att) || AcceptRule(att.op.name, att.op.dst) !in cfg.chains[NatBypass]
  {
    PlainStep(cfg, att.op, att.k);
    PairMembers(cfg, att.op, att.k);
    if !Tidy(att) && AcceptRule(att.op.name, att.op.dst) in cfg.chains[NatBypass] {
      assert MarkRule(att.op.name, att.op.dst) !in After(cfg, att.op, att.k).chains[ManglePrerouting];
    }
  }

  /** Its rules, and those of other pairs, after an attempt. */
  lemma PairMembers(cfg: Config, op: Op, k: nat)
    requires Ready(cfg) && NoDuplicates(cfg)
    ensures Ready(After(cfg, op, k))
    ensures forall n, dst ::
              var mine := op.name == n && op.dst == dst;
              MarkRule(n, dst) in After(cfg, op, k).chains[ManglePrerouting]
              <==> if mine && MarkEdit(op, k) != Keep then MarkEdit(op, k) == First
                  else MarkRule(n, dst) in cfg.chains[ManglePrerouting]
    ensures forall n, dst ::
              var mine := op.name == n && op.dst == dst;
              AcceptRule(n, dst) in After(cfg, op, k).chains[NatBypass]
              <==> if mine && BypassEdit(op, k) != Keep then BypassEdit(op, k) == Last
                  else AcceptRule(n, dst) in cfg.chains[NatBypass]
  {
    hide After;
    FrameChains(cfg, op, k);
    ChainEffect(cfg, op, k, ManglePrerouting);
    ChainEffect(cfg, op, k, NatBypass);
    RemoveMembers(cfg.chains[ManglePrerouting], RuleOf(op, ManglePrerouting));
    RemoveMembers(cfg.chains[NatBypass], RuleOf(op, NatBypass));
    RemoveNoDup(cfg.chains[ManglePrerouting], RuleOf(op, ManglePrerouting));
    RemoveNoDup(cfg.chains[NatBypass], RuleOf(op, NatBypass));
  }

  /** Whether the attempt got to its mark command, and what that does. */
  function MarkEdit(op: Op, k: nat): Edit {
    match op
    case AddRoute(_, ips, _) => if k >= |ips| + 3 then First else Keep
    case DropRoute(_, _) => if k >= 3 then Cut else Keep
    case StaleRoute(_, _) => if k >= 1 then Cut else Keep
    case _ => Keep
  }

  /** The same for its bypass command. */
  function BypassEdit(op: Op, k: nat): Edit {
    match op
    case AddRoute(_, ips, _) => if k >= |ips| + 4 then Last else Keep
    case DropRoute(_, _) => if k >= 4 then Cut else Keep
    case StaleRoute(_, _) => if k >= 2 then Cut else Keep
    case _ => Keep
  }

  /** An addition fills the set first and inserts the mark rule before the bypass rule; a deletion
      flushes the set before it touches either. So at every command of an operation a bypass rule has
      its mark rule or an empty set, except, and always then, after the first command of a stale-route
      clearing that finds its bypass rule and entries in its set. */
  lemma PairedBetweenCommands(cfg: Config, op: Op, k: nat)
    requires Paired(cfg) && NoDuplicates(cfg)
    ensures PairedOrEmpty(After(cfg, op, k))
       <==> !(op.StaleRoute? && k == 1 && AcceptRule(op.name, op.dst) in cfg.chains[NatBypass]
              && op.name in cfg.sets && cfg.sets[op.name] != {})
  {
    PairedStep(cfg, Attempt(op, k));
    PlainStep(cfg, op, k);
    PairMembers(cfg, op, k);
    if op.DropRoute? && k == 3 {
      DropRouteEffect(cfg, op.name, op.dst, k);
    } else if op.StaleRoute? && k == 1 {
      StaleRouteEffect(cfg, op.name, op.dst, k);
      var now := After(cfg, op, k);
      if AcceptRule(op.name, op.dst) in cfg.chains[NatBypass] {
        assert AcceptRule(op.name, op.dst) in now.chains[NatBypass]
            && MarkRule(op.name, op.dst) !in now.chains[ManglePrerouting];
      }
    }
  }

  // ---- Whole runs ----

  /** Whether a run ends with the mark rule: the last attempt for its id and destination that got to the
      mark command decides, and without one the start. */
  function Marked(start: Config, atts: seq<Attempt>, name: string, dst: Cidr): bool
    requires ManglePrerouting in start.chains
    decreases |atts|
  {
    if atts == [] then MarkRule(name, dst) in start.chains[ManglePrerouting]
    else
      var n := |atts| - 1;
      var e := MarkEdit(atts[n].op, atts[n].k);
      if atts[n].op.name == name && atts[n].op.dst == dst && e != Keep then e == First
      else Marked(start, atts[..n], name, dst)
  }

  /** The same for the bypass rule. */
  function Bypassed(start: Config, atts: seq<Attempt>, name: string, dst: Cidr): bool
    requires NatBypass in start.chains
    decreases |atts|
  {
    if atts == [] then AcceptRule(name, dst) in start.chains[NatBypass]
    else
      var n := |atts| - 1;
      var e := BypassEdit(atts[n].op, atts[n].k);
      if atts[n].op.name == name && atts[n].op.dst == dst && e != Keep then e == Last
      else Bypassed(start, atts[..n], name, dst)
  }

  lemma {:induction false} RunMembers(start: Config, atts: seq<Attempt>, name: string, dst: Cidr)
    requires Ready(start) && NoDuplicates(start)
    ensures Ready(RunAll(start, atts))
    ensures MarkRule(name, dst) in RunAll(start, atts).chains[ManglePrerouting] <==> Marked(start, atts, name, dst)
    ensures AcceptRule(name, dst) in RunAll(start, atts).chains[NatBypass] <==> Bypassed(start, atts, name, dst)
    decreases |atts|
  {
    hide After;
    if atts != [] {
      var n := |atts| - 1;
      RunMembers(start, atts[..n], name, dst);
      DuplicateFree(start, atts[..n]);
      PairMembers(RunAll(start, atts[..n]), atts[n].op, atts[n].k);
    }
  }

  /** The bypass rule is there without its mark rule. */
  predicate Unpaired(start: Config, atts: seq<Attempt>, name: string, dst: Cidr)
    requires Ready(start)
  {
    Bypassed(start, atts, name, dst) && !Marked(start, atts, name, dst)
  }

  /** Whatever failed and was repaired on the way, after a run every bypass rule has its mark rule if and
      only if no pair's last attempts left it unpaired; and where the bypass rules without one have empty
      sets the same holds between commands. */
  lemma PairedRun(start: Config, atts: seq<Attempt>)
    requires Plain(start)
    ensures Ready(RunAll(start, atts))
    ensures Paired(RunAll(start, atts)) <==> forall n, dst :: !Unpaired(start, atts, n, dst)
    ensures PairedOrEmpty(RunAll(start, atts)) <==> Harmless(start, atts)
  {
    hide RunAll;
    PlainRun(start, atts);
    forall n, dst
      ensures Unpaired(start, atts, n, dst)
         <==> && AcceptRule(n, dst) in RunAll(start, atts).chains[NatBypass]
              && MarkRule(n, dst) !in RunAll(start, atts).chains[ManglePrerouting]
    {
      RunMembers(start, atts, n, dst);
    }
  }

  ghost predicate Harmless(start: Config, atts: seq<Attempt>)
    requires Ready(start)
  {
    forall n, dst | Unpaired(start, atts, n, dst) :: n in RunAll(start, atts).sets ==> RunAll(start, atts).sets[n] == {}
  }

  // ---- The mark rules stand in front of the rules of other programs ----

  ghost predicate NoMarks(rules: seq<Rule>) {
    forall r | r in rules :: r.target != Mark(FWMARK)
  }

  ghost predicate InFront(rules: seq<Rule>, ours: seq<Rule>, base: seq<Rule>) {
    rules == ours + base && forall r | r in ours :: r.target == Mark(FWMARK)
  }

  lemma {:induction false} RemoveInFront(ours: seq<Rule>, base: seq<Rule>, r: Rule)
    requires r in ours || r !in base
    ensures Remove(ours + base, r) == Remove(ours, r) + base
  {
    if ours == [] {
      assert ours + base == base;
      RemoveMembers(base, r);
    } else {
      assert (ours + base)[1..] == ours[1..] + base;
      assert ours == [ours[0]] + ours[1..];
      if ours[0] != r {
        RemoveInFront(ours[1..], base, r);
      }
    }
  }

  lemma FrontEdit(rules: seq<Rule>, ours: seq<Rule>, base: seq<Rule>, e: Edit, r: Rule) returns (now: seq<Rule>)
    requires InFront(rules, ours, base) && NoMarks(base)
    requires e == Keep || (e != Last && r.target == Mark(FWMARK))
    ensures InFront(Edited(e, rules, r), now, base)
  {
    now := ours;
    if e == First && r !in rules {
      now := [r] + ours;
      assert [r] + (ours + base) == [r] + ours + base;
    } else if e == Cut {
      now := Remove(ours, r);
      RemoveInFront(ours, base, r);
      RemoveMembers(ours, r);
    }
  }

  /** Over every run the rules that were in PREROUTING at the start stay as they were, and all mark
      rules stand in front of them. */
  lemma {:induction false} MarksInFront(start: Config, atts: seq<Attempt>) returns (ours: seq<Rule>)
    requires Ready(start) && NoMarks(start.chains[ManglePrerouting])
    ensures Ready(RunAll(start, atts))
    ensures InFront(RunAll(start, atts).chains[ManglePrerouting], ours, start.chains[ManglePrerouting])
    decreases |atts|
  {
    hide After;
    FrameAll(start, atts);
    ours := [];
    if atts != [] {
      var n := |atts| - 1;
      var before := RunAll(start, atts[..n]);
      ours := MarksInFront(start, atts[..n]);
      ChainEffect(before, atts[n].op, atts[n].k, ManglePrerouting);
      ours := FrontEdit(before.chains[ManglePrerouting], ours, start.chains[ManglePrerouting],
                        EditOf(atts[n].op, atts[n].k, Starts(before, atts[n].op), ManglePrerouting),
                        RuleOf(atts[n].op, ManglePrerouting));
    } else {
      assert [] + start.chains[ManglePrerouting] == start.chains[ManglePrerouting];
    }
  }

  /** A mark rule of the program, for traffic out or for the return traffic, matches the packet. */
  ghost predicate MarkMatches(cfg: Config, p: Packet)
    requires ManglePrerouting in cfg.chains
  {
    exists r | r in cfg.chains[ManglePrerouting] :: r.target == Mark(FWMARK) && Matches(cfg.sets, r, p)
  }

  /** At every command of every run: a packet comes to the rules that other programs have in PREROUTING with
      the mark if and only if a mark rule matches it, and with the mark it had otherwise. */
  lemma PreroutingWalk(start: Config, atts: seq<Attempt>, p: Packet, mark: nat, depth: nat)
    requires Ready(start) && NoMarks(start.chains[ManglePrerouting])
    ensures var now := Reached(start, atts);
            Walk(now, now.chains[ManglePrerouting], p, mark, depth)
            == Walk(now, start.chains[ManglePrerouting], p, if MarkMatches(now, p) then FWMARK else mark, depth)
  {
    hide RunAll;
    var now, base := Reached(start, atts), start.chains[ManglePrerouting];
    var ours := MarksInFront(start, atts);
    assert MarkMatches(now, p) <==> !NoneMatches(now.sets, ours, p) by {
      assert forall r | r in ours :: r in now.chains[ManglePrerouting];
      assert forall r | r in now.chains[ManglePrerouting] :: r in ours || r in base;
    }
    WalkMarks(now, ours, base, p, FWMARK, mark, depth);
  }

  /** And it is accepted by the bypass chain although no mark rule matches it if and only if the last attempts
      for some id and destination that match it have left their bypass rule without its mark rule, and no
      other mark rule matches it. */
  lemma BypassedUnmarked(start: Config, atts: seq<Attempt>, p: Packet, mark: nat, depth: nat)
    requires Plain(start)
    ensures var now := Reached(start, atts);
            Walk(now, now.chains[NatBypass], p, mark, depth).verdict == Accepted && !MarkMatches(now, p)
            <==> && !MarkMatches(now, p)
                 && exists n, dst :: Unpaired(start, atts, n, dst) && Matches(now.sets, AcceptRule(n, dst), p)
  {
    hide RunAll;
    var now := Reached(start, atts);
    PlainRun(start, atts);
    WalkAccepts(now, now.chains[NatBypass], p, mark, depth);
    if !NoneMatches(now.sets, now.chains[NatBypass], p) && !MarkMatches(now, p) {
      var r :| r in now.chains[NatBypass] && Matches(now.sets, r, p);
      var n, dst := r.srcSet.value, r.dst.value;
      RunMembers(start, atts, n, dst);
      assert r == AcceptRule(n, dst) && Matches(now.sets, MarkRule(n, dst), p);
      assert Unpaired(start, atts, n, dst);
    }
    if n, dst :| Unpaired(start, atts, n, dst) && Matches(now.sets, AcceptRule(n, dst), p) {
      RunMembers(start, atts, n, dst);
      assert AcceptRule(n, dst) in now.chains[NatBypass];
    }
  }

  /** So where the unpaired bypass rules have empty sets, every packet that the bypass chain accepts has been
      marked before it came to the rules of other programs. */
  lemma BypassedIsMarked(start: Config, atts: seq<Attempt>, p: Packet, mark: nat, depth: nat)
    requires Plain(start) && NoMarks(start.chains[ManglePrerouting]) && Harmless(start, atts)
    ensures var now := Reached(start, atts);
            Walk(now, now.chains[NatBypass], p, mark, depth).verdict == Accepted ==>
              Walk(now, now.chains[ManglePrerouting], p, mark, depth)
              == Walk(now, start.chains[ManglePrerouting], p, FWMARK, depth)
  {
    hide RunAll, Walk;
    BypassedUnmarked(start, atts, p, mark, depth);
    PreroutingWalk(start, atts, p, mark, depth);
  }

  /** Runs without failures, and those that are only tidy, meet the condition at every command of their
      last operation, unless that is the first command of a stale-route clearing. */
  lemma TidyRunsAreHarmless(start: Config, atts: seq<Attempt>, last: Attempt)
    requires Paired(start) && NoDuplicates(start) && (forall att | att in atts :: Tidy(att))
    requires !(last.op.StaleRoute? && last.k == 1)
    ensures Harmless(start, atts + [last])
  {
    hide RunAll;
    TidyRun(start, atts);
    PairedBetweenCommands(RunAll(start, atts), last.op, last.k);
    RunSnoc(start, atts, last);
    PairedRun(start, atts + [last]);
  }

  lemma {:induction false} TidyRun(cfg: Config, atts: seq<Attempt>)
    requires Paired(cfg) && NoDuplicates(cfg) && forall att | att in atts :: Tidy(att)
    ensures Paired(RunAll(cfg, atts)) && NoDuplicates(RunAll(cfg, atts))
    decreases |atts|
  {
    hide After;
    if atts != [] {
      var n := |atts| - 1;
      TidyRun(cfg, atts[..n]);
      PairedStep(RunAll(cfg, atts[..n]), atts[n]);
      DuplicateFreeStep(RunAll(cfg, atts[..n]), atts[n].op, atts[n].k);
    }
  }

  // ---- Where the order is not kept ----

  /** The stale-route clearing of the update handler does not flush the set: after its first
      command every packet of the rule skips masquerading unmarked, unless another rule marks it. */
  lemma StaleRouteGap(cfg: Config, name: string, dst: Cidr, p: Packet, mark: nat, depth: nat)
    requires Paired(cfg) && NoDuplicates(cfg) && AcceptRule(name, dst) in cfg.chains[NatBypass]
    requires Matches(cfg.sets, AcceptRule(name, dst), p)
    requires forall r | r in cfg.chains[ManglePrerouting] && Matches(cfg.sets, r, p) :: r == MarkRule(name, dst)
    ensures var now := After(cfg, StaleRoute(name, dst), 1);
            && NatBypass in now.chains && ManglePrerouting in now.chains
            && Walk(now, now.chains[NatBypass], p, mark, depth).verdict == Accepted
            && Walk(now, now.chains[ManglePrerouting], p, mark, depth) == Fate(mark, Continue)
  {
    StaleRouteEffect(cfg, name, dst, 1);
    var now := After(cfg, StaleRoute(name, dst), 1);
    RemoveMembers(cfg.chains[ManglePrerouting], MarkRule(name, dst));
    RemoveNoDup(cfg.chains[ManglePrerouting], MarkRule(name, dst));
    WalkAccepts(now, now.chains[NatBypass], p, mark, depth);
    WalkNoMatch(now, now.chains[ManglePrerouting], [], p, mark, depth);
  }

  lemma CrashRefilled(cfg: Config, name: string, ips: seq<Ip>, dst: Cidr, other: Cidr, eip: Ip)
    requires Ready(cfg) && NoDuplicates(cfg)
    ensures var now := After(After(cfg, DropRoute(name, dst), 3), AddSnat(name, ips, other, eip), |ips| + 3);
            && Ready(now) && now.chains[NatBypass] == cfg.chains[NatBypass]
            && now.chains[ManglePrerouting] == Remove(cfg.chains[ManglePrerouting], MarkRule(name, dst))
            && now.sets == cfg.sets[name := Elems(ips)]
  {
    DropRouteEffect(cfg, name, dst, 3);
    AddSnatEffect(After(cfg, DropRoute(name, dst), 3), name, ips, other, eip, |ips| + 3);
    PutTwice(cfg.sets, name, {}, Elems(ips));
    assert ips[..|ips|] == ips;
  }

  /** A crash point that is not tidy: a deletion that stops between its two rule removals leaves a bypass
      rule whose set the next addition of the same id fills again. Its packets skip masquerading without
      a mark, unless another mark rule matches them. */
  lemma UntidyCrash(cfg: Config, name: string, ips: seq<Ip>, dst: Cidr, other: Cidr, eip: Ip, p: Packet, mark: nat,
                    depth: nat)
    requires Paired(cfg) && NoDuplicates(cfg) && AcceptRule(name, dst) in cfg.chains[NatBypass]
    requires p.src in ips && InCidr(dst, p.dst)
    requires forall r | r in cfg.chains[ManglePrerouting] && r != MarkRule(name, dst) ::
        !Matches(cfg.sets[name := Elems(ips)], r, p)
    ensures var now := RunAll(cfg,
        [Attempt(DropRoute(name, dst), 3), Attempt(AddSnat(name, ips, other, eip), |ips| + 3)]);
            && NatBypass in now.chains && ManglePrerouting in now.chains
            && Walk(now, now.chains[NatBypass], p, mark, depth).verdict == Accepted
            && Walk(now, now.chains[ManglePrerouting], p, mark, depth) == Fate(mark, Continue)
  {
    hide After, RunAll;
    RunTwo(cfg, Attempt(DropRoute(name, dst), 3), Attempt(AddSnat(name, ips, other, eip), |ips| + 3));
    CrashRefilled(cfg, name, ips, dst, other, eip);
    var now := After(After(cfg, DropRoute(name, dst), 3), AddSnat(name, ips, other, eip), |ips| + 3);
    assert Matches(now.sets, AcceptRule(name, dst), p);
    WalkAccepts(now, now.chains[NatBypass], p, mark, depth);
    RemoveMembers(cfg.chains[ManglePrerouting], MarkRule(name, dst));
    RemoveNoDup(cfg.chains[ManglePrerouting], MarkRule(name, dst));
    WalkNoMatch(now, now.chains[ManglePrerouting], [], p, mark, depth);
  }
}
