/** What failed additions do to the order of the SNAT rules, and so to the egress address of a packet. */
module Overtaking {
  import opened Base
  import opened Net
  import opened Netfilter
  import opened Programs
  import opened Confluence
  import opened Recovery

  /** The SNAT rules of a list of additions. */
  function Snats(ops: seq<Op>): seq<Rule> {
    if ops == [] then []
    else (if ops[0].AddSnat? then [RuleOf(ops[0], NatEgress)] else []) + Snats(ops[1..])
  }

  /** The operation has a SNAT rule that is not there yet. */
  predicate Inserts(op: Op, have: set<Rule>) {
    op.AddSnat? && RuleOf(op, NatEgress) !in have
  }

  /** The attempt got to the insertion of its SNAT rule. */
  predicate Reaches(op: Op, stop: nat) {
    op.AddSnat? && stop >= |op.ips| + 4
  }

  /** Each operation once, stopped after its own number of commands. */
  function Stopped(ops: seq<Op>, stops: seq<nat>): (atts: seq<Attempt>)
    requires |stops| == |ops|
    ensures |atts| == |ops| && forall i | 0 <= i < |ops| :: atts[i] == Attempt(ops[i], stops[i])
  {
    seq(|ops|, i requires 0 <= i < |ops| => Attempt(ops[i], stops[i]))
  }

  /** A new rule whose insertion was not reached comes before one whose insertion was. */
  predicate Overtaken(ops: seq<Op>, stops: seq<nat>, have: set<Rule>)
    requires |stops| == |ops|
  {
    exists i, j | 0 <= i < j < |ops| ::
      Inserts(ops[i], have) && Inserts(ops[j], have) && !Reaches(ops[i], stops[i]) && Reaches(ops[j], stops[j])
  }

  /** The rules whose insertion was reached. */
  ghost function Got(ops: seq<Op>, stops: seq<nat>): set<Rule>
    requires |stops| == |ops|
  {
    set i | 0 <= i < |ops| && Reaches(ops[i], stops[i]) :: RuleOf(ops[i], NatEgress)
  }

  lemma GotExactly(ops: seq<Op>, stops: seq<nat>, i: nat)
    requires |stops| == |ops| && DistinctNames(ops) && i < |ops| && ops[i].AddSnat?
    ensures RuleOf(ops[i], NatEgress) in Got(ops, stops) <==> Reaches(ops[i], stops[i])
  {
    if RuleOf(ops[i], NatEgress) in Got(ops, stops) {
      var j :| 0 <= j < |ops| && Reaches(ops[j], stops[j]) && RuleOf(ops[j], NatEgress) == RuleOf(ops[i], NatEgress);
      assert ops[j].name == ops[i].name;
    }
  }

  // ---- The rules of additions with distinct names ----

  lemma {:induction false} SnatsAreRules(ops: seq<Op>)
    requires Additions(ops)
    ensures RulesFor(ops, NatEgress) == Snats(ops)
  {
    if ops != [] {
      assert ops == [ops[0]] + ops[1..];
      SnatsAreRules(ops[1..]);
      SnatIsFirst(ops[0], |Program(ops[0])|);
      hide EditOf;
    }
  }

  /** In the SNAT chain an addition pushes its rule to the front, once it gets there. */
  lemma SnatIsFirst(op: Op, k: nat)
    requires op.AddRoute? || op.AddSnat?
    ensures EditOf(op, k, true, NatEgress) == if Reaches(op, k) then First else Keep
    ensures op.AddSnat? ==> Reaches(op, |Program(op)|)
  {
  }

  lemma {:induction false} SnatsMembers(ops: seq<Op>)
    ensures forall r :: r in Snats(ops) <==> exists i | 0 <= i < |ops| ::
        ops[i].AddSnat? && RuleOf(ops[i], NatEgress) == r
  {
    if ops != [] {
      SnatsMembers(ops[1..]);
      assert forall i | 0 <= i < |ops| - 1 :: ops[1..][i] == ops[i + 1];
      assert forall i | 0 < i < |ops| :: ops[i] == ops[1..][i - 1];
    }
  }

  lemma {:induction false} SnatsDistinct(ops: seq<Op>)
    requires DistinctNames(ops)
    ensures NoDup(Snats(ops))
  {
    if ops != [] {
      SnatsDistinct(ops[1..]);
      SnatsMembers(ops[1..]);
      if ops[0].AddSnat? {
        var r := RuleOf(ops[0], NatEgress);
        forall i | 0 <= i < |ops| - 1 && ops[1..][i].AddSnat? ensures RuleOf(ops[1..][i], NatEgress) != r {
          assert ops[1..][i].name == ops[i + 1].name != ops[0].name;
        }
        assert r !in Snats(ops[1..]);
      }
    }
  }

  lemma {:induction false} SnatsSnoc(ops: seq<Op>, op: Op)
    ensures Snats(ops + [op]) == Snats(ops) + (if op.AddSnat? then [RuleOf(op, NatEgress)] else [])
  {
    if ops == [] {
      assert ops + [op] == [op];
    } else {
      assert (ops + [op])[1..] == ops[1..] + [op];
      SnatsSnoc(ops[1..], op);
    }
  }

  /** Of distinct rules the new ones are those that are not there. */
  lemma {:induction false} NewOfDistinct(rules: seq<Rule>, have: set<Rule>)
    requires NoDup(rules)
    ensures NewRules(rules, have) == Minus(rules, have)
  {
    if rules != [] {
      NewOfDistinct(rules[1..], have);
      NewOfDistinct(rules[1..], have + {rules[0]});
      MinusAgree(rules[1..], have, have + {rules[0]});
    }
  }

  // ---- When moving the reached rules to the front changes nothing ----

  lemma NoneReached(ops: seq<Op>, have: set<Rule>, got: set<Rule>)
    ensures Within(Minus(Snats(ops), have), got) == []
       <==> forall j | 0 <= j < |ops| && Inserts(ops[j], have) :: RuleOf(ops[j], NatEgress) !in got
  {
    var reached := Within(Minus(Snats(ops), have), got);
    SnatsMembers(ops);
    SplitMembers(Snats(ops), have);
    SplitMembers(Minus(Snats(ops), have), got);
    NoElements(reached);
    if reached != [] {
      assert reached[0] in Snats(ops) && reached[0] !in have && reached[0] in got;
    }
    forall j | 0 <= j < |ops| && Inserts(ops[j], have) && RuleOf(ops[j], NatEgress) in got ensures reached != [] {
      assert RuleOf(ops[j], NatEgress) in reached;
    }
  }

  lemma FirstApart(r: Rule, rest: seq<Rule>, got: set<Rule>)
    ensures Within([r] + rest, got) + Minus([r] + rest, got) == [r] + rest
       <==> if r in got then Within(rest, got) + Minus(rest, got) == rest else Within(rest, got) == []
  {
    SplitCons(r, rest, got);
    SplitMembers(rest, got);
    hide Within, Minus;
    var w, m := Within(rest, got), Minus(rest, got);
    if r in got {
      SameTail(r, w + m, rest);
      assert [r] + w + m == [r] + (w + m);
    } else if w != [] {
      assert w[0] in got;
      assert (w + ([r] + m))[0] != ([r] + rest)[0];
    } else {
      assert [] + ([r] + m) == [r] + m;
    }
  }

  lemma SameTail(r: Rule, a: seq<Rule>, b: seq<Rule>)
    ensures [r] + a == [r] + b <==> a == b
  {
    assert ([r] + a)[1..] == a && ([r] + b)[1..] == b;
  }

  ghost predicate InOrder(ops: seq<Op>, have: set<Rule>, got: set<Rule>) {
    forall i, j | 0 <= i < j < |ops| && Inserts(ops[i], have) && Inserts(ops[j], have) ::
      RuleOf(ops[j], NatEgress) in got ==> RuleOf(ops[i], NatEgress) in got
  }

  lemma InOrderCons(ops: seq<Op>, have: set<Rule>, got: set<Rule>)
    requires ops != []
    ensures InOrder(ops, have, got)
       <==> && InOrder(ops[1..], have, got)
            && (Inserts(ops[0], have) && RuleOf(ops[0], NatEgress) !in got ==>
                forall j | 0 <= j < |ops| - 1 && Inserts(ops[1..][j], have) :: RuleOf(ops[1..][j], NatEgress) !in got)
  {
    assert forall i | 0 <= i < |ops| - 1 :: ops[1..][i] == ops[i + 1];
    assert forall i | 0 < i < |ops| :: ops[i] == ops[1..][i - 1];
  }

  lemma {:induction false} ApartInOrder(ops: seq<Op>, have: set<Rule>, got: set<Rule>)
    ensures var news := Minus(Snats(ops), have);
            Within(news, got) + Minus(news, got) == news <==> InOrder(ops, have, got)
  {
    if ops != [] {
      hide InOrder;
      ApartInOrder(ops[1..], have, got);
      InOrderCons(ops, have, got);
      NoneReached(ops[1..], have, got);
      var rest, r := Minus(Snats(ops[1..]), have), RuleOf(ops[0], NatEgress);
      if ops[0].AddSnat? {
        SplitCons(r, Snats(ops[1..]), have);
        if Inserts(ops[0], have) {
          assert Minus(Snats(ops), have) == [r] + rest;
          FirstApart(r, rest, got);
          ReachedFirst(rest, got);
        } else {
          assert Minus(Snats(ops), have) == rest;
        }
      } else {
        assert Snats(ops) == Snats(ops[1..]);
      }
    } else {
      assert InOrder(ops, have, got);
    }
  }

  lemma ReachedFirst(rest: seq<Rule>, got: set<Rule>)
    ensures Within(rest, got) == [] ==> Within(rest, got) + Minus(rest, got) == rest
  {
    SplitMembers(rest, got);
  }

  // ---- The chain after the stopped pass, and after the complete one that follows ----

  /** One more addition of the stopped pass. */
  lemma StoppedOnce(ops: seq<Op>, op: Op, stop: nat, base: seq<Rule>, got: set<Rule>)
    requires (op.AddRoute? || op.AddSnat?) && NoDup(Snats(ops + [op]))
    requires op.AddSnat? ==> (RuleOf(op, NatEgress) in got <==> Reaches(op, stop))
    ensures Edited(EditOf(op, stop, true, NatEgress), Reverse(Within(Minus(Snats(ops), Elems(base)), got)) + base,
        RuleOf(op, NatEgress))
         == Reverse(Within(Minus(Snats(ops + [op]), Elems(base)), got)) + base
  {
    var news, r := Minus(Snats(ops), Elems(base)), RuleOf(op, NatEgress);
    SnatIsFirst(op, stop);
    SnatsSnoc(ops, op);
    assert news + [] == news && Snats(ops) + [] == Snats(ops) && Within(news, got) + [] == Within(news, got);
    if op.AddSnat? {
      var longer := Snats(ops + [op]);
      assert longer[|Snats(ops)|] == r && forall i | 0 <= i < |Snats(ops)| :: Snats(ops)[i] == longer[i];
      assert r !in Snats(ops);
      MinusSnoc(Snats(ops), r, Elems(base));
      if r in base {
        assert r in Reverse(Within(news, got)) + base;
      } else {
        WithinSnoc(news, r, got);
        SplitMembers(Snats(ops), Elems(base));
        SplitMembers(news, got);
        PushedFront(Within(news, got), r, base);
      }
    }
  }

  lemma PushedFront(front: seq<Rule>, r: Rule, base: seq<Rule>)
    requires r !in front && r !in base
    ensures PushFirst(Reverse(front) + base, r) == Reverse(front + [r]) + base
  {
    ReverseSnoc(front, r);
    var back := Reverse(front);
    assert r !in back by {
      ReverseMembers(front);
    }
    PushedOnto(back, r, base);
  }

  lemma PushedOnto(back: seq<Rule>, r: Rule, base: seq<Rule>)
    requires r !in back && r !in base
    ensures PushFirst(back + base, r) == [r] + back + base
  {
    assert [r] + (back + base) == [r] + back + base;
  }

  /** The reached new rules stand in front, the last first. */
  lemma {:induction false} StoppedChain(cfg: Config, ops: seq<Op>, stops: seq<nat>, n: nat)
    requires Ready(cfg) && Additions(ops) && DistinctNames(ops) && |stops| == |ops| && n <= |ops|
    ensures var front := Within(Minus(Snats(ops[..n]), Elems(cfg.chains[NatEgress])), Got(ops, stops));
            && Ready(RunAll(cfg, Stopped(ops, stops)[..n]))
            && RunAll(cfg, Stopped(ops, stops)[..n]).chains[NatEgress] == Reverse(front) + cfg.chains[NatEgress]
    decreases n
  {
    hide After, EditOf, Got, Reaches;
    var atts := Stopped(ops, stops);
    FrameAll(cfg, atts[..n]);
    if n == 0 {
      assert ops[..0] == [] && Reverse([]) + cfg.chains[NatEgress] == cfg.chains[NatEgress];
    } else {
      StoppedChain(cfg, ops, stops, n - 1);
      var before := RunAll(cfg, atts[..n - 1]);
      assert atts[..n][..n - 1] == atts[..n - 1];
      ChainEffect(before, ops[n - 1], stops[n - 1], NatEgress);
      assert ops[n - 1] in ops && ops[..n] == ops[..n - 1] + [ops[n - 1]];
      SnatsDistinct(ops[..n]);
      if ops[n - 1].AddSnat? {
        GotExactly(ops, stops, n - 1);
      }
      StoppedOnce(ops[..n - 1], ops[n - 1], stops[n - 1], cfg.chains[NatEgress], Got(ops, stops));
    }
  }

  /** The complete pass brings the rules left out before to the front. */
  lemma CompletedChain(cfg: Config, ops: seq<Op>, front: seq<Rule>, base: seq<Rule>)
    requires Ready(cfg) && Additions(ops) && DistinctNames(ops)
    requires forall r | r in front :: r in Minus(Snats(ops), Elems(base))
    requires cfg.chains[NatEgress] == Reverse(front) + base
    ensures Ready(SyncAll(cfg, ops))
    ensures SyncAll(cfg, ops).chains[NatEgress]
        == Reverse(front + Minus(Minus(Snats(ops), Elems(base)), Elems(front))) + base
  {
    hide SyncAll, Minus, Reverse, Snats;
    var left := Minus(Minus(Snats(ops), Elems(base)), Elems(front));
    WithoutStops(cfg, ops);
    LeftOut(Snats(ops), base, front, cfg.chains[NatEgress]);
    ReverseConcat(front, left);
    assert Reverse(left) + (Reverse(front) + base) == Reverse(left) + Reverse(front) + base;
  }

  lemma LeftOut(all: seq<Rule>, base: seq<Rule>, front: seq<Rule>, chain: seq<Rule>)
    requires chain == Reverse(front) + base
    ensures Minus(all, Elems(chain)) == Minus(Minus(all, Elems(base)), Elems(front))
  {
    ReverseMembers(front);
    assert Elems(chain) == Elems(base) + Elems(front);
    MinusTwice(all, Elems(base), Elems(front));
  }

  // ---- Any attempts before the complete pass ----

  /** The new rules in the order in which attempts first got to their insertion. */
  function FirstReached(atts: seq<Attempt>, have: set<Rule>): seq<Rule>
    decreases |atts|
  {
    if atts == [] then []
    else
      var n := |atts| - 1;
      var front, r := FirstReached(atts[..n], have), RuleOf(atts[n].op, NatEgress);
      if Reaches(atts[n].op, atts[n].k) && r !in have && r !in front then front + [r] else front
  }

  /** The SNAT chain after any attempts at additions: those rules, the last first, in front of the old ones. */
  lemma {:induction false} AttemptedChain(cfg: Config, atts: seq<Attempt>, ops: seq<Op>)
    requires Ready(cfg) && Additions(ops) && AttemptsAt(atts, ops)
    ensures var base := cfg.chains[NatEgress];
            var front := FirstReached(atts, Elems(base));
            && Ready(RunAll(cfg, atts)) && RunAll(cfg, atts).chains[NatEgress] == Reverse(front) + base
            && forall r | r in front :: r in Minus(Snats(ops), Elems(base))
    decreases |atts|
  {
    hide After, EditOf, Reaches, Minus, Reverse;
    var base := cfg.chains[NatEgress];
    FrameAll(cfg, atts);
    if atts == [] {
      NothingInFront(base);
    } else {
      var n := |atts| - 1;
      var op := atts[n].op;
      AttemptedChain(cfg, atts[..n], ops);
      assert atts[n] in atts;
      ChainEffect(RunAll(cfg, atts[..n]), op, atts[n].k, NatEgress);
      SnatIsFirst(op, atts[n].k);
      PushedMaybe(FirstReached(atts[..n], Elems(base)), RuleOf(op, NatEgress), base);
      NewMember(ops, op, atts[n].k, Elems(base));
    }
  }

  lemma NothingInFront(base: seq<Rule>)
    ensures Reverse([]) + base == base
  {
  }

  lemma PushedMaybe(front: seq<Rule>, r: Rule, base: seq<Rule>)
    ensures PushFirst(Reverse(front) + base, r)
         == Reverse(if r in base || r in front then front else front + [r]) + base
  {
    ReverseMembers(front);
    if r !in base && r !in front {
      PushedFront(front, r, base);
    }
  }

  lemma NewMember(ops: seq<Op>, op: Op, stop: nat, have: set<Rule>)
    ensures op in ops && Reaches(op, stop) && RuleOf(op, NatEgress) !in have ==>
        RuleOf(op, NatEgress) in Minus(Snats(ops), have)
  {
    SnatsMembers(ops);
    SplitMembers(Snats(ops), have);
    if op in ops {
      var i :| 0 <= i < |ops| && ops[i] == op;
    }
  }

  /** Whatever additions were attempted before, in whatever order, how often, and wherever they stopped: after a
      complete pass the SNAT chain is that of the pass alone if and only if the new rules that were reached,
      in the order in which they first were, are the first new ones of the pass. */
  lemma AttemptsKeepPriority(cfg: Config, atts: seq<Attempt>, ops: seq<Op>)
    requires Ready(cfg) && Additions(ops) && DistinctNames(ops) && AttemptsAt(atts, ops)
    ensures var have := Elems(cfg.chains[NatEgress]);
            && Ready(RunAll(cfg, atts)) && Ready(SyncAll(RunAll(cfg, atts), ops)) && Ready(SyncAll(cfg, ops))
            && (SyncAll(RunAll(cfg, atts), ops).chains[NatEgress] == SyncAll(cfg, ops).chains[NatEgress]
                <==> FirstReached(atts, have) <= Minus(Snats(ops), have))
  {
    hide RunAll, SyncAll;
    var base := cfg.chains[NatEgress];
    var news, front := Minus(Snats(ops), Elems(base)), FirstReached(atts, Elems(base));
    AttemptedChain(cfg, atts, ops);
    CompletedChain(RunAll(cfg, atts), ops, front, base);
    WithoutStops(cfg, ops);
    SameFront(front + Minus(news, Elems(front)), news, base);
    SnatsDistinct(ops);
    MinusDistinct(Snats(ops), Elems(base));
    FrontIsPrefix(front, news);
  }

  lemma {:induction false} MinusDistinct(rules: seq<Rule>, have: set<Rule>)
    requires NoDup(rules)
    ensures NoDup(Minus(rules, have))
  {
    if rules != [] {
      MinusDistinct(rules[1..], have);
      SplitMembers(rules[1..], have);
    }
  }

  // ---- One pass in which additions stopped ----

  /** A pass in which additions stopped anywhere, and then a complete one: the SNAT chain is that of the
      complete pass alone if and only if no rule that was not inserted at first was overtaken by a later
      one that was. */
  lemma FailureKeepsPriority(cfg: Config, ops: seq<Op>, stops: seq<nat>)
    requires Ready(cfg) && Additions(ops) && DistinctNames(ops) && |stops| == |ops|
    ensures var failed := RunAll(cfg, Stopped(ops, stops));
            && Ready(failed) && Ready(SyncAll(failed, ops)) && Ready(SyncAll(cfg, ops))
            && (SyncAll(failed, ops).chains[NatEgress] == SyncAll(cfg, ops).chains[NatEgress]
                <==> !Overtaken(ops, stops, Elems(cfg.chains[NatEgress])))
  {
    hide RunAll, SyncAll;
    var base, got := cfg.chains[NatEgress], Got(ops, stops);
    var news := Minus(Snats(ops), Elems(base));
    assert Stopped(ops, stops)[..|ops|] == Stopped(ops, stops) && ops[..|ops|] == ops;
    StoppedChain(cfg, ops, stops, |ops|);
    SplitMembers(news, got);
    CompletedChain(RunAll(cfg, Stopped(ops, stops)), ops, Within(news, got), base);
    MinusAgree(news, Elems(Within(news, got)), got);
    WithoutStops(cfg, ops);
    SameFront(Within(news, got) + Minus(news, got), news, base);
    ApartInOrder(ops, Elems(base), got);
    forall i | 0 <= i < |ops| && ops[i].AddSnat?
      ensures RuleOf(ops[i], NatEgress) in got <==> Reaches(ops[i], stops[i])
    {
      GotExactly(ops, stops, i);
    }
  }

  lemma WithoutStops(cfg: Config, ops: seq<Op>)
    requires Ready(cfg) && Additions(ops) && DistinctNames(ops)
    ensures Ready(SyncAll(cfg, ops))
    ensures SyncAll(cfg, ops).chains[NatEgress]
        == Reverse(Minus(Snats(ops), Elems(cfg.chains[NatEgress]))) + cfg.chains[NatEgress]
  {
    hide SyncAll;
    SyncedChain(cfg, ops, NatEgress);
    SnatsAreRules(ops);
    SnatsDistinct(ops);
    NewOfDistinct(Snats(ops), Elems(cfg.chains[NatEgress]));
  }

  lemma SameFront(a: seq<Rule>, b: seq<Rule>, base: seq<Rule>)
    ensures Reverse(a) + base == Reverse(b) + base <==> a == b
  {
    if Reverse(a) + base == Reverse(b) + base {
      assert |a| == |b|;
      assert Reverse(a) == (Reverse(a) + base)[..|a|] && Reverse(b) == (Reverse(b) + base)[..|b|];
      ReverseInjective(a, b);
    }
  }

  // ---- Which rule of a pass decides ----

  /** The last of the rules that matches the packet. */
  function LastMatch(rules: seq<Rule>, sets: map<string, set<Ip>>, p: Packet): Option<Rule>
    decreases |rules|
  {
    if rules == [] then None
    else
      var n := |rules| - 1;
      if Matches(sets, rules[n], p) then Some(rules[n]) else LastMatch(rules[..n], sets, p)
  }

  lemma {:induction false} WalkReversed(cfg: Config, news: seq<Rule>, base: seq<Rule>, p: Packet, mark: nat, depth: nat)
    requires forall r | r in news :: r.target.Snat?
    ensures LastMatch(news, cfg.sets, p).Some? ==> LastMatch(news, cfg.sets, p).value in news
    ensures var last := LastMatch(news, cfg.sets, p);
            Walk(cfg, Reverse(news) + base, p, mark, depth)
            == if last.Some? then Fate(mark, Translated(last.value.target.to)) else Walk(cfg, base, p, mark, depth)
    decreases |news|
  {
    if news == [] {
      NothingInFront(base);
    } else {
      var n := |news| - 1;
      WalkReversed(cfg, news[..n], base, p, mark, depth);
      assert news == news[..n] + [news[n]];
      ReverseSnoc(news[..n], news[n]);
      hide Reverse;
      var rest := Reverse(news[..n]) + base;
      assert Reverse(news) + base == [news[n]] + rest && ([news[n]] + rest)[1..] == rest;
    }
  }

  /** The new rules of a pass, in the order of the pass. */
  function News(cfg: Config, ops: seq<Op>): seq<Rule>
    requires NatEgress in cfg.chains
  {
    Minus(Snats(ops), Elems(cfg.chains[NatEgress]))
  }

  /** After a complete pass the last new rule of the pass that matches a packet decides, and if there is none,
      the rules that were there. */
  lemma LastOfPassWins(cfg: Config, ops: seq<Op>, p: Packet, mark: nat, depth: nat)
    requires Ready(cfg) && Additions(ops) && DistinctNames(ops)
    ensures var now := SyncAll(cfg, ops);
            var last := LastMatch(News(cfg, ops), now.sets, p);
            && Ready(now) && (last.Some? ==> last.value in Snats(ops) && last.value.target.Snat?)
            && Walk(now, now.chains[NatEgress], p, mark, depth)
               == if last.Some? then Fate(mark, Translated(last.value.target.to))
                  else Walk(now, cfg.chains[NatEgress], p, mark, depth)
  {
    hide SyncAll;
    WithoutStops(cfg, ops);
    SnatsMembers(ops);
    SplitMembers(Snats(ops), Elems(cfg.chains[NatEgress]));
    WalkReversed(SyncAll(cfg, ops), News(cfg, ops), cfg.chains[NatEgress], p, mark, depth);
  }

  lemma {:induction false} NoLastMatch(rules: seq<Rule>, sets: map<string, set<Ip>>, p: Packet)
    ensures LastMatch(rules, sets, p).None? <==> forall r | r in rules :: !Matches(sets, r, p)
    decreases |rules|
  {
    if rules != [] {
      var n := |rules| - 1;
      NoLastMatch(rules[..n], sets, p);
      assert rules == rules[..n] + [rules[n]];
    }
  }

  /** Two orders of the same additions give a packet the same egress address if and only if the last new rules
      that match it have the same one, or none matches. */
  lemma TwoOrders(cfg: Config, a: seq<Op>, b: seq<Op>, p: Packet, mark: nat, depth: nat)
    requires Ready(cfg) && Additions(a) && DistinctNames(a) && multiset(a) == multiset(b)
    requires forall r | r in cfg.chains[NatEgress] :: r.target.Snat?
    ensures var x, y := SyncAll(cfg, a), SyncAll(cfg, b);
            var l, m := LastMatch(News(cfg, a), x.sets, p), LastMatch(News(cfg, b), y.sets, p);
            && Ready(x) && Ready(y) && (l.Some? <==> m.Some?)
            && (l.Some? ==> l.value.target.Snat? && m.value.target.Snat?)
            && (Walk(x, x.chains[NatEgress], p, mark, depth) == Walk(y, y.chains[NatEgress], p, mark, depth)
                <==> (l.Some? ==> l.value.target.to == m.value.target.to))
  {
    hide SyncAll, RunAll;
    PermutedNames(a, b);
    PermutedSync(cfg, a, b);
    LastOfPassWins(cfg, a, p, mark, depth);
    LastOfPassWins(cfg, b, p, mark, depth);
    SameNews(cfg, a, b);
    NoLastMatch(News(cfg, a), SyncAll(cfg, a).sets, p);
    NoLastMatch(News(cfg, b), SyncAll(cfg, b).sets, p);
    WalkSnats(SyncAll(cfg, a), SyncAll(cfg, b), cfg.chains[NatEgress], p, mark, depth);
  }

  lemma SameNews(cfg: Config, a: seq<Op>, b: seq<Op>)
    requires NatEgress in cfg.chains && multiset(a) == multiset(b)
    ensures forall r :: r in News(cfg, a) <==> r in News(cfg, b)
  {
    SnatsMembers(a);
    SnatsMembers(b);
    SplitMembers(Snats(a), Elems(cfg.chains[NatEgress]));
    SplitMembers(Snats(b), Elems(cfg.chains[NatEgress]));
    SameSnats(a, b);
    SameSnats(b, a);
  }

  lemma SameSnats(a: seq<Op>, b: seq<Op>)
    requires multiset(a) == multiset(b)
    ensures forall r | r in Snats(a) :: r in Snats(b)
  {
    SnatsMembers(a);
    SnatsMembers(b);
    forall r | r in Snats(a) ensures r in Snats(b) {
      var i :| 0 <= i < |a| && a[i].AddSnat? && RuleOf(a[i], NatEgress) == r;
      assert a[i] in multiset(a) && a[i] in b;
      var j :| 0 <= j < |b| && b[j] == a[i];
    }
  }

  lemma {:induction false} WalkSnats(x: Config, y: Config, rules: seq<Rule>, p: Packet, mark: nat, depth: nat)
    requires x.sets == y.sets && forall r | r in rules :: r.target.Snat?
    ensures Walk(x, rules, p, mark, depth) == Walk(y, rules, p, mark, depth)
  {
    if rules != [] {
      assert rules == [rules[0]] + rules[1..];
      WalkSnats(x, y, rules[1..], p, mark, depth);
    }
  }

  /** They may differ: of two rules that match a packet the later one wins, whichever that is. */
  lemma OrderDecides(cfg: Config, a: string, b: string, ips: seq<Ip>, dst: Cidr, x: Ip, y: Ip, p: Packet,
                     mark: nat, depth: nat)
    requires Ready(cfg) && cfg.chains[NatEgress] == [] && a != b
    requires p.src in ips && InCidr(dst, p.dst)
    ensures var first, second := AddSnat(a, ips, dst, x), AddSnat(b, ips, dst, y);
            var one, other := SyncAll(cfg, [first, second]), SyncAll(cfg, [second, first]);
            && Ready(one) && Ready(other)
            && Walk(one, one.chains[NatEgress], p, mark, depth) == Fate(mark, Translated(y))
            && Walk(other, other.chains[NatEgress], p, mark, depth) == Fate(mark, Translated(x))
  {
    hide SyncAll, Walk;
    var first, second := AddSnat(a, ips, dst, x), AddSnat(b, ips, dst, y);
    TwoSnats(cfg, first, second);
    TwoSnats(cfg, second, first);
    TwoSets(cfg, [first, second], ips);
    TwoSets(cfg, [second, first], ips);
    FrontWins(SyncAll(cfg, [first, second]), b, dst, y, [SnatRule(a, dst, x)], p, mark, depth);
    FrontWins(SyncAll(cfg, [second, first]), a, dst, x, [SnatRule(b, dst, y)], p, mark, depth);
  }

  /** Then the egress address of a packet may differ: of two rules that match it, the first of the pass
      wins if its addition failed at first, and the second if none did. */
  lemma FailureChangesPriority(cfg: Config, a: string, b: string, ips: seq<Ip>, dst: Cidr, x: Ip, y: Ip, p: Packet,
                               mark: nat, depth: nat)
    requires Ready(cfg) && cfg.chains[NatEgress] == [] && a != b
    requires p.src in ips && InCidr(dst, p.dst)
    ensures var ops := [AddSnat(a, ips, dst, x), AddSnat(b, ips, dst, y)];
            var again, once := SyncAll(RunAll(cfg, Stopped(ops, [0, |ips| + 5])), ops), SyncAll(cfg, ops);
            && Overtaken(ops, [0, |ips| + 5], {}) && Ready(again) && Ready(once)
            && Walk(again, again.chains[NatEgress], p, mark, depth) == Fate(mark, Translated(x))
            && Walk(once, once.chains[NatEgress], p, mark, depth) == Fate(mark, Translated(y))
  {
    hide SyncAll, RunAll, Walk;
    var first, second := AddSnat(a, ips, dst, x), AddSnat(b, ips, dst, y);
    var ops := [first, second];
    var failed := RunAll(cfg, Stopped(ops, [0, |ips| + 5]));
    OnlySecond(cfg, first, second);
    TwoSnats(failed, first, second);
    TwoSnats(cfg, first, second);
    TwoSets(failed, ops, ips);
    TwoSets(cfg, ops, ips);
    FrontWins(SyncAll(failed, ops), a, dst, x, [SnatRule(b, dst, y)], p, mark, depth);
    FrontWins(SyncAll(cfg, ops), b, dst, y, [SnatRule(a, dst, x)], p, mark, depth);
    assert Inserts(ops[0], {}) && Inserts(ops[1], {}) && !Reaches(ops[0], 0) && Reaches(ops[1], |ips| + 5);
  }

  lemma OnlySecond(cfg: Config, first: Op, second: Op)
    requires Ready(cfg) && first.AddSnat? && second.AddSnat?
    ensures var failed := RunAll(cfg, Stopped([first, second], [0, |second.ips| + 5]));
            && Ready(failed) && failed.chains[NatEgress] == PushFirst(cfg.chains[NatEgress], RuleOf(second, NatEgress))
  {
    assert Stopped([first, second], [0, |second.ips| + 5]) == [Attempt(first, 0), Attempt(second, |second.ips| + 5)];
    RunTwo(cfg, Attempt(first, 0), Attempt(second, |second.ips| + 5));
    NothingDone(cfg, first);
    SnatSize(second);
    hide Exec, Program, RunAll;
    FullAddSnat(cfg, second.name, second.ips, second.dst, second.egressIP);
  }

  lemma NothingDone(cfg: Config, op: Op)
    ensures After(cfg, op, 0) == cfg
  {
  }

  lemma SnatSize(op: Op)
    requires op.AddSnat?
    ensures |Program(op)| == |op.ips| + 5
  {
  }

  lemma FrontWins(cfg: Config, name: string, dst: Cidr, eip: Ip, rest: seq<Rule>, p: Packet, mark: nat, depth: nat)
    requires name in cfg.sets && p.src in cfg.sets[name] && InCidr(dst, p.dst)
    requires NatEgress in cfg.chains && cfg.chains[NatEgress] == [SnatRule(name, dst, eip)] + rest
    ensures Walk(cfg, cfg.chains[NatEgress], p, mark, depth) == Fate(mark, Translated(eip))
  {
  }

  lemma TwoSets(cfg: Config, ops: seq<Op>, ips: seq<Ip>)
    requires Ready(cfg) && |ops| == 2 && Additions(ops) && ops[0].name != ops[1].name && ops[0].ips == ops[1].ips == ips
    ensures forall i | 0 <= i < 2 ::
        ops[i].name in SyncAll(cfg, ops).sets && SyncAll(cfg, ops).sets[ops[i].name] == Elems(ips)
  {
    hide SyncAll;
    SyncedSets(cfg, ops, ops[0].name);
    SyncedSets(cfg, ops, ops[1].name);
  }

  lemma TwoSnats(cfg: Config, first: Op, second: Op)
    requires Ready(cfg) && first.AddSnat? && second.AddSnat?
    ensures Ready(SyncAll(cfg, [first, second]))
    ensures SyncAll(cfg, [first, second]).chains[NatEgress]
         == PushFirst(PushFirst(cfg.chains[NatEgress], RuleOf(first, NatEgress)), RuleOf(second, NatEgress))
  {
    hide After;
    assert Complete([first, second]) == [Complete([first])[0], Complete([second])[0]];
    RunTwo(cfg, Complete([first])[0], Complete([second])[0]);
    FullAddSnat(cfg, first.name, first.ips, first.dst, first.egressIP);
    FullAddSnat(Full(cfg, first), second.name, second.ips, second.dst, second.egressIP);
  }
}
