/** The order in which rules are synced does not matter, except for which of several matching SNAT
    rules wins: see `Overtaking.TwoOrders`. */
module Confluence {
  import opened Base
  import opened Net
  import opened Netfilter
  import opened Programs

  // ---- What a list of complete additions does ----

  ghost predicate Additions(ops: seq<Op>) {
    forall op | op in ops :: op.AddRoute? || op.AddSnat?
  }

  ghost predicate DistinctNames(ops: seq<Op>) {
    forall i, j | 0 <= i < j < |ops| :: ops[i].name != ops[j].name
  }

  /** The rules the additions put into a chain, in order. */
  function RulesFor(ops: seq<Op>, c: Chain): seq<Rule> {
    if ops == [] then []
    else
      var rest := RulesFor(ops[1..], c);
      if EditOf(ops[0], |Program(ops[0])|, true, c) == Keep then rest else [RuleOf(ops[0], c)] + rest
  }

  /** Those of them that are new, each once. */
  function NewRules(rules: seq<Rule>, have: set<Rule>): seq<Rule> {
    if rules == [] then []
    else if rules[0] in have then NewRules(rules[1..], have)
    else [rules[0]] + NewRules(rules[1..], have + {rules[0]})
  }

  /** Insertion at the front or appending at the end, by chain. */
  predicate AtFront(c: Chain) {
    c == ManglePrerouting || c == NatEgress
  }

  function Synced(c: Chain, rules: seq<Rule>, news: seq<Rule>): seq<Rule> {
    if AtFront(c) then Reverse(news) + rules else rules + news
  }

  lemma {:induction false} SyncedChain(cfg: Config, ops: seq<Op>, c: Chain)
    requires Ready(cfg) && Additions(ops) && c in cfg.chains
    ensures Ready(SyncAll(cfg, ops)) && SyncAll(cfg, ops).chains.Keys == cfg.chains.Keys
    ensures SyncAll(cfg, ops).chains[c] == Synced(c, cfg.chains[c], NewRules(RulesFor(ops, c), Elems(cfg.chains[c])))
    decreases |ops|
  {
    if ops != [] {
      var op := ops[0];
      var e := EditOf(op, |Program(op)|, true, c);
      FrameChains(cfg, op, |Program(op)|);
      ChainEffect(cfg, op, |Program(op)|, c);
      SyncHead(cfg, ops);
      SyncedChain(Full(cfg, op), ops[1..], c);
      AdditionEdit(op, c);
      SyncedEdit(c, cfg.chains[c], e, RuleOf(op, c), RulesFor(ops[1..], c));
    }
  }

  /** A complete addition inserts at the chain's own end. */
  lemma AdditionEdit(op: Op, c: Chain)
    requires op.AddRoute? || op.AddSnat?
    ensures EditOf(op, |Program(op)|, true, c) in {Keep, if AtFront(c) then First else Last}
  {
  }

  /** One more rule, in front of the rules of the later additions. */
  lemma SyncedEdit(c: Chain, rules: seq<Rule>, e: Edit, r: Rule, rest: seq<Rule>)
    requires e in {Keep, if AtFront(c) then First else Last}
    ensures Synced(c, Edited(e, rules, r), NewRules(rest, Elems(Edited(e, rules, r))))
         == Synced(c, rules, NewRules((if e == Keep then [] else [r]) + rest, Elems(rules)))
  {
    if e == Keep {
      assert [] + rest == rest;
    } else {
      assert ([r] + rest)[1..] == rest;
      if r !in rules {
        assert Elems(Edited(e, rules, r)) == Elems(rules) + {r};
        SyncedMore(c, rules, r, NewRules(rest, Elems(rules) + {r}));
      }
    }
  }

  lemma SyncedMore(c: Chain, rules: seq<Rule>, r: Rule, news: seq<Rule>)
    ensures Synced(c, if AtFront(c) then [r] + rules else rules + [r], news) == Synced(c, rules, [r] + news)
  {
    assert ([r] + news)[1..] == news;
    if AtFront(c) {
      assert Reverse(news) + ([r] + rules) == Reverse(news) + [r] + rules;
    } else {
      assert rules + [r] + news == rules + ([r] + news);
    }
  }

  lemma FullSets(cfg: Config, op: Op)
    requires Ready(cfg) && (op.AddRoute? || op.AddSnat?)
    ensures Ready(Full(cfg, op)) && Full(cfg, op).sets == cfg.sets[op.name := Elems(op.ips)]
  {
    match op
    case AddRoute(n, ips, dst) => FullAddRoute(cfg, n, ips, dst);
    case AddSnat(n, ips, dst, eip) => FullAddSnat(cfg, n, ips, dst, eip);
  }

  /** The set ends with the source list of the operation of that name, if there is one. */
  ghost predicate SetSynced(before: map<string, set<Ip>>, after: map<string, set<Ip>>, ops: seq<Op>, name: string)
    requires Additions(ops)
  {
    && (forall i | 0 <= i < |ops| && ops[i].name == name :: name in after && after[name] == Elems(ops[i].ips))
    && ((forall i | 0 <= i < |ops| :: ops[i].name != name) ==> SameAt(after, before, name))
  }

  lemma SetSyncedHead(before: map<string, set<Ip>>, after: map<string, set<Ip>>, ops: seq<Op>, name: string)
    requires ops != [] && Additions(ops) && DistinctNames(ops)
    requires SetSynced(before[ops[0].name := Elems(ops[0].ips)], after, ops[1..], name)
    ensures SetSynced(before, after, ops, name)
  {
    assert forall i | 0 < i < |ops| :: ops[i] == ops[1..][i - 1];
    assert forall i | 0 <= i < |ops| - 1 :: ops[1..][i] == ops[i + 1];
  }

  /** Each addition leaves its own source list in its set, and the other sets alone. */
  lemma {:induction false} SyncedSets(cfg: Config, ops: seq<Op>, name: string)
    requires Ready(cfg) && Additions(ops) && DistinctNames(ops)
    ensures SetSynced(cfg.sets, SyncAll(cfg, ops).sets, ops, name)
    decreases |ops|
  {
    hide After;
    if ops != [] {
      hide SyncAll, SetSynced;
      FullSets(cfg, ops[0]);
      SyncHead(cfg, ops);
      SyncedSets(Full(cfg, ops[0]), ops[1..], name);
      SetSyncedHead(cfg.sets, SyncAll(cfg, ops).sets, ops, name);
    }
  }

  // ---- Permutations ----

  lemma {:induction false} RulesForMembers(ops: seq<Op>, c: Chain)
    ensures forall r :: r in RulesFor(ops, c) <==>
              exists op :: op in ops && EditOf(op, |Program(op)|, true, c) != Keep && r == RuleOf(op, c)
  {
    if ops != [] {
      RulesForMembers(ops[1..], c);
      assert ops == [ops[0]] + ops[1..];
    }
  }

  lemma {:induction false} NewRulesOnce(rules: seq<Rule>, have: set<Rule>)
    ensures forall r :: r in NewRules(rules, have) <==> r in rules && r !in have
    ensures NoDup(NewRules(rules, have))
  {
    if rules != [] {
      assert rules == [rules[0]] + rules[1..];
      if rules[0] in have {
        NewRulesOnce(rules[1..], have);
      } else {
        NewRulesOnce(rules[1..], have + {rules[0]});
      }
    }
  }

  lemma {:induction false} CountOnce<T>(s: seq<T>, x: T)
    requires NoDup(s)
    ensures multiset(s)[x] == if x in s then 1 else 0
  {
    if s != [] {
      assert s == [s[0]] + s[1..];
      assert s[0] !in s[1..];
      CountOnce(s[1..], x);
    }
  }

  lemma SameElements<T>(a: seq<T>, b: seq<T>)
    requires NoDup(a) && NoDup(b) && forall x :: x in a <==> x in b
    ensures multiset(a) == multiset(b)
  {
    forall x ensures multiset(a)[x] == multiset(b)[x] {
      CountOnce(a, x);
      CountOnce(b, x);
    }
  }

  lemma {:induction false} ReverseMultiset<T>(s: seq<T>)
    ensures multiset(Reverse(s)) == multiset(s)
  {
    if s != [] {
      ReverseMultiset(s[1..]);
      assert s == [s[0]] + s[1..];
    }
  }

  /** The new rules of two orders are the same rules, each once. */
  lemma SameNewRules(a: seq<Op>, b: seq<Op>, c: Chain, have: set<Rule>)
    requires multiset(a) == multiset(b)
    ensures var x, y := NewRules(RulesFor(a, c), have), NewRules(RulesFor(b, c), have);
            multiset(x) == multiset(y) && NoDup(x) && NoDup(y) && forall r :: r in x <==> r in y
  {
    RulesForMembers(a, c);
    RulesForMembers(b, c);
    assert forall op :: op in a <==> op in multiset(a);
    assert forall op :: op in b <==> op in multiset(b);
    NewRulesOnce(RulesFor(a, c), have);
    NewRulesOnce(RulesFor(b, c), have);
    SameElements(NewRules(RulesFor(a, c), have), NewRules(RulesFor(b, c), have));
  }

  lemma PermutedNames(a: seq<Op>, b: seq<Op>)
    requires multiset(a) == multiset(b) && Additions(a) && DistinctNames(a)
    ensures Additions(b) && DistinctNames(b)
  {
    assert forall op :: op in a <==> op in multiset(a);
    assert forall op :: op in b <==> op in multiset(b);
    forall i, j | 0 <= i < j < |b| ensures b[i].name != b[j].name {
      if b[i] == b[j] {
        TwiceCounted(b, i, j);
        DistinctOnce(a, b[i]);
      } else {
        assert b[i] in a && b[j] in a;
      }
    }
  }

  lemma TwiceCounted<T>(s: seq<T>, i: nat, j: nat)
    requires i < j < |s| && s[i] == s[j]
    ensures multiset(s)[s[i]] >= 2
  {
    assert s == s[..j] + s[j..] && s[i] in s[..j] && s[j] in s[j..];
  }

  lemma {:induction false} DistinctOnce(a: seq<Op>, op: Op)
    requires DistinctNames(a)
    ensures multiset(a)[op] <= 1
  {
    if a != [] {
      assert a == [a[0]] + a[1..];
      DistinctOnce(a[1..], op);
      assert op == a[0] ==> op !in a[1..];
    }
  }

  /** The passes of several resources, one after the other. */
  function Flat(passes: seq<seq<Op>>): seq<Op> {
    if passes == [] then [] else passes[0] + Flat(passes[1..])
  }

  lemma {:induction false} FlatConcat(a: seq<seq<Op>>, b: seq<seq<Op>>)
    ensures Flat(a + b) == Flat(a) + Flat(b)
  {
    if a == [] {
      assert a + b == b;
    } else {
      assert (a + b)[1..] == a[1..] + b;
      FlatConcat(a[1..], b);
    }
  }

  lemma {:induction false} FlatPermuted(a: seq<seq<Op>>, b: seq<seq<Op>>)
    requires multiset(a) == multiset(b)
    ensures multiset(Flat(a)) == multiset(Flat(b))
    decreases |a|
  {
    if a == [] {
      assert |multiset(b)| == |b|;
    } else {
      assert a == [a[0]] + a[1..] && a[0] in multiset(b);
      var i :| 0 <= i < |b| && b[i] == a[0];
      FlatWithout(b, i);
      TakeOut(a, 0);
      TakeOut(b, i);
      assert a[..0] + a[1..] == a[1..];
      var rest := b[..i] + b[i + 1..];
      assert multiset(a[1..]) == multiset(a) - multiset{a[0]} && multiset(rest) == multiset(b) - multiset{a[0]};
      FlatPermuted(a[1..], b[..i] + b[i + 1..]);
    }
  }

  lemma TakeOut<T>(s: seq<T>, i: nat)
    requires i < |s|
    ensures multiset(s[..i] + s[i + 1..]) == multiset(s) - multiset{s[i]}
  {
    assert s == s[..i] + [s[i]] + s[i + 1..];
  }

  lemma FlatWithout(b: seq<seq<Op>>, i: nat)
    requires i < |b|
    ensures multiset(Flat(b)) == multiset(b[i]) + multiset(Flat(b[..i] + b[i + 1..]))
  {
    var head, pass, rest := b[..i], b[i], b[i + 1..];
    assert b == head + ([pass] + rest);
    FlatBetween(head, pass, rest);
  }

  lemma FlatBetween(head: seq<seq<Op>>, pass: seq<Op>, rest: seq<seq<Op>>)
    ensures multiset(Flat(head + ([pass] + rest))) == multiset(pass) + multiset(Flat(head + rest))
  {
    FlatConcat(head, rest);
    FlatConcat(head, [pass] + rest);
    assert ([pass] + rest)[1..] == rest;
    hide Flat;
  }

  /** Syncing the resources of a node in any order. */
  lemma ResourcesInAnyOrder(cfg: Config, a: seq<seq<Op>>, b: seq<seq<Op>>)
    requires Ready(cfg) && multiset(a) == multiset(b) && Additions(Flat(a)) && DistinctNames(Flat(a))
    ensures SyncAll(cfg, Flat(a)).sets == SyncAll(cfg, Flat(b)).sets
    ensures SyncAll(cfg, Flat(a)).chains.Keys == SyncAll(cfg, Flat(b)).chains.Keys == cfg.chains.Keys
    ensures forall c | c in cfg.chains ::
        multiset(SyncAll(cfg, Flat(a)).chains[c]) == multiset(SyncAll(cfg, Flat(b)).chains[c])
  {
    FlatPermuted(a, b);
    PermutedSync(cfg, Flat(a), Flat(b));
  }

  /** Equal sets and equal multisets of rules in every chain, from any configuration. */
  lemma PermutedSync(cfg: Config, a: seq<Op>, b: seq<Op>)
    requires Ready(cfg) && Additions(a) && DistinctNames(a)
    requires multiset(a) == multiset(b)
    ensures SyncAll(cfg, a).sets == SyncAll(cfg, b).sets
    ensures SyncAll(cfg, a).chains.Keys == SyncAll(cfg, b).chains.Keys == cfg.chains.Keys
    ensures forall c | c in cfg.chains :: multiset(SyncAll(cfg, a).chains[c]) == multiset(SyncAll(cfg, b).chains[c])
  {
    PermutedNames(a, b);
    SyncedChain(cfg, a, NatEgress);
    SyncedChain(cfg, b, NatEgress);
    forall c | c in cfg.chains ensures multiset(SyncAll(cfg, a).chains[c]) == multiset(SyncAll(cfg, b).chains[c]) {
      SyncedChain(cfg, a, c);
      SyncedChain(cfg, b, c);
      SameNewRules(a, b, c, Elems(cfg.chains[c]));
      ReverseMultiset(NewRules(RulesFor(a, c), Elems(cfg.chains[c])));
      ReverseMultiset(NewRules(RulesFor(b, c), Elems(cfg.chains[c])));
    }
    forall n ensures SameAt(SyncAll(cfg, a).sets, SyncAll(cfg, b).sets, n) {
      PermutedSet(cfg, a, b, n);
    }
    SameMaps(SyncAll(cfg, a).sets, SyncAll(cfg, b).sets);
  }

  ghost predicate SameAt<K, V>(x: map<K, V>, y: map<K, V>, n: K) {
    (n in x <==> n in y) && (n in x ==> x[n] == y[n])
  }

  lemma SameMaps<K, V>(x: map<K, V>, y: map<K, V>)
    requires forall n :: SameAt(x, y, n)
    ensures x == y
  {
    assert forall n :: SameAt(x, y, n) ==> (n in x <==> n in y);
    assert forall n | n in x :: SameAt(x, y, n) && x[n] == y[n];
  }

  lemma PermutedSet(cfg: Config, a: seq<Op>, b: seq<Op>, n: string)
    requires Ready(cfg) && Additions(a) && DistinctNames(a) && Additions(b) && DistinctNames(b)
    requires multiset(a) == multiset(b)
    ensures SameAt(SyncAll(cfg, a).sets, SyncAll(cfg, b).sets, n)
  {
    SyncedSets(cfg, a, n);
    SyncedSets(cfg, b, n);
    if i :| 0 <= i < |a| && a[i].name == n {
      assert a[i] in multiset(a) && a[i] in multiset(b) && a[i] in b;
      var j :| 0 <= j < |b| && b[j] == a[i];
    } else {
      forall j | 0 <= j < |b| ensures b[j].name != n {
        assert b[j] in multiset(b) && b[j] in multiset(a) && b[j] in a;
      }
    }
  }

  // ---- Verdicts ----

  /** The mark, bypass and forward verdicts do not depend on the order of the syncs. */
  lemma PermutedVerdicts(cfg: Config, a: seq<Op>, b: seq<Op>, p: Packet, mark: nat, depth: nat)
    requires Ready(cfg) && Additions(a) && DistinctNames(a)
    requires multiset(a) == multiset(b)
    requires forall c, r | c in {NatBypass, FilterEgress} && r in cfg.chains[c] :: r.target == Accept
    requires JumpsOut(cfg.chains[ManglePrerouting]) && OthersClosed(cfg)
    ensures var x, y := SyncAll(cfg, a), SyncAll(cfg, b);
            && Ready(x) && Ready(y)
            && Walk(x, x.chains[ManglePrerouting], p, mark, depth)
                == Walk(y, y.chains[ManglePrerouting], p, mark, depth)
            && Walk(x, x.chains[NatBypass], p, mark, depth) == Walk(y, y.chains[NatBypass], p, mark, depth)
            && Walk(x, x.chains[FilterEgress], p, mark, depth) == Walk(y, y.chains[FilterEgress], p, mark, depth)
  {
    PermutedNames(a, b);
    PermutedSync(cfg, a, b);
    SyncedChain(cfg, a, ManglePrerouting);
    SyncedChain(cfg, b, ManglePrerouting);
    PermutedMarks(cfg, a, b, p, mark, depth);
    PermutedAccepts(cfg, a, b, NatBypass, p, mark, depth);
    PermutedAccepts(cfg, a, b, FilterEgress, p, mark, depth);
  }

  /** The rules jump nowhere but into chains of other programs. */
  ghost predicate JumpsOut(rules: seq<Rule>) {
    forall r | r in rules && r.target.Jump? :: r.target.chain.Other?
  }

  /** Rules of other programs never jump into the managed chains. */
  ghost predicate OthersClosed(cfg: Config) {
    forall c | c in cfg.chains && c.Other? :: JumpsOut(cfg.chains[c])
  }

  lemma PermutedAccepts(cfg: Config, a: seq<Op>, b: seq<Op>, c: Chain, p: Packet, mark: nat, depth: nat)
    requires Ready(cfg) && Additions(a) && Additions(b) && multiset(a) == multiset(b)
    requires SyncAll(cfg, a).sets == SyncAll(cfg, b).sets
    requires c in {NatBypass, FilterEgress} && forall r | r in cfg.chains[c] :: r.target == Accept
    ensures c in SyncAll(cfg, a).chains && c in SyncAll(cfg, b).chains
    ensures Walk(SyncAll(cfg, a), SyncAll(cfg, a).chains[c], p, mark, depth)
         == Walk(SyncAll(cfg, b), SyncAll(cfg, b).chains[c], p, mark, depth)
  {
    var x, y := SyncAll(cfg, a), SyncAll(cfg, b);
    SyncedChain(cfg, a, c);
    SyncedChain(cfg, b, c);
    SameNewRules(a, b, c, Elems(cfg.chains[c]));
    AcceptRules(a, c);
    AcceptRules(b, c);
    NewRulesOnce(RulesFor(a, c), Elems(cfg.chains[c]));
    NewRulesOnce(RulesFor(b, c), Elems(cfg.chains[c]));
    WalkAccepts(x, x.chains[c], p, mark, depth);
    WalkAccepts(y, y.chains[c], p, mark, depth);
    assert forall r :: r in x.chains[c] <==> r in y.chains[c];
  }

  lemma AcceptRules(ops: seq<Op>, c: Chain)
    requires Additions(ops) && c in {NatBypass, FilterEgress}
    ensures forall r | r in RulesFor(ops, c) :: r.target == Accept
  {
    RulesForMembers(ops, c);
  }

  lemma MarkRules(ops: seq<Op>)
    requires Additions(ops)
    ensures forall r | r in RulesFor(ops, ManglePrerouting) :: r.target == Mark(FWMARK)
  {
    RulesForMembers(ops, ManglePrerouting);
  }

  /** The new mark rules stand in front, in some order; the rules of the start follow unchanged. */
  lemma PermutedMarks(cfg: Config, a: seq<Op>, b: seq<Op>, p: Packet, mark: nat, depth: nat)
    requires Ready(cfg) && Additions(a) && Additions(b) && multiset(a) == multiset(b)
    requires SyncAll(cfg, a).sets == SyncAll(cfg, b).sets
    requires JumpsOut(cfg.chains[ManglePrerouting]) && OthersClosed(cfg)
    ensures ManglePrerouting in SyncAll(cfg, a).chains && ManglePrerouting in SyncAll(cfg, b).chains
    ensures Walk(SyncAll(cfg, a), SyncAll(cfg, a).chains[ManglePrerouting], p, mark, depth)
         == Walk(SyncAll(cfg, b), SyncAll(cfg, b).chains[ManglePrerouting], p, mark, depth)
  {
    var c := ManglePrerouting;
    var x, y := SyncAll(cfg, a), SyncAll(cfg, b);
    var rest := cfg.chains[c];
    SyncedChain(cfg, a, c);
    SyncedChain(cfg, b, c);
    SameNewRules(a, b, c, Elems(rest));
    MarkRules(a);
    MarkRules(b);
    NewRulesOnce(RulesFor(a, c), Elems(rest));
    NewRulesOnce(RulesFor(b, c), Elems(rest));
    var ra, rb := Reverse(NewRules(RulesFor(a, c), Elems(rest))), Reverse(NewRules(RulesFor(b, c), Elems(rest)));
    ReverseMembers(NewRules(RulesFor(a, c), Elems(rest)));
    ReverseMembers(NewRules(RulesFor(b, c), Elems(rest)));
    var m := if NoneMatches(x.sets, ra, p) then mark else FWMARK;
    WalkMarks(x, ra, rest, p, FWMARK, mark, depth);
    WalkMarks(y, rb, rest, p, FWMARK, mark, depth);
    assert NoneMatches(x.sets, ra, p) <==> NoneMatches(y.sets, rb, p);
    SameOthers(cfg, a);
    SameOthers(cfg, b);
    WalkOthers(x, y, rest, p, m, depth);
  }

  /** Syncing leaves the chains of other programs alone. */
  lemma SameOthers(cfg: Config, ops: seq<Op>)
    requires Ready(cfg) && Additions(ops)
    ensures SyncAll(cfg, ops).chains.Keys == cfg.chains.Keys
    ensures forall c | c in cfg.chains && c.Other? :: SyncAll(cfg, ops).chains[c] == cfg.chains[c]
  {
    SyncedChain(cfg, ops, NatEgress);
    forall c | c in cfg.chains && c.Other? ensures SyncAll(cfg, ops).chains[c] == cfg.chains[c] {
      SyncedChain(cfg, ops, c);
      RulesForMembers(ops, c);
      NewRulesOnce(RulesFor(ops, c), Elems(cfg.chains[c]));
      NoElements(NewRules(RulesFor(ops, c), Elems(cfg.chains[c])));
    }
  }

  /** A traversal through chains of other programs needs only those chains and the sets. */
  lemma {:induction false} WalkOthers(x: Config, y: Config, rules: seq<Rule>, p: Packet, mark: nat, depth: nat)
    requires x.sets == y.sets && x.chains.Keys == y.chains.Keys && JumpsOut(rules) && OthersClosed(x)
    requires forall c | c in x.chains && c.Other? :: x.chains[c] == y.chains[c]
    ensures Walk(x, rules, p, mark, depth) == Walk(y, rules, p, mark, depth)
    decreases depth, |rules|
  {
    if rules != [] {
      WalkOthers(x, y, rules[1..], p, mark, depth);
      match rules[0].target
      case Mark(m) => WalkOthers(x, y, rules[1..], p, m, depth);
      case Jump(c) =>
        if depth > 0 && c in x.chains {
          WalkOthers(x, y, x.chains[c], p, mark, depth - 1);
          WalkOthers(x, y, rules[1..], p, Walk(x, x.chains[c], p, mark, depth - 1).mark, depth);
        }
      case _ =>
    }
  }

  lemma ReverseMembers<T>(s: seq<T>)
    ensures forall x :: x in Reverse(s) <==> x in s
  {
    forall x ensures x in Reverse(s) <==> x in s {
      if x in s {
        var i :| 0 <= i < |s| && s[i] == x;
        assert Reverse(s)[|s| - 1 - i] == x;
      }
    }
  }

  /** A chain after a pass holds what it held, and the rules of the pass. */
  lemma SyncedMembers(cfg: Config, ops: seq<Op>, c: Chain)
    requires Ready(cfg) && Additions(ops) && c in cfg.chains
    ensures c in SyncAll(cfg, ops).chains
    ensures forall r :: r in SyncAll(cfg, ops).chains[c] <==> r in cfg.chains[c] || r in RulesFor(ops, c)
  {
    hide SyncAll;
    SyncedChain(cfg, ops, c);
    NewRulesOnce(RulesFor(ops, c), Elems(cfg.chains[c]));
    ReverseMembers(NewRules(RulesFor(ops, c), Elems(cfg.chains[c])));
  }

  /** Where at most one rule of the SNAT chain matches the packet, the egress address is the same. */
  lemma PermutedSnat(cfg: Config, a: seq<Op>, b: seq<Op>, p: Packet, mark: nat, depth: nat)
    requires Ready(cfg) && Additions(a) && DistinctNames(a)
    requires multiset(a) == multiset(b)
    requires forall r | r in cfg.chains[NatEgress] :: r.target.Snat?
    requires forall r, q | r in AllSynced(cfg, a).chains[NatEgress] && q in AllSynced(cfg, a).chains[NatEgress]
               && Matches(AllSynced(cfg, a).sets, r, p) && Matches(AllSynced(cfg, a).sets, q, p) :: r == q
    ensures Walk(AllSynced(cfg, a), AllSynced(cfg, a).chains[NatEgress], p, mark, depth)
         == Walk(AllSynced(cfg, b), AllSynced(cfg, b).chains[NatEgress], p, mark, depth)
  {
    var x, y := SyncAll(cfg, a), SyncAll(cfg, b);
    assert x == AllSynced(cfg, a) && y == AllSynced(cfg, b);
    PermutedNames(a, b);
    PermutedSync(cfg, a, b);
    assert multiset(x.chains[NatEgress]) == multiset(y.chains[NatEgress]);
    assert forall r :: r in x.chains[NatEgress] <==> r in multiset(x.chains[NatEgress]);
    assert forall r :: r in y.chains[NatEgress] <==> r in multiset(y.chains[NatEgress]);
    SnatTargets(cfg, a);
    SnatTargets(cfg, b);
    if NoneMatches(x.sets, x.chains[NatEgress], p) {
      WalkNoMatch(x, x.chains[NatEgress], [], p, mark, depth);
      WalkNoMatch(y, y.chains[NatEgress], [], p, mark, depth);
    } else {
      var r :| r in x.chains[NatEgress] && Matches(x.sets, r, p);
      WalkOnlyMatch(x, x.chains[NatEgress], r, p, mark, depth);
      WalkOnlyMatch(y, y.chains[NatEgress], r, p, mark, depth);
    }
  }

  lemma SnatTargets(cfg: Config, ops: seq<Op>)
    requires Ready(cfg) && Additions(ops) && forall r | r in cfg.chains[NatEgress] :: r.target.Snat?
    ensures Ready(SyncAll(cfg, ops)) && forall r | r in SyncAll(cfg, ops).chains[NatEgress] :: r.target.Snat?
  {
    hide SyncAll;
    SyncedChain(cfg, ops, NatEgress);
    SyncedMembers(cfg, ops, NatEgress);
    RulesForMembers(ops, NatEgress);
  }

  lemma {:induction false} WalkOnlyMatch(cfg: Config, rules: seq<Rule>, r: Rule, p: Packet, mark: nat, depth: nat)
    requires r in rules && Matches(cfg.sets, r, p) && r.target.Snat?
    requires forall q | q in rules && Matches(cfg.sets, q, p) :: q == r
    ensures Walk(cfg, rules, p, mark, depth) == Fate(mark, Translated(r.target.to))
    decreases |rules|
  {
    assert rules == [rules[0]] + rules[1..];
    if !Matches(cfg.sets, rules[0], p) {
      WalkOnlyMatch(cfg, rules[1..], r, p, mark, depth);
    }
  }
}
