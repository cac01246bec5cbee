/** Which egress address a packet gets when several SNAT rules match it: that of the rule inserted
    last among those still there. */
module Priority {
  import opened Base
  import opened Net
  import opened Netfilter
  import opened Programs
  import opened Ordering

  /** The SNAT chain after a run. */
  ghost function Snats(start: Config, atts: seq<Attempt>): seq<Rule>
    requires Ready(start)
  {
    FrameAll(start, atts);
    RunAll(start, atts).chains[NatEgress]
  }

  /** When a rule was inserted: the number of the latest attempt before which it was absent and after
      which it was there. */
  ghost function Born(start: Config, atts: seq<Attempt>, r: Rule): (t: nat)
    requires Ready(start)
    ensures t <= |atts|
    decreases |atts|
  {
    if atts == [] then 0
    else
      var n := |atts| - 1;
      if r in Snats(start, atts) && r !in Snats(start, atts[..n]) then |atts| else Born(start, atts[..n], r)
  }

  ghost predicate NewestFirst(start: Config, atts: seq<Attempt>)
    requires Ready(start)
  {
    forall i, j | 0 <= i < j < |Snats(start, atts)| ::
      Born(start, atts, Snats(start, atts)[i]) > Born(start, atts, Snats(start, atts)[j])
  }

  /** Over every run, whatever commands fail, the SNAT chain is ordered by time of insertion. */
  lemma {:induction false} OrderedByInsertion(start: Config, atts: seq<Attempt>)
    requires Ready(start) && start.chains[NatEgress] == []
    ensures NewestFirst(start, atts)
    decreases |atts|
  {
    if atts != [] {
      var n := |atts| - 1;
      var before, now := Snats(start, atts[..n]), Snats(start, atts);
      OrderedByInsertion(start, atts[..n]);
      FrameAll(start, atts[..n]);
      ChainEffect(RunAll(start, atts[..n]), atts[n].op, atts[n].k, NatEgress);
      var r := RuleOf(atts[n].op, NatEgress);
      assert now == before || now == PushFirst(before, r) || now == Remove(before, r);
      OrderedStep(start, atts, before, now, r);
    }
  }

  /** The times of insertion after the last attempt of a run, of the rules before and after it. */
  ghost function Births(start: Config, atts: seq<Attempt>): map<Rule, nat>
    requires Ready(start) && atts != []
  {
    map x | x in Snats(start, atts[..|atts| - 1]) + Snats(start, atts) :: Born(start, atts, x)
  }

  lemma BirthsBefore(start: Config, atts: seq<Attempt>)
    requires Ready(start) && atts != [] && NewestFirst(start, atts[..|atts| - 1])
    ensures Descending(Snats(start, atts[..|atts| - 1]), Births(start, atts))
  {
    var prev := atts[..|atts| - 1];
    assert forall x | x in Snats(start, prev) :: Births(start, atts)[x] == Born(start, prev, x);
  }

  lemma BirthsAfter(start: Config, atts: seq<Attempt>)
    requires Ready(start) && atts != [] && Descending(Snats(start, atts), Births(start, atts))
    ensures NewestFirst(start, atts)
  {
    assert forall x | x in Snats(start, atts) :: Births(start, atts)[x] == Born(start, atts, x);
  }

  lemma BirthOfNew(start: Config, atts: seq<Attempt>, x: Rule, y: Rule)
    requires Ready(start) && atts != []
    requires x in Snats(start, atts) && x !in Snats(start, atts[..|atts| - 1]) && y in Snats(start, atts[..|atts| - 1])
    ensures Births(start, atts)[x] > Births(start, atts)[y]
  {
  }

  lemma OrderedStep(start: Config, atts: seq<Attempt>, before: seq<Rule>, now: seq<Rule>, r: Rule)
    requires Ready(start) && atts != [] && NewestFirst(start, atts[..|atts| - 1])
    requires before == Snats(start, atts[..|atts| - 1]) && now == Snats(start, atts)
    requires now == before || now == PushFirst(before, r) || now == Remove(before, r)
    ensures NewestFirst(start, atts)
  {
    BirthsBefore(start, atts);
    forall x, y | x in now && x !in before && y in before
      ensures Births(start, atts)[x] > Births(start, atts)[y]
    {
      BirthOfNew(start, atts, x, y);
    }
    DescendingEdit(before, now, r, Births(start, atts));
    BirthsAfter(start, atts);
  }

  ghost predicate Descending(rules: seq<Rule>, t: map<Rule, nat>) {
    && (forall x | x in rules :: x in t)
    && forall i, j | 0 <= i < j < |rules| :: t[rules[i]] > t[rules[j]]
  }

  lemma DescendingEdit(before: seq<Rule>, now: seq<Rule>, r: Rule, t: map<Rule, nat>)
    requires Descending(before, t) && forall x | x in now :: x in t
    requires now == before || now == PushFirst(before, r) || now == Remove(before, r)
    requires forall x, y | x in now && x !in before && y in before :: t[x] > t[y]
    ensures Descending(now, t)
  {
    RemoveMembers(before, r);
    if r in before && now == Remove(before, r) {
      DescendingRemove(before, r, t);
    } else {
      hide Remove;
    }
  }

  lemma DescendingRemove(rules: seq<Rule>, r: Rule, t: map<Rule, nat>)
    requires Descending(rules, t) && r in rules
    ensures Descending(Remove(rules, r), t)
  {
    var i := RemoveSplit(rules, r);
    var now := Remove(rules, r);
    hide Remove;
    forall a, b | 0 <= a < b < |now| ensures now[a] in t && now[b] in t && t[now[a]] > t[now[b]] {
      var a', b' := if a < i then a else a + 1, if b < i then b else b + 1;
      assert now[a] == rules[a'] && now[b] == rules[b'];
    }
    RemoveMembers(rules, r);
  }

  /** Syncing a rule that is there already leaves every rule where it is. */
  lemma ResyncKeepsPriority(start: Config, atts: seq<Attempt>, name: string, ips: seq<Ip>, dst: Cidr, eip: Ip, k: nat,
                            r: Rule)
    requires Ready(start) && SnatRule(name, dst, eip) in Snats(start, atts)
    ensures var again := atts + [Attempt(AddSnat(name, ips, dst, eip), k)];
            && Snats(start, again) == Snats(start, atts)
            && Born(start, again, r) == Born(start, atts, r)
  {
    var again := atts + [Attempt(AddSnat(name, ips, dst, eip), k)];
    assert again[..|again| - 1] == atts;
    FrameAll(start, atts);
    ChainEffect(RunAll(start, atts), AddSnat(name, ips, dst, eip), k, NatEgress);
  }

  /** `r` is the rule inserted last among the candidates. */
  ghost predicate Newest(start: Config, atts: seq<Attempt>, candidates: set<Rule>, r: Rule)
    requires Ready(start)
  {
    r in candidates && forall x | x in candidates && x != r :: Born(start, atts, x) < Born(start, atts, r)
  }

  ghost function Matching(cfg: Config, c: Chain, p: Packet): set<Rule>
    requires c in cfg.chains
  {
    set r | r in cfg.chains[c] && Matches(cfg.sets, r, p)
  }

  /** The packet leaves with the egress address of the newest matching rule. */
  lemma NewestWins(start: Config, atts: seq<Attempt>, p: Packet, mark: nat, depth: nat, r: Rule)
    requires Ready(start) && start.chains[NatEgress] == []
    requires Newest(start, atts, Matching(Reached(start, atts), NatEgress, p), r)
    ensures r.target.Snat?
    ensures Walk(Reached(start, atts), Snats(start, atts), p, mark, depth) == Fate(mark, Translated(r.target.to))
  {
    var cfg := Reached(start, atts);
    var rules := Snats(start, atts);
    OrderedByInsertion(start, atts);
    ShapedRun(start, atts);
    assert NatEgress in MANAGED;
    var i :| 0 <= i < |rules| && rules[i] == r;
    assert forall j | 0 <= j < i :: Born(start, atts, rules[j]) > Born(start, atts, r);
    assert forall j | 0 <= j < i :: rules[j] !in Matching(cfg, NatEgress, p);
    WalkToSnat(cfg, rules, i, p, mark, depth);
  }

  lemma WalkToSnat(cfg: Config, rules: seq<Rule>, i: nat, p: Packet, mark: nat, depth: nat)
    requires i < |rules| && Matches(cfg.sets, rules[i], p) && rules[i].target.Snat?
    requires forall j | 0 <= j < i :: !Matches(cfg.sets, rules[j], p)
    ensures Walk(cfg, rules, p, mark, depth) == Fate(mark, Translated(rules[i].target.to))
  {
    assert rules == rules[..i] + [rules[i]] + rules[i + 1..];
    WalkFirstMatch(cfg, rules[..i], rules[i], rules[i + 1..], p, mark, depth);
  }

  /** There is a newest matching rule whenever one matches; otherwise the chain gives no verdict. */
  lemma NewestExists(start: Config, atts: seq<Attempt>, p: Packet, mark: nat, depth: nat)
    requires Ready(start) && start.chains[NatEgress] == []
    ensures var candidates := Matching(Reached(start, atts), NatEgress, p);
            if candidates == {}
                then Walk(Reached(start, atts), Snats(start, atts), p, mark, depth) == Fate(mark, Continue)
            else exists r :: Newest(start, atts, candidates, r)
  {
    hide After, Born;
    var cfg := Reached(start, atts);
    var rules := Snats(start, atts);
    var candidates := Matching(cfg, NatEgress, p);
    if candidates == {} {
      assert forall r | r in rules :: r !in candidates;
      WalkNoMatch(cfg, rules, [], p, mark, depth);
    } else {
      OrderedByInsertion(start, atts);
      var r :| r in candidates;
      var i: nat :| i < |rules| && rules[i] == r;
      i := FirstMatching(cfg.sets, rules, p, i);
      forall x | x in candidates && x != rules[i] ensures Born(start, atts, x) < Born(start, atts, rules[i]) {
        var j :| 0 <= j < |rules| && rules[j] == x;
        assert j > i;
      }
      assert Newest(start, atts, candidates, rules[i]);
    }
  }

  lemma FirstMatching(sets: map<string, set<Ip>>, rules: seq<Rule>, p: Packet, bound: nat) returns (i: nat)
    requires bound < |rules| && Matches(sets, rules[bound], p)
    ensures i <= bound && Matches(sets, rules[i], p) && forall j | 0 <= j < i :: !Matches(sets, rules[j], p)
  {
    i := 0;
    while !Matches(sets, rules[i], p)
      invariant i <= bound && forall j | 0 <= j < i :: !Matches(sets, rules[j], p)
      decreases bound - i
    {
      i := i + 1;
    }
  }

  /** Clearing a rule gives its packets to the newest of the remaining rules that match them. */
  lemma ClearingRestoresNext(start: Config, atts: seq<Attempt>, name: string, dst: Cidr, eip: Ip, p: Packet, mark: nat,
                             depth: nat, next: Rule)
    requires Ready(start) && start.chains[NatEgress] == []
    requires SnatRule(name, dst, eip) in Snats(start, atts)
    requires Newest(start, atts, (set r | r in Matching(Reached(start, atts), NatEgress, p) && !Named(r, name)), next)
    ensures next.target.Snat?
    ensures var cleared := Full(Reached(start, atts), ClearSnat(name, dst, eip));
            && NatEgress in cleared.chains
            && Walk(cleared, cleared.chains[NatEgress], p, mark, depth) == Fate(mark, Translated(next.target.to))
  {
    var op := ClearSnat(name, dst, eip);
    var cfg := Reached(start, atts);
    var longer := atts + [Attempt(op, |Program(op)|)];
    assert longer[..|longer| - 1] == atts;
    var cleared := Full(cfg, op);
    assert RunAll(start, longer) == cleared;
    FrameSets(cfg, op, |Program(op)|);
    FrameChains(cfg, op, |Program(op)|);
    ClearSnatEffect(cfg, name, dst, eip, |Program(op)|);
    RemoveMembers(cfg.chains[NatEgress], SnatRule(name, dst, eip));
    assert name !in cleared.sets || cleared.sets[name] == {};
    ShapedRun(start, atts);
    ClearedMatches(cfg, cleared, name, p);
    forall r | r in cleared.chains[NatEgress] ensures Born(start, longer, r) == Born(start, atts, r) {
      assert r in Snats(start, atts);
    }
    assert Newest(start, longer, Matching(cleared, NatEgress, p), next);
    NewestWins(start, longer, p, mark, depth, next);
  }

  /** What still matches once the set of the cleared rule is empty or gone. */
  lemma ClearedMatches(cfg: Config, cleared: Config, name: string, p: Packet)
    requires SameSetsBut(cleared.sets, cfg.sets, name)
    requires name !in cleared.sets || cleared.sets[name] == {}
    ensures forall r :: Matches(cleared.sets, r, p) <==> Matches(cfg.sets, r, p) && !Named(r, name)
  {
    forall r ensures Matches(cleared.sets, r, p) <==> Matches(cfg.sets, r, p) && !Named(r, name) {
      if r.srcSet.Some? && r.srcSet.value != name {
        assert r.srcSet.value in cleared.sets <==> r.srcSet.value in cfg.sets;
      }
    }
  }
}
