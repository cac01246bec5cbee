/** The packet-filter state of one node: named address sets and ordered rule chains, the
    commands that change them, and what the chains do to a packet. */
module Netfilter {
  import opened Base
  import opened Net

  /** The chains the program touches, each with its table; `Other` is any chain of another program. */
  datatype Chain =
    | ManglePrerouting   // mangle, PREROUTING
    | NatPostrouting     // nat, POSTROUTING
    | NatBypass          // nat, STATIC-EGRESS-BYPASS-CNI
    | NatEgress          // nat, STATIC-EGRESS-NAT-CHAIN
    | FilterForward      // filter, FORWARD
    | FilterEgress       // filter, STATIC-EGRESS-FORWARD-CHAIN
    | Other(name: string)

  datatype Target =
    | Mark(mark: nat) | Accept | Drop | Masquerade | Return | Snat(to: Ip) | Jump(chain: Chain)

  /** A rule matches when all the tests it carries match. */
  datatype Rule = Rule(srcSet: Option<string>, src: Option<Cidr>, dst: Option<Cidr>, target: Target)

  datatype Config = Config(sets: map<string, set<Ip>>, chains: map<Chain, seq<Rule>>)

  predicate Named(r: Rule, name: string) {
    r.srcSet == Some(name)
  }

  /** The rules of `rules` that do not name the set, in order. */
  function Without(rules: seq<Rule>, name: string): seq<Rule> {
    if rules == [] then []
    else (if Named(rules[0], name) then [] else [rules[0]]) + Without(rules[1..], name)
  }

  /** The rules of `rules` that name the set, in order. */
  function Only(rules: seq<Rule>, name: string): seq<Rule> {
    if rules == [] then []
    else (if Named(rules[0], name) then [rules[0]] else []) + Only(rules[1..], name)
  }

  predicate InUse(cfg: Config, name: string) {
    exists c | c in cfg.chains :: exists r | r in cfg.chains[c] :: Named(r, name)
  }

  // ---- Commands ----

  datatype Cmd =
    | CreateSet(name: string)                // ipset create -exist
    | FlushSet(name: string)
    | AddEntry(name: string, ip: Ip)         // ipset add -exist
    | SwapSets(from: string, to: string)
    | DestroySet(name: string)
    | NewChain(chain: Chain)                 // an existing chain is kept
    | EnsureFirst(chain: Chain, rule: Rule)  // existence test, then insertion at position 1
    | EnsureLast(chain: Chain, rule: Rule)   // existence test, then append
    | DeletePresent(chain: Chain, rule: Rule) // existence test, then deletion
    | DeleteRule(chain: Chain, rule: Rule)   // deletion, an error when there is no such rule
    | LinkStep                               // tunnel, route or address command

  /** When the kernel carries the command out; otherwise it is an error and changes nothing. */
  predicate Enabled(cmd: Cmd, cfg: Config) {
    match cmd
    case CreateSet(_) => true
    case FlushSet(n) => n in cfg.sets
    case AddEntry(n, _) => n in cfg.sets
    case SwapSets(a, b) => a in cfg.sets && b in cfg.sets
    case DestroySet(n) => n in cfg.sets && !InUse(cfg, n)
    case NewChain(_) => true
    case EnsureFirst(c, _) => c in cfg.chains
    case EnsureLast(c, _) => c in cfg.chains
    case DeletePresent(_, _) => true
    case DeleteRule(c, r) => c in cfg.chains && r in cfg.chains[c]
    case LinkStep => true
  }

  function PushFirst(rules: seq<Rule>, r: Rule): seq<Rule> {
    if r in rules then rules else [r] + rules
  }

  function PushLast(rules: seq<Rule>, r: Rule): seq<Rule> {
    if r in rules then rules else rules + [r]
  }

  function Apply(cmd: Cmd, cfg: Config): Config
    requires Enabled(cmd, cfg)
  {
    match cmd
    case CreateSet(n) => if n in cfg.sets then cfg else cfg.(sets := cfg.sets[n := {}])
    case FlushSet(n) => cfg.(sets := cfg.sets[n := {}])
    case AddEntry(n, ip) => cfg.(sets := cfg.sets[n := cfg.sets[n] + {ip}])
    case SwapSets(a, b) => cfg.(sets := cfg.sets[a := cfg.sets[b]][b := cfg.sets[a]])
    case DestroySet(n) => cfg.(sets := cfg.sets - {n})
    case NewChain(c) => if c in cfg.chains then cfg else cfg.(chains := cfg.chains[c := []])
    case EnsureFirst(c, r) => cfg.(chains := cfg.chains[c := PushFirst(cfg.chains[c], r)])
    case EnsureLast(c, r) => cfg.(chains := cfg.chains[c := PushLast(cfg.chains[c], r)])
    case DeletePresent(c, r) =>
      if c in cfg.chains then cfg.(chains := cfg.chains[c := Remove(cfg.chains[c], r)]) else cfg
    case DeleteRule(c, r) => cfg.(chains := cfg.chains[c := Remove(cfg.chains[c], r)])
    case LinkStep => cfg
  }

  /** A configuration and how many commands of a program led to it. */
  datatype Progress = Progress(cfg: Config, done: nat)

  /** The first `k` commands of a program, stopping early at one the kernel refuses: an injected
      failure of command `k` is the same as stopping there, so every outcome of a program whose
      commands may fail is one of these. */
  function Exec(prog: seq<Cmd>, cfg: Config, k: nat): (p: Progress)
    ensures p.done <= k && p.done <= |prog|
  {
    if k == 0 then Progress(cfg, 0)
    else
      var p := Exec(prog, cfg, k - 1);
      if p.done == k - 1 && k - 1 < |prog| && Enabled(prog[k - 1], p.cfg)
      then Progress(Apply(prog[k - 1], p.cfg), k)
      else p
  }

  /** What an operation reports: completion, or the index of the command that failed. */
  datatype Outcome = Done | Failed(at: nat)

  function Budget(prog: seq<Cmd>, o: Outcome): nat {
    if o.Done? then |prog| else o.at
  }

  /** The operation ran its program up to the reported command, every one of them carried out. */
  ghost predicate Ended(prog: seq<Cmd>, before: Config, o: Outcome, after: Config) {
    && (o.Failed? ==> o.at < |prog|)
    && Exec(prog, before, Budget(prog, o)) == Progress(after, Budget(prog, o))
  }

  /** Where it failed, the kernel had refused the command. */
  ghost predicate Refused(prog: seq<Cmd>, o: Outcome, after: Config) {
    o.Failed? ==> o.at < |prog| && !Enabled(prog[o.at], after)
  }

  lemma {:induction false} ExecRefused(prog: seq<Cmd>, cfg: Config, at: nat, k: nat)
    requires at < |prog| && at <= k && Exec(prog, cfg, at).done == at && !Enabled(prog[at], Exec(prog, cfg, at).cfg)
    ensures Exec(prog, cfg, k) == Exec(prog, cfg, at)
  {
    if k > at {
      ExecRefused(prog, cfg, at, k - 1);
    }
  }

  /** With no failures but refusals the program ends as if it had no early return. */
  lemma EndedUnfailing(prog: seq<Cmd>, before: Config, o: Outcome, after: Config)
    requires Ended(prog, before, o, after) && Refused(prog, o, after)
    ensures after == Exec(prog, before, |prog|).cfg
  {
    hide Exec;
    if o.Failed? {
      ExecRefused(prog, before, o.at, |prog|);
    }
  }

  /** No command takes a chain away. */
  lemma {:induction false} ExecKeepsChains(prog: seq<Cmd>, cfg: Config, k: nat)
    ensures cfg.chains.Keys <= Exec(prog, cfg, k).cfg.chains.Keys
  {
    if k > 0 {
      ExecKeepsChains(prog, cfg, k - 1);
    }
  }

  // ---- What the chains do to a packet ----

  datatype Verdict = Continue | Accepted | Dropped | Masqueraded | Translated(to: Ip)

  datatype Fate = Fate(mark: nat, verdict: Verdict)

  predicate Matches(sets: map<string, set<Ip>>, r: Rule, p: Packet) {
    && (r.srcSet.Some? ==> r.srcSet.value in sets && p.src in sets[r.srcSet.value])
    && (r.src.Some? ==> InCidr(r.src.value, p.src))
    && (r.dst.Some? ==> InCidr(r.dst.value, p.dst))
  }

  /** First-match traversal. A MARK rule sets the mark and goes on; a jump comes back when the
      chain it enters gives no verdict. `depth` bounds the nesting of jumps. */
  function Walk(cfg: Config, rules: seq<Rule>, p: Packet, mark: nat, depth: nat): Fate
    decreases depth, |rules|
  {
    if rules == [] then Fate(mark, Continue)
    else if !Matches(cfg.sets, rules[0], p) then Walk(cfg, rules[1..], p, mark, depth)
    else
      match rules[0].target
      case Mark(m) => Walk(cfg, rules[1..], p, m, depth)
      case Accept => Fate(mark, Accepted)
      case Drop => Fate(mark, Dropped)
      case Masquerade => Fate(mark, Masqueraded)
      case Snat(to) => Fate(mark, Translated(to))
      case Return => Fate(mark, Continue)
      case Jump(c) =>
        if depth == 0 || c !in cfg.chains then Fate(mark, Continue)
        else
          var f := Walk(cfg, cfg.chains[c], p, mark, depth - 1);
          if f.verdict.Continue? then Walk(cfg, rules[1..], p, f.mark, depth) else f
  }

  ghost predicate NoneMatches(sets: map<string, set<Ip>>, rules: seq<Rule>, p: Packet) {
    forall r | r in rules :: !Matches(sets, r, p)
  }

  lemma {:induction false} WalkNoMatch(cfg: Config, quiet: seq<Rule>, rest: seq<Rule>, p: Packet, mark: nat, depth: nat)
    requires NoneMatches(cfg.sets, quiet, p)
    ensures Walk(cfg, quiet + rest, p, mark, depth) == Walk(cfg, rest, p, mark, depth)
    ensures Walk(cfg, quiet, p, mark, depth) == Fate(mark, Continue)
  {
    if quiet == [] {
      assert quiet + rest == rest;
    } else {
      assert (quiet + rest)[1..] == quiet[1..] + rest;
      WalkNoMatch(cfg, quiet[1..], rest, p, mark, depth);
    }
  }

  /** The mark with which the packet gets behind the rules, if they let it through to what follows. */
  function Through(cfg: Config, rules: seq<Rule>, p: Packet, mark: nat, depth: nat): Option<nat>
    decreases depth, |rules|
  {
    if rules == [] then Some(mark)
    else if !Matches(cfg.sets, rules[0], p) then Through(cfg, rules[1..], p, mark, depth)
    else
      match rules[0].target
      case Mark(m) => Through(cfg, rules[1..], p, m, depth)
      case Jump(c) =>
        if depth == 0 || c !in cfg.chains then None
        else
          var f := Walk(cfg, cfg.chains[c], p, mark, depth - 1);
          if f.verdict.Continue? then Through(cfg, rules[1..], p, f.mark, depth) else None
      case _ => None
  }

  lemma {:induction false} WalkThrough(cfg: Config, rules: seq<Rule>, rest: seq<Rule>, p: Packet, mark: nat, depth: nat)
    requires Through(cfg, rules, p, mark, depth).Some?
    ensures Walk(cfg, rules + rest, p, mark, depth)
        == Walk(cfg, rest, p, Through(cfg, rules, p, mark, depth).value, depth)
    decreases |rules|
  {
    if rules == [] {
      assert rules + rest == rest;
    } else {
      assert (rules + rest)[1..] == rules[1..] + rest;
      if !Matches(cfg.sets, rules[0], p) {
        WalkThrough(cfg, rules[1..], rest, p, mark, depth);
      } else {
        match rules[0].target
        case Mark(m) => WalkThrough(cfg, rules[1..], rest, p, m, depth);
        case Jump(c) => WalkThrough(cfg, rules[1..], rest, p, Walk(cfg, cfg.chains[c], p, mark, depth - 1).mark, depth);
        case _ =>
      }
    }
  }

  /** Where they do not, nothing that follows matters. */
  lemma {:induction false} WalkBlocked(cfg: Config, rules: seq<Rule>, rest: seq<Rule>, p: Packet, mark: nat, depth: nat)
    requires Through(cfg, rules, p, mark, depth).None?
    ensures Walk(cfg, rules + rest, p, mark, depth) == Walk(cfg, rules, p, mark, depth)
    decreases |rules|
  {
    assert (rules + rest)[1..] == rules[1..] + rest;
    if !Matches(cfg.sets, rules[0], p) {
      WalkBlocked(cfg, rules[1..], rest, p, mark, depth);
    } else {
      match rules[0].target
      case Mark(m) => WalkBlocked(cfg, rules[1..], rest, p, m, depth);
      case Jump(c) =>
        if depth > 0 && c in cfg.chains {
          var f := Walk(cfg, cfg.chains[c], p, mark, depth - 1);
          if f.verdict.Continue? {
            WalkBlocked(cfg, rules[1..], rest, p, f.mark, depth);
          }
        }
      case _ =>
    }
  }

  /** A jump behind them into a chain of which no rule matches changes nothing. */
  lemma QuietJump(cfg: Config, rules: seq<Rule>, c: Chain, p: Packet, mark: nat, depth: nat)
    requires depth >= 1 && c in cfg.chains && NoneMatches(cfg.sets, cfg.chains[c], p)
    ensures Walk(cfg, rules + [Rule(None, None, None, Jump(c))], p, mark, depth) == Walk(cfg, rules, p, mark, depth)
  {
    var behind := Through(cfg, rules, p, mark, depth);
    var jump := [Rule(None, None, None, Jump(c))];
    if behind.Some? {
      WalkThrough(cfg, rules, jump, p, mark, depth);
      WalkThrough(cfg, rules, [], p, mark, depth);
      assert rules + [] == rules;
      WalkNoMatch(cfg, cfg.chains[c], [], p, behind.value, depth - 1);
    } else {
      WalkBlocked(cfg, rules, jump, p, mark, depth);
    }
  }

  /** A run of rules whose matching members all set the same mark: the mark is set exactly when one
      matches, wherever it stands, and the traversal goes on behind the run. */
  lemma {:induction false} WalkMarks(cfg: Config, marks: seq<Rule>, rest: seq<Rule>, p: Packet, m: nat, mark: nat,
                                     depth: nat)
    requires forall r | r in marks && Matches(cfg.sets, r, p) :: r.target == Mark(m)
    ensures Walk(cfg, marks + rest, p, mark, depth)
         == Walk(cfg, rest, p, if NoneMatches(cfg.sets, marks, p) then mark else m, depth)
    decreases |marks|
  {
    if marks == [] {
      assert marks + rest == rest;
    } else {
      assert (marks + rest)[1..] == marks[1..] + rest;
      assert marks == [marks[0]] + marks[1..];
      WalkMarks(cfg, marks[1..], rest, p, m, if Matches(cfg.sets, marks[0], p) then m else mark, depth);
      assert NoneMatches(cfg.sets, marks, p) <==>
             !Matches(cfg.sets, marks[0], p) && NoneMatches(cfg.sets, marks[1..], p);
    }
  }

  /** A run of rules whose matching members all accept. */
  lemma {:induction false} WalkAccepts(cfg: Config, accepts: seq<Rule>, p: Packet, mark: nat, depth: nat)
    requires forall r | r in accepts && Matches(cfg.sets, r, p) :: r.target == Accept
    ensures Walk(cfg, accepts, p, mark, depth)
         == Fate(mark, if NoneMatches(cfg.sets, accepts, p) then Continue else Accepted)
    decreases |accepts|
  {
    if accepts != [] {
      WalkAccepts(cfg, accepts[1..], p, mark, depth);
      assert accepts == [accepts[0]] + accepts[1..];
      assert NoneMatches(cfg.sets, accepts, p) <==>
             !Matches(cfg.sets, accepts[0], p) && NoneMatches(cfg.sets, accepts[1..], p);
    }
  }

  /** The first matching rule decides when it is terminal. */
  lemma WalkFirstMatch(cfg: Config, before: seq<Rule>, r: Rule, after: seq<Rule>, p: Packet, mark: nat, depth: nat)
    requires NoneMatches(cfg.sets, before, p) && Matches(cfg.sets, r, p)
    ensures Walk(cfg, before + [r] + after, p, mark, depth) == Walk(cfg, [r] + after, p, mark, depth)
  {
    assert before + [r] + after == before + ([r] + after);
    WalkNoMatch(cfg, before, [r] + after, p, mark, depth);
  }

  /** What it decides, by its target. */
  lemma FirstMatchDecides(cfg: Config, before: seq<Rule>, r: Rule, after: seq<Rule>, p: Packet, mark: nat, depth: nat)
    requires NoneMatches(cfg.sets, before, p) && Matches(cfg.sets, r, p) && !r.target.Mark? && !r.target.Jump?
    ensures var f := Walk(cfg, before + [r] + after, p, mark, depth);
            && f.mark == mark
            && (f.verdict == Accepted <==> r.target == Accept)
            && (f.verdict == Dropped <==> r.target == Drop)
            && (f.verdict == Masqueraded <==> r.target == Masquerade)
            && (f.verdict == Continue <==> r.target == Return)
            && (forall to :: f.verdict == Translated(to) <==> r.target == Snat(to))
  {
    WalkFirstMatch(cfg, before, r, after, p, mark, depth);
  }

  // ---- Rules that name a set, and edits of a chain ----

  lemma {:induction false} OnlyMembers(rules: seq<Rule>, name: string)
    ensures forall r :: r in Only(rules, name) <==> r in rules && Named(r, name)
  {
    if rules != [] {
      OnlyMembers(rules[1..], name);
      assert rules == [rules[0]] + rules[1..];
    }
  }

  lemma {:induction false} WithoutMembers(rules: seq<Rule>, name: string)
    ensures forall r :: r in Without(rules, name) <==> r in rules && !Named(r, name)
  {
    if rules != [] {
      WithoutMembers(rules[1..], name);
      assert rules == [rules[0]] + rules[1..];
    }
  }

  lemma {:induction false} OnlyConcat(a: seq<Rule>, b: seq<Rule>, name: string)
    ensures Only(a + b, name) == Only(a, name) + Only(b, name)
  {
    if a == [] {
      assert a + b == b;
    } else {
      assert (a + b)[1..] == a[1..] + b;
      OnlyConcat(a[1..], b, name);
    }
  }

  lemma {:induction false} WithoutConcat(a: seq<Rule>, b: seq<Rule>, name: string)
    ensures Without(a + b, name) == Without(a, name) + Without(b, name)
  {
    if a == [] {
      assert a + b == b;
    } else {
      assert (a + b)[1..] == a[1..] + b;
      WithoutConcat(a[1..], b, name);
    }
  }

  lemma FilterConcat(a: seq<Rule>, b: seq<Rule>, name: string)
    ensures Only(a + b, name) == Only(a, name) + Only(b, name)
    ensures Without(a + b, name) == Without(a, name) + Without(b, name)
  {
    OnlyConcat(a, b, name);
    WithoutConcat(a, b, name);
  }

  lemma {:induction false} FilterRemove(rules: seq<Rule>, r: Rule, name: string)
    ensures Only(Remove(rules, r), name) == if Named(r, name) then Remove(Only(rules, name), r) else Only(rules, name)
    ensures Without(Remove(rules, r), name) == if Named(r, name) then Without(rules, name)
        else Remove(Without(rules, name), r)
  {
    if rules != [] {
      FilterRemove(rules[1..], r, name);
      if rules[0] != r {
        assert Remove(rules, r)[1..] == Remove(rules[1..], r);
        if Named(rules[0], name) {
          assert Only(rules, name)[1..] == Only(rules[1..], name);
          assert Without(rules, name) == Without(rules[1..], name);
        } else {
          assert Without(rules, name)[1..] == Without(rules[1..], name);
          assert Only(rules, name) == Only(rules[1..], name);
        }
      }
    }
  }

  /** The two insertions, seen through the filters. */
  lemma FilterPush(rules: seq<Rule>, r: Rule, name: string)
    ensures Only(PushFirst(rules, r), name) == if Named(r, name) then PushFirst(Only(rules, name), r)
        else Only(rules, name)
    ensures Only(PushLast(rules, r), name) == if Named(r, name) then PushLast(Only(rules, name), r)
        else Only(rules, name)
    ensures Without(PushFirst(rules, r), name) == if Named(r, name) then Without(rules, name)
        else PushFirst(Without(rules, name), r)
    ensures Without(PushLast(rules, r), name) == if Named(r, name) then Without(rules, name)
        else PushLast(Without(rules, name), r)
  {
    OnlyMembers(rules, name);
    WithoutMembers(rules, name);
    FilterConcat([r], rules, name);
    FilterConcat(rules, [r], name);
    assert Only([r], name) == if Named(r, name) then [r] else [];
    assert Without([r], name) == if Named(r, name) then [] else [r];
  }
}
