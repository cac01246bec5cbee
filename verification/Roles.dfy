/** A node that becomes or ceases to be the gateway of a resource ends with the rules of its last role. */
module Roles {
  import opened Base
  import opened Net
  import opened Netfilter
  import opened Programs
  import opened Resources
  import opened Confluence

  // ---- The rules a node holds for one rule id ----

  /** Which of its four rules are there: a director's two, and a gateway's two. */
  datatype Flags = Flags(mark: bool, bypass: bool, snat: bool, forward: bool)

  /** The rules of one id in one chain. */
  function Held(c: Chain, id: string, rule: EgressRule, f: Flags): seq<Rule> {
    match c
    case NatEgress => if f.snat then [SnatRule(id, rule.cidr, rule.egressIP)] else []
    case FilterEgress => if f.forward then [AcceptRule(id, rule.cidr)] else []
    case ManglePrerouting => if f.mark then [MarkRule(id, rule.cidr)] else []
    case NatBypass => if f.bypass then [AcceptRule(id, rule.cidr)] else []
    case _ => []
  }

  /** Exactly the flagged rules, each once. */
  ghost predicate Holds(cfg: Config, id: string, rule: EgressRule, f: Flags) {
    Ready(cfg) && forall c | c in cfg.chains :: Only(cfg.chains[c], id) == Held(c, id, rule, f)
  }

  /** The ids that have each of the four rules. */
  datatype Parts = Parts(mark: set<string>, bypass: set<string>, snat: set<string>, forward: set<string>)

  function FlagsOf(r: Parts, id: string): Flags {
    Flags(id in r.mark, id in r.bypass, id in r.snat, id in r.forward)
  }

  ghost predicate AllHold(cfg: Config, ids: seq<string>, rules: seq<EgressRule>, r: Parts)
    requires |ids| == |rules|
  {
    Ready(cfg) && forall i | 0 <= i < |ids| :: Holds(cfg, ids[i], rules[i], FlagsOf(r, ids[i]))
  }

  lemma OnlyEdited(e: Edit, rules: seq<Rule>, r: Rule, id: string)
    ensures Only(Edited(e, rules, r), id) == if Named(r, id) then Edited(e, Only(rules, id), r) else Only(rules, id)
  {
    FilterPush(rules, r, id);
    FilterRemove(rules, r, id);
  }

  /** An operation, seen through the rules of one id. */
  lemma OnlyEffect(cfg: Config, op: Op, k: nat, c: Chain, id: string)
    requires Ready(cfg) && c in cfg.chains
    ensures c in After(cfg, op, k).chains
    ensures Only(After(cfg, op, k).chains[c], id)
         == if Named(RuleOf(op, c), id)
            then Edited(EditOf(op, k, Starts(cfg, op), c), Only(cfg.chains[c], id), RuleOf(op, c))
            else Only(cfg.chains[c], id)
  {
    ChainEffect(cfg, op, k, c);
    OnlyEdited(EditOf(op, k, Starts(cfg, op), c), cfg.chains[c], RuleOf(op, c), id);
  }

  /** Operations on other ids leave the rules of this one alone, wherever they stop. */
  lemma OtherOperation(cfg: Config, op: Op, k: nat, id: string, rule: EgressRule, f: Flags)
    requires Holds(cfg, id, rule, f) && op.name != id
    ensures Holds(After(cfg, op, k), id, rule, f)
  {
    FrameChains(cfg, op, k);
    forall c | c in cfg.chains ensures Only(After(cfg, op, k).chains[c], id) == Only(cfg.chains[c], id) {
      OnlyEffect(cfg, op, k, c, id);
    }
  }

  /** The operation is the one a resource's rule asks for. */
  predicate For(op: Op, id: string, rule: EgressRule) {
    && op.name == id && op.dst == rule.cidr
    && (op.AddSnat? || op.ClearSnat? ==> op.egressIP == rule.egressIP)
  }

  /** What the first `k` commands of an operation make of its id's rules. A clearing does nothing without
      the SNAT rule. */
  function FlagsAfter(op: Op, k: nat, f: Flags): Flags {
    match op
    case AddRoute(_, ips, _) => f.(mark := f.mark || k >= |ips| + 3, bypass := f.bypass || k >= |ips| + 4)
    case DropRoute(_, _) => f.(mark := f.mark && k < 3, bypass := f.bypass && k < 4)
    case StaleRoute(_, _) => f.(mark := f.mark && k < 1, bypass := f.bypass && k < 2)
    case AddSnat(_, ips, _, _) => f.(forward := f.forward || k >= |ips| + 3, snat := f.snat || k >= |ips| + 4)
    case ClearSnat(_, _, _) => if f.snat then f.(snat := k < 1, forward := f.forward && k < 2) else f
  }

  lemma OwnOperation(cfg: Config, op: Op, k: nat, id: string, rule: EgressRule, f: Flags)
    requires Holds(cfg, id, rule, f) && For(op, id, rule)
    ensures Holds(After(cfg, op, k), id, rule, FlagsAfter(op, k, f))
  {
    StartsExactly(cfg, op, id, rule, f);
    hide After, Held, FlagsAfter, EditOf, RuleOf, Starts;
    FrameChains(cfg, op, k);
    forall c | c in cfg.chains
      ensures Only(After(cfg, op, k).chains[c], id) == Held(c, id, rule, FlagsAfter(op, k, f))
    {
      OnlyEffect(cfg, op, k, c, id);
      HeldEdit(op, k, id, rule, f, Starts(cfg, op), c);
    }
  }

  lemma StartsExactly(cfg: Config, op: Op, id: string, rule: EgressRule, f: Flags)
    requires Holds(cfg, id, rule, f) && For(op, id, rule)
    ensures op.ClearSnat? ==> (Starts(cfg, op) <==> f.snat)
  {
    OnlyMembers(cfg.chains[NatEgress], id);
    assert Only(cfg.chains[NatEgress], id) == Held(NatEgress, id, rule, f);
    var snat := SnatRule(id, rule.cidr, rule.egressIP);
    assert snat in Only(cfg.chains[NatEgress], id) <==> snat in cfg.chains[NatEgress];
  }

  lemma HeldEdit(op: Op, k: nat, id: string, rule: EgressRule, f: Flags, starts: bool, c: Chain)
    requires For(op, id, rule) && (op.ClearSnat? ==> (starts <==> f.snat))
    ensures Held(c, id, rule, FlagsAfter(op, k, f))
         == if Named(RuleOf(op, c), id) then Edited(EditOf(op, k, starts, c), Held(c, id, rule, f), RuleOf(op, c))
            else Held(c, id, rule, f)
  {
  }

  // ---- Lists of attempts ----

  function With(x: set<string>, id: string, yes: bool): set<string> {
    if yes then x + {id} else x - {id}
  }

  /** What an attempt makes of the parts. */
  function Changed(r: Parts, att: Attempt): Parts {
    var n, f := att.op.name, FlagsAfter(att.op, att.k, FlagsOf(r, att.op.name));
    Parts(With(r.mark, n, f.mark), With(r.bypass, n, f.bypass), With(r.snat, n, f.snat), With(r.forward, n, f.forward))
  }

  function ChangedAll(r: Parts, atts: seq<Attempt>): Parts
    decreases |atts|
  {
    if atts == [] then r else var n := |atts| - 1; Changed(ChangedAll(r, atts[..n]), atts[n])
  }

  /** An operation on an id of the resource is the one its rule asks for. */
  ghost predicate Suits(op: Op, ids: seq<string>, rules: seq<EgressRule>)
    requires |ids| == |rules|
  {
    op.name in ids ==> exists i | 0 <= i < |ids| :: For(op, ids[i], rules[i])
  }

  lemma OneAttempt(cfg: Config, att: Attempt, ids: seq<string>, rules: seq<EgressRule>, r: Parts)
    requires |ids| == |rules| && NoDup(ids) && AllHold(cfg, ids, rules, r) && Suits(att.op, ids, rules)
    ensures AllHold(After(cfg, att.op, att.k), ids, rules, Changed(r, att))
  {
    hide After, Holds, FlagsAfter;
    FrameChains(cfg, att.op, att.k);
    forall j | 0 <= j < |ids|
      ensures Holds(After(cfg, att.op, att.k), ids[j], rules[j], FlagsOf(Changed(r, att), ids[j]))
    {
      if ids[j] == att.op.name {
        OwnOperation(cfg, att.op, att.k, ids[j], rules[j], FlagsOf(r, ids[j]));
        assert FlagsOf(Changed(r, att), ids[j]) == FlagsAfter(att.op, att.k, FlagsOf(r, ids[j]));
      } else {
        OtherOperation(cfg, att.op, att.k, ids[j], rules[j], FlagsOf(r, ids[j]));
        assert FlagsOf(Changed(r, att), ids[j]) == FlagsOf(r, ids[j]);
      }
    }
  }

  /** Whatever attempts are made at the rules of the resource and at others, and wherever they stop: each id
      has the rules that the attempts at it, one after the other, leave it. */
  lemma {:induction false} WholePass(cfg: Config, atts: seq<Attempt>, ids: seq<string>, rules: seq<EgressRule>,
                                     r: Parts)
    requires |ids| == |rules| && NoDup(ids) && AllHold(cfg, ids, rules, r)
    requires forall att | att in atts :: Suits(att.op, ids, rules)
    ensures AllHold(RunAll(cfg, atts), ids, rules, ChangedAll(r, atts))
    decreases |atts|
  {
    hide After, Holds;
    if atts != [] {
      var n := |atts| - 1;
      WholePass(cfg, atts[..n], ids, rules, r);
      OneAttempt(RunAll(cfg, atts[..n]), atts[n], ids, rules, ChangedAll(r, atts[..n]));
    }
  }

  predicate SameKind(a: Op, b: Op) {
    || (a.AddRoute? && b.AddRoute?) || (a.AddSnat? && b.AddSnat?) || (a.ClearSnat? && b.ClearSnat?)
    || (a.StaleRoute? && b.StaleRoute?) || (a.DropRoute? && b.DropRoute?)
  }

  /** Complete operations of one kind on all ids of a list. */
  function Uniform(r: Parts, kind: Op, x: set<string>): Parts {
    match kind
    case AddRoute(_, _, _) => r.(mark := r.mark + x, bypass := r.bypass + x)
    case AddSnat(_, _, _, _) => r.(snat := r.snat + x, forward := r.forward + x)
    case ClearSnat(_, _, _) => r.(snat := r.snat - x, forward := r.forward - x * r.snat)
    case _ => r.(mark := r.mark - x, bypass := r.bypass - x)
  }

  lemma {:induction false} UniformChange(r: Parts, ops: seq<Op>, ids: seq<string>, kind: Op)
    requires |ops| == |ids| && NoDup(ids)
    requires forall i | 0 <= i < |ops| :: ops[i].name == ids[i] && SameKind(ops[i], kind)
    ensures ChangedAll(r, Complete(ops)) == Uniform(r, kind, Elems(ids))
    decreases |ops|
  {
    if ops == [] {
      assert Elems(ids) == {};
    } else {
      var n := |ops| - 1;
      UniformChange(r, ops[..n], ids[..n], kind);
      LastChange(r, ops);
      LastElement(ids);
      hide Changed, ChangedAll, Uniform, Program, NoDup;
      OneMore(r, kind, Elems(ids[..n]), ops[n]);
    }
  }

  lemma LastChange(r: Parts, ops: seq<Op>)
    requires ops != []
    ensures var n := |ops| - 1;
            ChangedAll(r, Complete(ops))
            == Changed(ChangedAll(r, Complete(ops[..n])), Attempt(ops[n], |Program(ops[n])|))
  {
    hide Changed, Program;
    assert Complete(ops)[..|ops| - 1] == Complete(ops[..|ops| - 1]);
  }

  lemma LastElement(ids: seq<string>)
    requires NoDup(ids) && ids != []
    ensures var n := |ids| - 1;
            ids[n] !in Elems(ids[..n]) && Elems(ids) == Elems(ids[..n]) + {ids[n]} && NoDup(ids[..n])
  {
    assert ids == ids[..|ids| - 1] + [ids[|ids| - 1]];
  }

  lemma OneMore(r: Parts, kind: Op, x: set<string>, op: Op)
    requires SameKind(op, kind) && op.name !in x
    ensures Changed(Uniform(r, kind, x), Attempt(op, |Program(op)|)) == Uniform(r, kind, x + {op.name})
  {
    ProgramLong(op);
  }

  lemma ProgramLong(op: Op)
    ensures |Program(op)| >= if op.AddRoute? || op.AddSnat? then |op.ips| + 5 else if op.DropRoute? then 4 else 2
  {
  }

  // ---- Runs ----

  /** The node, the statuses the resource has had, how many of them the informer's store and the
      update handler have seen. The store may be ahead of the handler. */
  datatype Sys = Sys(cfg: Config, hist: seq<Status>, delivered: nat, listed: nat)

  datatype Event =
    | Reassign(status: Status)            // a new gateway is written
    | List                                // the store takes over the next status
    | Deliver                             // the handler gets the next pair of statuses
    | Work(ips: seq<seq<Ip>>)             // a worker pass on the stored status
    | Elsewhere(att: Attempt)             // an operation on behalf of another resource

  ghost predicate WellFormed(s: Sys) {
    s.delivered <= s.listed < |s.hist|
  }

  ghost predicate Possible(s: Sys, e: Event, ids: seq<string>) {
    && WellFormed(s)
    && match e
       case Reassign(st) => true
       case List => s.listed + 1 < |s.hist|
       case Deliver => s.delivered < s.listed
       case Work(ips) => |ips| == |ids|
       case Elsewhere(att) => att.op.name !in ids
  }

  ghost function Next(s: Sys, e: Event, self: string, ids: seq<string>, rules: seq<EgressRule>): Sys
    requires Possible(s, e, ids) && |ids| == |rules|
  {
    match e
    case Reassign(st) => s.(hist := s.hist + [st])
    case List => s.(listed := s.listed + 1)
    case Deliver =>
      s.(cfg := SyncAll(s.cfg, UpdateOps(self, s.hist[s.delivered], s.hist[s.delivered + 1], ids, rules)),
          delivered := s.delivered + 1)
    case Work(ips) => s.(cfg := SyncAll(s.cfg, PassOps(self, s.hist[s.listed], ids, rules, ips)))
    case Elsewhere(att) => s.(cfg := After(s.cfg, att.op, att.k))
  }

  ghost predicate Run(states: seq<Sys>, events: seq<Event>, self: string, ids: seq<string>, rules: seq<EgressRule>)
    requires |ids| == |rules|
  {
    && |states| == |events| + 1
    && forall i | 0 <= i < |events| ::
        Possible(states[i], events[i], ids) && states[i + 1] == Next(states[i], events[i], self, ids, rules)
  }

  /** A controller that starts: it sees the current status first, and finds whatever rules of the ids an
      earlier life has left on the node, halves of a role's rules among them. */
  ghost predicate Start(s: Sys, ids: seq<string>, rules: seq<EgressRule>, found: Parts)
    requires |ids| == |rules|
  {
    && |s.hist| == 1 && s.delivered == s.listed == 0
    && AllHold(s.cfg, ids, rules, found) && Confined(found, ids)
  }

  predicate Confined(r: Parts, ids: seq<string>) {
    r.mark + r.bypass + r.snat + r.forward <= Elems(ids)
  }

  // ---- One event ----

  lemma HandlerKinds(was: bool, isNow: bool, ids: seq<string>, rules: seq<EgressRule>, n: nat)
    requires |ids| == |rules| && n <= |rules| && !(was && isNow)
    ensures var ops := HandlerOps(was, isNow, ids, rules, n);
            && (!was && !isNow ==> ops == [])
            && (was || isNow ==> |ops| == n && forall i | 0 <= i < n ::
                  ops[i] == if was then ClearSnat(ids[i], rules[i].cidr, rules[i].egressIP)
                      else StaleRoute(ids[i], rules[i].cidr))
  {
  }

  function AfterHandler(self: string, before: Status, now: Status, r: Parts): Parts {
    if before.node == "" || now.node == "" then r
    else if before.node == self && now.node != self then r.(snat := {}, forward := r.forward - r.snat)
    else if before.node != self && now.node == self then r.(mark := {}, bypass := {})
    else r
  }

  function AfterPass(self: string, status: Status, ids: seq<string>, r: Parts): Parts {
    if status.node == "" || (status.node != self && status.ip == "") then r
    else if status.node == self then r.(snat := Elems(ids), forward := Elems(ids))
    else r.(mark := Elems(ids), bypass := Elems(ids))
  }

  lemma OpsSuit(ops: seq<Op>, ids: seq<string>, rules: seq<EgressRule>)
    requires |ops| == |ids| == |rules| && forall i | 0 <= i < |ops| :: For(ops[i], ids[i], rules[i])
    ensures forall att | att in Complete(ops) :: Suits(att.op, ids, rules)
  {
    forall att | att in Complete(ops) ensures Suits(att.op, ids, rules) {
      var i :| 0 <= i < |ops| && Complete(ops)[i] == att;
      assert For(ops[i], ids[i], rules[i]);
    }
  }

  /** Complete operations of one kind for all rules of the resource. */
  lemma UniformPass(cfg: Config, ops: seq<Op>, ids: seq<string>, rules: seq<EgressRule>, r: Parts, kind: Op)
    requires |ops| == |ids| == |rules| && NoDup(ids) && AllHold(cfg, ids, rules, r)
    requires forall i | 0 <= i < |ops| :: For(ops[i], ids[i], rules[i]) && SameKind(ops[i], kind)
    ensures AllHold(SyncAll(cfg, ops), ids, rules, Uniform(r, kind, Elems(ids)))
  {
    hide RunAll, AllHold;
    OpsSuit(ops, ids, rules);
    WholePass(cfg, Complete(ops), ids, rules, r);
    UniformChange(r, ops, ids, kind);
  }

  lemma NothingSynced(cfg: Config)
    ensures SyncAll(cfg, []) == cfg
  {
  }

  /** The handler removes the rules of the role that ends, and only those. */
  lemma HandlerEffect(cfg: Config, self: string, before: Status, now: Status, ids: seq<string>, rules: seq<EgressRule>,
                      r: Parts)
    requires |ids| == |rules| && NoDup(ids) && AllHold(cfg, ids, rules, r) && Confined(r, ids)
    ensures AllHold(SyncAll(cfg, UpdateOps(self, before, now, ids, rules)), ids, rules,
                    AfterHandler(self, before, now, r))
  {
    hide SyncAll, AllHold;
    var ops := UpdateOps(self, before, now, ids, rules);
    NothingSynced(cfg);
    if before.node != "" && now.node != "" && before.node != now.node {
      HandlerKinds(before.node == self, now.node == self, ids, rules, |rules|);
      if before.node == self || now.node == self {
        var kind := if before.node == self then ClearSnat("", Cidr(0, 0), 0) else StaleRoute("", Cidr(0, 0));
        UniformPass(cfg, ops, ids, rules, r, kind);
        assert Uniform(r, kind, Elems(ids)) == AfterHandler(self, before, now, r);
      }
    }
  }

  /** A worker pass gives every rule the rules of the role its status names. */
  lemma PassEffect(cfg: Config, self: string, status: Status, ids: seq<string>, rules: seq<EgressRule>,
                   ips: seq<seq<Ip>>, r: Parts)
    requires |ids| == |rules| == |ips| && NoDup(ids) && AllHold(cfg, ids, rules, r) && Confined(r, ids)
    ensures AllHold(SyncAll(cfg, PassOps(self, status, ids, rules, ips)), ids, rules, AfterPass(self, status, ids, r))
  {
    hide SyncAll, AllHold;
    NothingSynced(cfg);
    if status.node != "" && (status.node == self || status.ip != "") {
      var kind := if status.node == self then AddSnat("", [], Cidr(0, 0), 0) else AddRoute("", [], Cidr(0, 0));
      UniformPass(cfg, PassOps(self, status, ids, rules, ips), ids, rules, r, kind);
      assert Uniform(r, kind, Elems(ids)) == AfterPass(self, status, ids, r);
    }
  }

  function AfterEvent(s: Sys, e: Event, self: string, ids: seq<string>, r: Parts): Parts
    requires s.delivered < |s.hist| && s.listed < |s.hist| && (e.Deliver? ==> s.delivered < s.listed)
  {
    match e
    case Deliver => AfterHandler(self, s.hist[s.delivered], s.hist[s.delivered + 1], r)
    case Work(_) => AfterPass(self, s.hist[s.listed], ids, r)
    case _ => r
  }

  lemma EventEffect(s: Sys, e: Event, self: string, ids: seq<string>, rules: seq<EgressRule>, r: Parts)
    requires |ids| == |rules| && NoDup(ids) && Possible(s, e, ids)
    requires AllHold(s.cfg, ids, rules, r) && Confined(r, ids)
    ensures AllHold(Next(s, e, self, ids, rules).cfg, ids, rules, AfterEvent(s, e, self, ids, r))
    ensures Confined(AfterEvent(s, e, self, ids, r), ids)
  {
    hide SyncAll, After, AllHold, UpdateOps, PassOps;
    match e
    case Reassign(_) =>
    case List =>
    case Deliver => HandlerEffect(s.cfg, self, s.hist[s.delivered], s.hist[s.delivered + 1], ids, rules, r);
    case Work(ips) => PassEffect(s.cfg, self, s.hist[s.listed], ids, rules, ips, r);
    case Elsewhere(att) => ElsewhereStep(s.cfg, att, ids, rules, r);
  }

  lemma ElsewhereStep(cfg: Config, att: Attempt, ids: seq<string>, rules: seq<EgressRule>, r: Parts)
    requires |ids| == |rules| && AllHold(cfg, ids, rules, r) && att.op.name !in ids
    ensures AllHold(After(cfg, att.op, att.k), ids, rules, r)
  {
    FrameChains(cfg, att.op, att.k);
    forall i | 0 <= i < |ids| ensures Holds(After(cfg, att.op, att.k), ids[i], rules[i], FlagsOf(r, ids[i])) {
      OtherOperation(cfg, att.op, att.k, ids[i], rules[i], FlagsOf(r, ids[i]));
    }
  }

  // ---- Every run ----

  /** The parts after the first `n` events. */
  ghost function PartsAt(states: seq<Sys>, events: seq<Event>, self: string, ids: seq<string>, rules: seq<EgressRule>,
                         found: Parts, n: nat): Parts
    requires |ids| == |rules| && Run(states, events, self, ids, rules) && n <= |events|
  {
    if n == 0 then found
    else AfterEvent(states[n - 1], events[n - 1], self, ids, PartsAt(states, events, self, ids, rules, found, n - 1))
  }

  /** In every reachable state the node holds exactly the rules that the events so far, one after the other,
      make of those it was found with. */
  lemma {:induction false} RunParts(states: seq<Sys>, events: seq<Event>, self: string, ids: seq<string>,
                                    rules: seq<EgressRule>, found: Parts, n: nat)
    requires |ids| == |rules| && NoDup(ids) && Run(states, events, self, ids, rules) && n <= |events|
    requires Start(states[0], ids, rules, found)
    ensures AllHold(states[n].cfg, ids, rules, PartsAt(states, events, self, ids, rules, found, n))
    ensures Confined(PartsAt(states, events, self, ids, rules, found, n), ids)
    decreases n
  {
    hide AllHold, Next;
    if n > 0 {
      RunParts(states, events, self, ids, rules, found, n - 1);
      EventEffect(states[n - 1], events[n - 1], self, ids, rules,
                  PartsAt(states, events, self, ids, rules, found, n - 1));
    }
  }

  /** One event of a run. */
  lemma EventAt(states: seq<Sys>, events: seq<Event>, self: string, ids: seq<string>, rules: seq<EgressRule>, i: nat)
    requires |ids| == |rules| && Run(states, events, self, ids, rules) && i < |events|
    ensures |states| == |events| + 1 && Possible(states[i], events[i], ids)
    ensures states[i + 1] == Next(states[i], events[i], self, ids, rules)
  {
  }

  /** Later states have seen no less of a longer history. */
  lemma {:induction false} HistoryGrows(states: seq<Sys>, events: seq<Event>, self: string, ids: seq<string>,
                                        rules: seq<EgressRule>, i: nat, n: nat)
    requires |ids| == |rules| && Run(states, events, self, ids, rules) && i <= n <= |events|
    ensures states[i].hist <= states[n].hist
    ensures states[i].delivered <= states[n].delivered && states[i].listed <= states[n].listed
    decreases n
  {
    hide SyncAll, After, UpdateOps, PassOps;
    if i < n {
      HistoryGrows(states, events, self, ids, rules, i, n - 1);
    }
  }

  // ---- What the history says about the parts ----

  datatype Kind = MarkKind | BypassKind | SnatKind | ForwardKind

  function Part(r: Parts, kind: Kind): set<string> {
    match kind
    case MarkKind => r.mark
    case BypassKind => r.bypass
    case SnatKind => r.snat
    case ForwardKind => r.forward
  }

  predicate GatewayAt(st: Status, self: string) {
    st.node == self
  }

  predicate DirectorAt(st: Status, self: string) {
    st.node != "" && st.node != self
  }

  /** The status gives the node the role to which the rules of this kind belong. */
  predicate RoleAt(kind: Kind, st: Status, self: string) {
    if kind.SnatKind? || kind.ForwardKind? then GatewayAt(st, self) else DirectorAt(st, self)
  }

  /** The last status of the role. */
  predicate LastOf(kind: Kind, hist: seq<Status>, self: string, k: nat) {
    k < |hist| && RoleAt(kind, hist[k], self) && forall j | k < j < |hist| :: !RoleAt(kind, hist[j], self)
  }

  /** One event while statuses of the role are all delivered, up to `k`, or not: the rules of a role change
      only by a pass in that role and by the delivery of the pair that ends it. */
  lemma PartStep(s: Sys, e: Event, self: string, ids: seq<string>, r: Parts, kind: Kind)
    requires self != "" && Possible(s, e, ids)
    ensures e.Work? && RoleAt(kind, s.hist[s.listed], self) ==>
              Part(AfterEvent(s, e, self, ids, r), kind) in {Part(r, kind), Elems(ids)}
    ensures e.Deliver? && RoleAt(kind, s.hist[s.delivered], self) && s.hist[s.delivered + 1].node != ""
            && !RoleAt(kind, s.hist[s.delivered + 1], self) && !kind.ForwardKind? ==>
              Part(AfterEvent(s, e, self, ids, r), kind) == {}
    ensures (e.Work? ==> !RoleAt(kind, s.hist[s.listed], self))
            && (e.Deliver? ==> !RoleAt(kind, s.hist[s.delivered], self) || s.hist[s.delivered + 1].node == "") ==>
              Part(AfterEvent(s, e, self, ids, r), kind) == Part(r, kind)
    ensures (e.Deliver? ==> !RoleAt(kind, s.hist[s.delivered], self) || s.hist[s.delivered + 1].node == "")
            && Confined(r, ids) ==>
              Part(r, kind) <= Part(AfterEvent(s, e, self, ids, r), kind)
  {
  }

  /** As long as no status gives the node a role, its rules are those it was found with. */
  lemma {:induction false} NeverInRole(states: seq<Sys>, events: seq<Event>, self: string, ids: seq<string>,
                                       rules: seq<EgressRule>, found: Parts, n: nat, kind: Kind)
    requires self != "" && |ids| == |rules| && Run(states, events, self, ids, rules) && n <= |events|
    requires forall j | 0 <= j < |states[n].hist| :: !RoleAt(kind, states[n].hist[j], self)
    ensures Part(PartsAt(states, events, self, ids, rules, found, n), kind) == Part(found, kind)
    decreases n
  {
    hide Next, AfterEvent, Part, RoleAt;
    if n > 0 {
      HistoryGrows(states, events, self, ids, rules, n - 1, n);
      NeverInRole(states, events, self, ids, rules, found, n - 1, kind);
      PartStep(states[n - 1], events[n - 1], self, ids, PartsAt(states, events, self, ids, rules, found, n - 1), kind);
    }
  }

  /** Once the last status of a role is delivered together with another assignment, its rules are gone. */
  lemma {:induction false} LeftRole(states: seq<Sys>, events: seq<Event>, self: string, ids: seq<string>,
                                    rules: seq<EgressRule>, found: Parts, hist: seq<Status>, k: nat, n: nat, kind: Kind)
    requires self != "" && |ids| == |rules| && Run(states, events, self, ids, rules) && n <= |events|
    requires !kind.ForwardKind? && LastOf(kind, hist, self, k) && k + 1 < |hist| && hist[k + 1].node != ""
    requires states[n].hist <= hist && states[0].delivered == 0 && states[n].delivered > k
    ensures Part(PartsAt(states, events, self, ids, rules, found, n), kind) == {}
    decreases n
  {
    hide SyncAll, After, UpdateOps, PassOps, AfterEvent, Part, RoleAt;
    var s := states[n - 1];
    HistoryGrows(states, events, self, ids, rules, n - 1, n);
    var r := PartsAt(states, events, self, ids, rules, found, n - 1);
    PartStep(s, events[n - 1], self, ids, r, kind);
    if s.delivered > k {
      LeftRole(states, events, self, ids, rules, found, hist, k, n - 1, kind);
    }
  }

  /** If it is delivered together with no assignment, the rules of the role that are there then stay. */
  lemma {:induction false} KeptRole(states: seq<Sys>, events: seq<Event>, self: string, ids: seq<string>,
                                    rules: seq<EgressRule>, found: Parts, hist: seq<Status>, k: nat, i: nat, n: nat,
                                    kind: Kind)
    requires self != "" && |ids| == |rules| && NoDup(ids) && Run(states, events, self, ids, rules) && i <= n <= |events|
    requires Start(states[0], ids, rules, found)
    requires LastOf(kind, hist, self, k) && (k + 1 < |hist| ==> hist[k + 1].node == "")
    requires states[n].hist <= hist && states[i].delivered >= k
    ensures Part(PartsAt(states, events, self, ids, rules, found, i), kind)
         <= Part(PartsAt(states, events, self, ids, rules, found, n), kind)
    decreases n
  {
    hide Next, AfterEvent, Part, RoleAt, AllHold, Confined;
    if i < n {
      HistoryGrows(states, events, self, ids, rules, n - 1, n);
      HistoryGrows(states, events, self, ids, rules, i, n - 1);
      KeptRole(states, events, self, ids, rules, found, hist, k, i, n - 1, kind);
      RunParts(states, events, self, ids, rules, found, n - 1);
      PartStep(states[n - 1], events[n - 1], self, ids, PartsAt(states, events, self, ids, rules, found, n - 1), kind);
    }
  }

  // ---- Convergence ----

  /** The last status of either role, unless it is the last of all, is followed by another assignment. */
  ghost predicate NoGap(hist: seq<Status>, self: string) {
    forall k: nat | LastOf(SnatKind, hist, self, k) || LastOf(MarkKind, hist, self, k) ::
      k + 1 < |hist| ==> hist[k + 1].node != ""
  }

  /** No status gives the node the role. */
  ghost predicate Never(kind: Kind, hist: seq<Status>, self: string) {
    forall j | 0 <= j < |hist| :: !RoleAt(kind, hist[j], self)
  }

  /** A pass has worked on a status that makes the node the gateway. */
  ghost predicate Worked(states: seq<Sys>, events: seq<Event>, self: string, ids: seq<string>, rules: seq<EgressRule>,
                         n: nat)
    requires |ids| == |rules| && Run(states, events, self, ids, rules) && n <= |events|
  {
    exists i | 0 <= i < n :: events[i].Work? && GatewayAt(states[i].hist[states[i].listed], self)
  }

  lemma LastIndex(kind: Kind, hist: seq<Status>, self: string) returns (k: nat)
    requires !Never(kind, hist, self)
    ensures LastOf(kind, hist, self, k)
    decreases |hist|
  {
    k := |hist| - 1;
    if !RoleAt(kind, hist[k], self) {
      var shorter := hist[..k];
      k := LastIndex(kind, shorter, self);
    }
  }

  /** A forward rule without its SNAT rule stays until a pass completes it. */
  lemma {:induction false} ForwardParts(states: seq<Sys>, events: seq<Event>, self: string, ids: seq<string>,
                                        rules: seq<EgressRule>, found: Parts, n: nat)
    requires self != "" && |ids| == |rules| && Run(states, events, self, ids, rules) && n <= |events|
    ensures var r := PartsAt(states, events, self, ids, rules, found, n);
            if Worked(states, events, self, ids, rules, n) then r.forward == r.snat
            else (r.snat, r.forward) in {(found.snat, found.forward), ({}, found.forward - found.snat)}
    decreases n
  {
    hide Next;
    if n > 0 {
      ForwardParts(states, events, self, ids, rules, found, n - 1);
      var s, e := states[n - 1], events[n - 1];
      var r := PartsAt(states, events, self, ids, rules, found, n - 1);
      assert r.forward - {} == r.forward && r.forward - r.forward == {};
      assert Worked(states, events, self, ids, rules, n)
        <==> Worked(states, events, self, ids, rules, n - 1) || (e.Work? && GatewayAt(s.hist[s.listed], self));
    }
  }

  /** What the last pass leaves: all rules of the role; and of the other role those the controller found when
      it started, if the store has never had a status of that role since, and none otherwise. A forward rule
      found without its SNAT rule cannot be cleared, unless a pass completed it before. */
  ghost function Settled(states: seq<Sys>, events: seq<Event>, self: string, ids: seq<string>, rules: seq<EgressRule>,
                         found: Parts): Parts
    requires |ids| == |rules| && Run(states, events, self, ids, rules) && states[|events|].hist != []
  {
    var hist := states[|events|].hist;
    if hist[|hist| - 1].node == self then
      Parts(if Never(MarkKind, hist, self) then found.mark else {},
            if Never(MarkKind, hist, self) then found.bypass else {}, Elems(ids), Elems(ids))
    else
      Parts(Elems(ids), Elems(ids), if Never(SnatKind, hist, self) then found.snat else {},
            if Never(SnatKind, hist, self) then found.forward
            else if Worked(states, events, self, ids, rules, |events|) then {}
            else found.forward - found.snat)
  }

  /** The rules of a role the node does not have at the end. */
  lemma OtherRole(states: seq<Sys>, events: seq<Event>, self: string, ids: seq<string>, rules: seq<EgressRule>,
                  found: Parts, hist: seq<Status>, kind: Kind)
    requires self != "" && |ids| == |rules| && Run(states, events, self, ids, rules) && states[0].delivered == 0
    requires hist == states[|events|].hist && hist != [] && states[|events|].delivered == |hist| - 1
    requires NoGap(hist, self) && !RoleAt(kind, hist[|hist| - 1], self)
    ensures var r := PartsAt(states, events, self, ids, rules, found, |events|);
            && (Never(kind, hist, self) ==> Part(r, kind) == Part(found, kind))
            && (!Never(kind, hist, self) && !kind.ForwardKind? ==> Part(r, kind) == {})
  {
    if Never(kind, hist, self) {
      hide PartsAt, Next, Part;
      NeverInRole(states, events, self, ids, rules, found, |events|, kind);
    } else if !kind.ForwardKind? {
      var k := LastIndex(kind, hist, self);
      FollowedBy(kind, hist, self, k);
      assert k < |hist| - 1;
      hide PartsAt, Next, Part, NoGap, Never, RoleAt, LastOf;
      LeftRole(states, events, self, ids, rules, found, hist, k, |events|, kind);
    }
  }

  lemma FollowedBy(kind: Kind, hist: seq<Status>, self: string, k: nat)
    requires NoGap(hist, self) && LastOf(kind, hist, self, k) && k + 1 < |hist|
    ensures hist[k + 1].node != ""
  {
    assert LastOf(SnatKind, hist, self, k) || LastOf(MarkKind, hist, self, k);
  }

  /** After any run of reassignments, store updates, handler deliveries, worker passes and work for other
      resources, in any order the informer allows: if the last status of each role was followed by another
      assignment, then once every status is delivered one more worker pass leaves for every rule id all rules
      of the node's role and its own source set, and the rules of the other role that `Settled` tells. */
  lemma RoleConvergence(states: seq<Sys>, events: seq<Event>, self: string, ids: seq<string>, rules: seq<EgressRule>,
                        found: Parts, ips: seq<seq<Ip>>)
    requires self != "" && |ids| == |rules| == |ips| && NoDup(ids) && Run(states, events, self, ids, rules)
    requires Start(states[0], ids, rules, found)
    requires var s := states[|events|];
             && s.hist != [] && s.delivered == s.listed == |s.hist| - 1 && NoGap(s.hist, self)
             && s.hist[s.listed].node != "" && (s.hist[s.listed].node == self || s.hist[s.listed].ip != "")
    ensures var s := states[|events|];
            && Possible(s, Work(ips), ids)
            && var cfg := Next(s, Work(ips), self, ids, rules).cfg;
               && AllHold(cfg, ids, rules, Settled(states, events, self, ids, rules, found))
               && forall i | 0 <= i < |ids| :: ids[i] in cfg.sets && cfg.sets[ids[i]] == Elems(ips[i])
  {
    hide AllHold, SyncAll, PassOps, PartsAt;
    var s := states[|events|];
    var r := PartsAt(states, events, self, ids, rules, found, |events|);
    RunParts(states, events, self, ids, rules, found, |events|);
    PassEffect(s.cfg, self, s.hist[s.listed], ids, rules, ips, r);
    LastSets(s.cfg, self, s.hist[s.listed], ids, rules, ips, r);
    SettledParts(states, events, self, ids, rules, found, s.hist);
  }

  lemma SettledParts(states: seq<Sys>, events: seq<Event>, self: string, ids: seq<string>, rules: seq<EgressRule>,
                     found: Parts, hist: seq<Status>)
    requires self != "" && |ids| == |rules| && Run(states, events, self, ids, rules) && states[0].delivered == 0
    requires hist == states[|events|].hist && hist != [] && states[|events|].delivered == |hist| - 1
    requires NoGap(hist, self)
    requires var last := hist[|hist| - 1]; last.node != "" && (last.node == self || last.ip != "")
    ensures AfterPass(self, hist[|hist| - 1], ids, PartsAt(states, events, self, ids, rules, found, |events|))
         == Settled(states, events, self, ids, rules, found)
  {
    hide Run, NoGap, Worked, PartsAt, Never;
    if hist[|hist| - 1].node == self {
      SettledGateway(states, events, self, ids, rules, found, hist);
    } else {
      SettledDirector(states, events, self, ids, rules, found, hist);
    }
  }

  lemma SettledGateway(states: seq<Sys>, events: seq<Event>, self: string, ids: seq<string>, rules: seq<EgressRule>,
                       found: Parts, hist: seq<Status>)
    requires self != "" && |ids| == |rules| && Run(states, events, self, ids, rules) && states[0].delivered == 0
    requires hist == states[|events|].hist && hist != [] && states[|events|].delivered == |hist| - 1
    requires NoGap(hist, self)
    requires hist[|hist| - 1].node == self
    ensures var r := PartsAt(states, events, self, ids, rules, found, |events|);
            && r.mark == (if Never(MarkKind, hist, self) then found.mark else {})
            && r.bypass == (if Never(MarkKind, hist, self) then found.bypass else {})
  {
    hide Run, NoGap, PartsAt, Never, RoleAt, LastOf;
    SameNever(hist, self);
    NotIn(MarkKind, hist[|hist| - 1], self);
    OtherRole(states, events, self, ids, rules, found, hist, MarkKind);
    OtherRole(states, events, self, ids, rules, found, hist, BypassKind);
  }

  lemma SettledDirector(states: seq<Sys>, events: seq<Event>, self: string, ids: seq<string>, rules: seq<EgressRule>,
                        found: Parts, hist: seq<Status>)
    requires self != "" && |ids| == |rules| && Run(states, events, self, ids, rules) && states[0].delivered == 0
    requires hist == states[|events|].hist && hist != [] && states[|events|].delivered == |hist| - 1
    requires NoGap(hist, self)
    requires hist[|hist| - 1].node != self
    ensures var r := PartsAt(states, events, self, ids, rules, found, |events|);
            && r.snat == (if Never(SnatKind, hist, self) then found.snat else {})
            && r.forward == (if Never(SnatKind, hist, self) then found.forward
                             else if Worked(states, events, self, ids, rules, |events|) then {}
                             else found.forward - found.snat)
  {
    hide Run, NoGap, PartsAt, Never, RoleAt, LastOf, Worked;
    SameNever(hist, self);
    NotIn(SnatKind, hist[|hist| - 1], self);
    OtherRole(states, events, self, ids, rules, found, hist, SnatKind);
    OtherRole(states, events, self, ids, rules, found, hist, ForwardKind);
    ForwardParts(states, events, self, ids, rules, found, |events|);
  }

  lemma SameNever(hist: seq<Status>, self: string)
    ensures Never(BypassKind, hist, self) <==> Never(MarkKind, hist, self)
    ensures Never(ForwardKind, hist, self) <==> Never(SnatKind, hist, self)
  {
  }

  lemma NotIn(kind: Kind, status: Status, self: string)
    requires self != "" && (status.node == self <==> kind.MarkKind? || kind.BypassKind?)
    ensures kind.MarkKind? || kind.BypassKind? ==> !RoleAt(MarkKind, status, self) && !RoleAt(BypassKind, status, self)
    ensures kind.SnatKind? || kind.ForwardKind? ==>
              !RoleAt(SnatKind, status, self) && !RoleAt(ForwardKind, status, self)
  {
  }

  lemma LastSets(cfg: Config, self: string, status: Status, ids: seq<string>, rules: seq<EgressRule>,
                 ips: seq<seq<Ip>>, r: Parts)
    requires |ids| == |rules| == |ips| && NoDup(ids) && AllHold(cfg, ids, rules, r)
    requires status.node != "" && (status.node == self || status.ip != "")
    ensures var now := SyncAll(cfg, PassOps(self, status, ids, rules, ips));
            forall i | 0 <= i < |ids| :: ids[i] in now.sets && now.sets[ids[i]] == Elems(ips[i])
  {
    hide SyncAll;
    var ops := PassOps(self, status, ids, rules, ips);
    forall i | 0 <= i < |ids|
      ensures ids[i] in SyncAll(cfg, ops).sets && SyncAll(cfg, ops).sets[ids[i]] == Elems(ips[i])
    {
      SyncedSets(cfg, ops, ids[i]);
      assert ops[i].name == ids[i];
    }
  }

  /** A node that lost the gateway's part while its controller was down keeps the gateway's rules next
      to the director's: a started controller is told of no change, and nothing else removes them. */
  lemma RestartKeepsBoth(s: Sys, self: string, ids: seq<string>, rules: seq<EgressRule>, ips: seq<seq<Ip>>)
    requires self != "" && |ids| == |rules| == |ips| && NoDup(ids)
    requires Start(s, ids, rules, Parts({}, {}, Elems(ids), Elems(ids)))
    requires s.hist[0].node != "" && s.hist[0].node != self && s.hist[0].ip != ""
    ensures Possible(s, Work(ips), ids)
    ensures AllHold(Next(s, Work(ips), self, ids, rules).cfg, ids, rules, Everything(ids))
  {
    PassEffect(s.cfg, self, s.hist[0], ids, rules, ips, Parts({}, {}, Elems(ids), Elems(ids)));
  }

  function Everything(ids: seq<string>): Parts {
    Parts(Elems(ids), Elems(ids), Elems(ids), Elems(ids))
  }

  // ---- Why the last status of a role must be followed by another assignment ----

  /** A run up to its last state. */
  ghost predicate RunTo(states: seq<Sys>, events: seq<Event>, self: string, ids: seq<string>, rules: seq<EgressRule>,
                        last: Sys)
    requires |ids| == |rules|
  {
    Run(states, events, self, ids, rules) && states[|events|] == last
  }

  lemma OneMoreEvent(states: seq<Sys>, events: seq<Event>, self: string, ids: seq<string>, rules: seq<EgressRule>,
                     last: Sys, e: Event)
    requires |ids| == |rules| && RunTo(states, events, self, ids, rules, last) && Possible(last, e, ids)
    ensures var next := Next(last, e, self, ids, rules);
            RunTo(states + [next], events + [e], self, ids, rules, next)
  {
    hide Next, Possible;
  }

  /** The next statuses of a history, each stored and delivered at once. */
  lemma {:induction false} Follow(states: seq<Sys>, events: seq<Event>, self: string, ids: seq<string>,
                                  rules: seq<EgressRule>, last: Sys, hist: seq<Status>, m: nat)
    returns (st: seq<Sys>, ev: seq<Event>)
    requires |ids| == |rules| && RunTo(states, events, self, ids, rules, last)
    requires last.delivered == last.listed <= m < |hist| && last.hist == hist[..last.listed + 1]
    ensures Run(st, ev, self, ids, rules) && states <= st && events <= ev
    ensures var s := st[|ev|]; s.delivered == s.listed == m && s.hist == hist[..m + 1]
    decreases m - last.listed
  {
    hide SyncAll, UpdateOps, Run;
    st, ev := states, events;
    if last.listed < m {
      var j := last.listed + 1;
      var s1 := Next(last, Reassign(hist[j]), self, ids, rules);
      OneMoreEvent(st, ev, self, ids, rules, last, Reassign(hist[j]));
      st, ev := st + [s1], ev + [Reassign(hist[j])];
      var s2 := Next(s1, List, self, ids, rules);
      OneMoreEvent(st, ev, self, ids, rules, s1, List);
      st, ev := st + [s2], ev + [List];
      var s3 := Next(s2, Deliver, self, ids, rules);
      OneMoreEvent(st, ev, self, ids, rules, s2, Deliver);
      st, ev := st + [s3], ev + [Deliver];
      assert s3.hist == hist[..j + 1];
      var st', ev' := Follow(st, ev, self, ids, rules, s3, hist, m);
      return st', ev';
    }
  }

  /** The condition is needed: along any history with such a gap there is a run in which all rules of the role
      stay for good, whatever the node was found with. */
  lemma GapKeepsRole(s: Sys, self: string, ids: seq<string>, rules: seq<EgressRule>, found: Parts, ips: seq<seq<Ip>>,
                     hist: seq<Status>, k: nat, kind: Kind)
    returns (states: seq<Sys>, events: seq<Event>)
    requires self != "" && |ids| == |rules| == |ips| && NoDup(ids) && Start(s, ids, rules, found)
    requires LastOf(kind, hist, self, k) && k + 1 < |hist| && hist[k + 1].node == "" && s.hist == hist[..1]
    requires hist[k].node == self || hist[k].ip != ""
    ensures Run(states, events, self, ids, rules) && states[0] == s
    ensures var t := states[|events|]; t.hist == hist && t.delivered == t.listed == |hist| - 1
    ensures forall other | RoleAt(other, hist[k], self) ::
              Part(PartsAt(states, events, self, ids, rules, found, |events|), other) == Elems(ids)
  {
    var i: nat;
    states, events, i := Drive(s, self, ids, rules, ips, hist, k);
    hide Next, PartsAt, AllHold, Part;
    PutAndKept(states, events, self, ids, rules, found, hist, k, i, kind);
  }

  /** A run along a history, with one pass of its own, on status `k`. */
  lemma Drive(s: Sys, self: string, ids: seq<string>, rules: seq<EgressRule>, ips: seq<seq<Ip>>, hist: seq<Status>,
              k: nat)
    returns (states: seq<Sys>, events: seq<Event>, i: nat)
    requires |ids| == |rules| == |ips| && k < |hist|
    requires s.delivered == s.listed == 0 && s.hist == hist[..1]
    ensures Run(states, events, self, ids, rules) && states[0] == s
    ensures var t := states[|events|]; t.hist == hist && t.delivered == t.listed == |hist| - 1
    ensures i < |events| && events[i].Work? && states[i].delivered == states[i].listed == k
  {
    hide Next;
    states, events := Follow([s], [], self, ids, rules, s, hist, k);
    i := |events|;
    var mid := states[i];
    var next := Next(mid, Work(ips), self, ids, rules);
    KeepsSeen(mid, Work(ips), self, ids, rules);
    OneMoreEvent(states, events, self, ids, rules, mid, Work(ips));
    var st, ev := states + [next], events + [Work(ips)];
    assert st[i] == mid && ev[i] == Work(ips);
    states, events := Follow(st, ev, self, ids, rules, next, hist, |hist| - 1);
    assert hist[..|hist|] == hist;
    assert states[i] == st[i] && events[i] == ev[i];
  }

  /** A pass on the last status of the role, with nothing left to deliver, puts its rules in place for good. */
  lemma PutAndKept(states: seq<Sys>, events: seq<Event>, self: string, ids: seq<string>, rules: seq<EgressRule>,
                   found: Parts, hist: seq<Status>, k: nat, i: nat, kind: Kind)
    requires self != "" && |ids| == |rules| && NoDup(ids) && Run(states, events, self, ids, rules) && i < |events|
    requires Start(states[0], ids, rules, found) && states[|events|].hist <= hist
    requires LastOf(kind, hist, self, k) && (k + 1 < |hist| ==> hist[k + 1].node == "")
    requires hist[k].node == self || hist[k].ip != ""
    requires events[i].Work? && states[i].delivered == states[i].listed == k
    ensures forall other | RoleAt(other, hist[k], self) ::
              Part(PartsAt(states, events, self, ids, rules, found, |events|), other) == Elems(ids)
  {
    hide PartsAt, AllHold, SyncAll, PassOps;
    HistoryGrows(states, events, self, ids, rules, i, |events|);
    HistoryGrows(states, events, self, ids, rules, i, i + 1);
    RunParts(states, events, self, ids, rules, found, |events|);
    var end := PartsAt(states, events, self, ids, rules, found, |events|);
    forall other | RoleAt(other, hist[k], self) ensures Part(end, other) == Elems(ids) {
      SameLast(kind, other, hist, self, k);
      PutInPlace(states, events, self, ids, rules, found, i, other);
      KeptRole(states, events, self, ids, rules, found, hist, k, i + 1, |events|, other);
      PartConfined(end, ids, other);
    }
  }

  lemma PartConfined(r: Parts, ids: seq<string>, kind: Kind)
    requires Confined(r, ids)
    ensures Part(r, kind) <= Elems(ids)
  {
  }

  lemma KeepsSeen(s: Sys, e: Event, self: string, ids: seq<string>, rules: seq<EgressRule>)
    requires |ids| == |rules| && Possible(s, e, ids) && e.Work?
    ensures var t := Next(s, e, self, ids, rules);
            t.hist == s.hist && t.delivered == s.delivered && t.listed == s.listed
  {
  }

  lemma SameLast(kind: Kind, other: Kind, hist: seq<Status>, self: string, k: nat)
    requires self != "" && LastOf(kind, hist, self, k) && RoleAt(other, hist[k], self)
    ensures LastOf(other, hist, self, k)
  {
  }

  lemma PutInPlace(states: seq<Sys>, events: seq<Event>, self: string, ids: seq<string>, rules: seq<EgressRule>,
                   found: Parts, i: nat, kind: Kind)
    requires self != "" && |ids| == |rules| && Run(states, events, self, ids, rules) && i < |events| && events[i].Work?
    requires var status := states[i].hist[states[i].listed];
             RoleAt(kind, status, self) && (status.node == self || status.ip != "")
    ensures Part(PartsAt(states, events, self, ids, rules, found, i + 1), kind) == Elems(ids)
  {
    hide Next;
  }

  /** So a gateway that is told of no gateway, and then of another one, can end with the rules of both roles. */
  lemma UnassignedInBetween(s: Sys, self: string, last: Status, ids: seq<string>, rules: seq<EgressRule>, found: Parts,
                            ips: seq<seq<Ip>>)
    returns (states: seq<Sys>, events: seq<Event>)
    requires self != "" && |ids| == |rules| == |ips| && NoDup(ids) && Start(s, ids, rules, found)
    requires s.hist[0].node == self && last.node != "" && last.node != self && last.ip != ""
    ensures Run(states, events, self, ids, rules) && states[0] == s
    ensures var t := states[|events|];
            && t.hist == [s.hist[0], Status("", ""), last] && t.delivered == t.listed == 2
            && Possible(t, Work(ips), ids)
            && AllHold(Next(t, Work(ips), self, ids, rules).cfg, ids, rules, Everything(ids))
  {
    hide AllHold, SyncAll, PartsAt, PassOps;
    var hist := [s.hist[0], Status("", ""), last];
    assert LastOf(SnatKind, hist, self, 0) && hist[..1] == s.hist;
    states, events := GapKeepsRole(s, self, ids, rules, found, ips, hist, 0, SnatKind);
    assert RoleAt(SnatKind, hist[0], self) && RoleAt(ForwardKind, hist[0], self);
    RunParts(states, events, self, ids, rules, found, |events|);
    PassEffect(states[|events|].cfg, self, last, ids, rules, ips,
        PartsAt(states, events, self, ids, rules, found, |events|));
  }
}
