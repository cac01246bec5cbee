/** The gateway manager: every few seconds it keeps or replaces the gateway of every resource. */
module Managers {
  import opened Base
  import opened Resources
  import opened NodeAddresses
  import opened Controllers
  import opened Net
  import R = Roles

  datatype Truth = True | False | Unknown

  datatype ConditionType = NodeReady | OtherCondition(name: string)

  datatype Condition = Condition(kind: ConditionType, status: Truth)

  datatype Node = Node(uid: string, labels: set<string>, conditions: seq<Condition>, addresses: seq<NodeAddress>)

  const MASTER: string := "node-role.kubernetes.io/master"

  /** A node without a readiness condition counts as ready. */
  predicate IsReady(n: Node) {
    forall c | c in n.conditions :: c.kind == NodeReady ==> c.status == True
  }

  predicate Eligible(n: Node) {
    MASTER !in n.labels && IsReady(n)
  }

  // ---- Choosing ----

  /** The current gateway is a listed node that is ready; being a master does not matter. */
  predicate Keeps(status: Status, nodes: seq<Node>) {
    status.node != "" && exists n | n in nodes :: n.uid == status.node && IsReady(n)
  }

  /** What the manager assigns: the current gateway, or else the last node of the list, whichever
      node of it is eligible. */
  function Choice(status: Status, nodes: seq<Node>, parse: Parser): Option<Status> {
    if Keeps(status, nodes) then Some(status)
    else if exists n | n in nodes :: Eligible(n) then
      var last := nodes[|nodes| - 1];
      var ip := Preferred(last.addresses, parse);
      if ip.Some? then Some(Status(last.uid, ip.value)) else None
    else None
  }

  /** A variable that can be pointed to. */
  class Cell {
    var node: Node

    constructor (node: Node)
      ensures this.node == node
    {
      this.node := node;
    }
  }

  /** `listing` is the answer of the API server, if there was one. The loop over the nodes has one
      variable for all its rounds, and the list of ready nodes holds its address. */
  method ChooseGatewayNode(status: Status, listing: Option<seq<Node>>, parse: Parser) returns (r: Option<Status>)
    ensures r == if listing.None? then None else Choice(status, listing.value, parse)
  {
    hide Preferred;
    if listing.None? { return None; }
    var nodes := listing.value;
    if status.node != "" {
      for i := 0 to |nodes|
        invariant forall j | 0 <= j < i :: !(nodes[j].uid == status.node && IsReady(nodes[j]))
      {
        if status.node == nodes[i].uid {
          var ready := ReadyEnough(nodes[i]);
          if ready { return Some(status); }
        }
      }
    }
    assert !Keeps(status, nodes);

    var variable := new Cell(Node("", {}, [], []));
    var readyNodes: seq<Cell> := [];
    for i := 0 to |nodes|
      invariant i > 0 ==> variable.node == nodes[i - 1]
      invariant forall c | c in readyNodes :: c == variable
      invariant readyNodes != [] <==> exists j | 0 <= j < i :: Eligible(nodes[j])
    {
      variable.node := nodes[i];
      if MASTER in variable.node.labels { continue; }
      var ready := ReadyAtFirst(variable.node);
      if ready {
        readyNodes := readyNodes + [variable];
      }
    }
    if |readyNodes| > 0 {
      assert readyNodes[0] in readyNodes;
      var ip := GetNodeIP(readyNodes[0].node.addresses, parse);
      if ip.None? { return None; }
      return Some(Status(readyNodes[0].node.uid, ip.value));
    }
    return None;
  }

  /** The readiness test of the current gateway looks at every condition, */
  method ReadyEnough(n: Node) returns (ready: bool)
    ensures ready <==> forall c | c in n.conditions :: !(c.kind == NodeReady && c.status in {False, Unknown})
  {
    ready := true;
    for i := 0 to |n.conditions|
      invariant ready <==> forall c | c in n.conditions[..i] :: c.kind == NodeReady ==> c.status == True
    {
      assert n.conditions[..i + 1] == n.conditions[..i] + [n.conditions[i]];
      if n.conditions[i].kind == NodeReady && n.conditions[i].status != True {
        ready := false;
      }
    }
  }

  /** that of a candidate stops at the first that rules it out. */
  method ReadyAtFirst(n: Node) returns (ready: bool)
    ensures ready <==> forall c | c in n.conditions :: !(c.kind == NodeReady && c.status in {False, Unknown})
  {
    ready := true;
    for i := 0 to |n.conditions|
      invariant ready && forall j | 0 <= j < i :: n.conditions[j].kind == NodeReady ==> n.conditions[j].status == True
    {
      if n.conditions[i].kind == NodeReady && n.conditions[i].status != True {
        assert n.conditions[i] in n.conditions;
        ready := false;
        break;
      }
    }
  }

  // ---- What the shared variable makes of the fallback ----

  ghost predicate DistinctUids(nodes: seq<Node>) {
    forall i, j | 0 <= i < j < |nodes| :: nodes[i].uid != nodes[j].uid
  }

  /** The position of the first eligible node: the one that was meant. */
  function FirstEligible(nodes: seq<Node>): (i: nat)
    requires exists n | n in nodes :: Eligible(n)
    ensures i < |nodes| && Eligible(nodes[i]) && forall j | 0 <= j < i :: !Eligible(nodes[j])
  {
    if Eligible(nodes[0]) then 0 else
      assert nodes == [nodes[0]] + nodes[1..];
      1 + FirstEligible(nodes[1..])
  }

  /** With distinct UIDs the intended node is assigned exactly when the last of the list is the only
      eligible one; and the node assigned is eligible exactly when the last is. */
  lemma FallbackIsIntended(status: Status, nodes: seq<Node>, parse: Parser)
    requires DistinctUids(nodes) && !Keeps(status, nodes) && (exists n | n in nodes :: Eligible(n))
    requires Preferred(nodes[|nodes| - 1].addresses, parse).Some?
    ensures var last := |nodes| - 1;
            var r := Choice(status, nodes, parse);
            && r.Some?
            && (r.value.node == nodes[FirstEligible(nodes)].uid <==> forall i | 0 <= i < |nodes| ::
                Eligible(nodes[i]) <==> i == last)
            && ((exists n | n in nodes :: n.uid == r.value.node && Eligible(n)) <==> Eligible(nodes[last]))
  {
    hide Eligible, Keeps, DistinctUids, FirstEligible;
    LastIsFirst(nodes);
    OnlyHolder(nodes, |nodes| - 1);
  }

  lemma LastIsFirst(nodes: seq<Node>)
    requires DistinctUids(nodes) && exists n | n in nodes :: Eligible(n)
    ensures nodes[|nodes| - 1].uid == nodes[FirstEligible(nodes)].uid
       <==> forall i | 0 <= i < |nodes| :: Eligible(nodes[i]) <==> i == |nodes| - 1
  {
    hide Eligible;
    var last, first := |nodes| - 1, FirstEligible(nodes);
    assert nodes[last].uid == nodes[first].uid <==> first == last;
  }

  lemma OnlyHolder(nodes: seq<Node>, i: nat)
    requires DistinctUids(nodes) && i < |nodes|
    ensures (exists n | n in nodes :: n.uid == nodes[i].uid && Eligible(n)) <==> Eligible(nodes[i])
  {
    forall n | n in nodes && n.uid == nodes[i].uid ensures n == nodes[i] {
    }
    assert nodes[i] in nodes;
  }

  /** A readiness condition of the node says that it is not, or may not be. */
  ghost predicate Unready(n: Node) {
    exists c | c in n.conditions :: c.kind == NodeReady && (c.status == False || c.status == Unknown)
  }

  lemma ReadyOrNot(n: Node)
    ensures IsReady(n) <==> !Unready(n)
  {
  }

  /** All there is to a choice: the current gateway if it is listed and not unready; otherwise the last node
      of the list by its address, provided it has one and some node of the list carries no master label and is
      not unready. */
  lemma ChoiceExplained(status: Status, nodes: seq<Node>, parse: Parser)
    ensures
      var kept := status.node != "" && exists n | n in nodes :: n.uid == status.node && !Unready(n);
      var candidate := exists n | n in nodes :: "node-role.kubernetes.io/master" !in n.labels && !Unready(n);
      var choice := Choice(status, nodes, parse);
      if kept then choice == Some(status)
      else if nodes == [] || Preferred(nodes[|nodes| - 1].addresses, parse).None? then choice.None?
      else
        var last := nodes[|nodes| - 1];
        && (choice.Some? <==> candidate)
        && (candidate ==> choice == Some(Status(last.uid, Preferred(last.addresses, parse).value)))
  {
    hide IsReady, Unready, Preferred;
    forall n | n in nodes ensures IsReady(n) <==> !Unready(n) {
      ReadyOrNot(n);
    }
  }

  /** A list without an address for its last node leaves the resource without a new gateway, however
      many of the others would do. */
  lemma FallbackFails(status: Status, nodes: seq<Node>, parse: Parser)
    requires status.node == "" || forall n | n in nodes :: n.uid == status.node ==> Unready(n)
    ensures Choice(status, nodes, parse).None?
       <==> (forall n | n in nodes :: "node-role.kubernetes.io/master" in n.labels || Unready(n))
            || forall a | a in nodes[|nodes| - 1].addresses :: a.kind != InternalIP && a.kind != ExternalIP
  {
    hide Unready, Choice;
    ChoiceExplained(status, nodes, parse);
    if nodes != [] {
      PreferenceOrder(nodes[|nodes| - 1].addresses, parse);
    }
  }

  /** One ready worker, one master behind it: the master is assigned, and kept; alone it is refused. */
  lemma MasterAssigned(worker: Node, master: Node, parse: Parser)
    requires "node-role.kubernetes.io/master" !in worker.labels && !Unready(worker) && master.uid != worker.uid
    requires "node-role.kubernetes.io/master" in master.labels && !Unready(master) && master.uid != ""
    requires Preferred(master.addresses, parse).Some?
    ensures var r := Choice(Status("", ""), [worker, master], parse);
            && r == Some(Status(master.uid, Preferred(master.addresses, parse).value))
            && Choice(r.value, [worker, master], parse) == r
            && Choice(Status("", ""), [master], parse).None?
  {
    hide Unready, Choice;
    var nodes := [worker, master];
    assert worker in nodes && master in nodes;
    var ip := Preferred(master.addresses, parse).value;
    ChoiceExplained(Status("", ""), nodes, parse);
    ChoiceExplained(Status(master.uid, ip), nodes, parse);
    ChoiceExplained(Status("", ""), [master], parse);
  }

  // ---- The store and the cached objects ----

  /** One version of a stored resource. */
  datatype Version = Version(rules: seq<EgressRule>, status: Status)

  /** A resource as the API library hands it out; its rules are a slice that others may share. */
  class StaticEgressIP {
    const key: Key
    const version: nat
    var rules: array<EgressRule>
    var status: Status

    constructor (key: Key, version: nat, rules: array<EgressRule>, status: Status)
      ensures this.key == key && this.version == version && this.rules == rules && this.status == status
    {
      this.key, this.version, this.rules, this.status := key, version, rules, status;
    }

    /** A copy that shares nothing with the original. */
    method DeepCopy() returns (copy: StaticEgressIP)
      ensures fresh(copy) && fresh(copy.rules)
      ensures copy.key == key && copy.version == version && copy.status == status && copy.rules[..] == rules[..]
    {
      var a := new EgressRule[rules.Length](i requires 0 <= i < rules.Length reads this, rules => rules[i]);
      copy := new StaticEgressIP(key, version, a, status);
    }
  }

  /** The API server keeps every version of every resource; a resource version is a position. */
  class Store {
    var objects: map<Key, seq<Version>>

    constructor ()
      ensures objects == map[]
    {
      objects := map[];
    }

    /** The object was read from the store, possibly some versions ago. */
    predicate Holds(o: StaticEgressIP)
      reads this, o, o.rules
    {
      o.key in objects && o.version < |objects[o.key]| && objects[o.key][o.version] == Version(o.rules[..], o.status)
    }

    /** Accepted only from the current version; it may fail for other reasons. */
    method Update(o: StaticEgressIP) returns (ok: bool)
      modifies this
      ensures ok ==> o.key in old(objects) && o.version + 1 == |old(objects)[o.key]|
      ensures objects == if ok then old(objects)[o.key := old(objects)[o.key] + [Version(o.rules[..], o.status)]]
          else old(objects)
    {
      ok := *;
      ok := ok && o.key in objects && o.version + 1 == |objects[o.key]|;
      if ok {
        objects := objects[o.key := objects[o.key] + [Version(o.rules[..], o.status)]];
      }
    }
  }

  /** One resource of a tick. The cached object is not touched: the assignment goes into a copy, and
      what is committed is the choice made from the version right before, with that version's rules. */
  method Assign(store: Store, cached: StaticEgressIP, listing: Option<seq<Node>>, parse: Parser)
    returns (committed: bool)
    requires store.Holds(cached)
    modifies store
    ensures store.Holds(cached)
    ensures !committed ==> store.objects == old(store.objects)
    ensures committed ==>
              var h := old(store.objects)[cached.key];
              && listing.Some? && cached.version == |h| - 1
              && Choice(h[|h| - 1].status, listing.value, parse).Some?
              && store.objects == old(store.objects)[cached.key := AfterEvent(h, Tick(cached.version, listing.value),
                  parse)]
              && |store.objects[cached.key]| == |h| + 1
  {
    var choice := ChooseGatewayNode(cached.status, listing, parse);
    if choice.None? { return false; }
    var copy := cached.DeepCopy();
    copy.status := choice.value;
    committed := store.Update(copy);
  }

  ghost predicate DistinctKeys(cached: seq<StaticEgressIP>) {
    forall i, j | 0 <= i < j < |cached| :: cached[i].key != cached[j].key
  }

  /** A tick goes through the cached resources; a failure for one does not keep it from the others.
      Every history goes on by what that resource's own choice commits, or stays. */
  method TickOnce(store: Store, cached: seq<StaticEgressIP>, listings: seq<Option<seq<Node>>>, parse: Parser)
    returns (committed: seq<bool>)
    requires |listings| == |cached| && DistinctKeys(cached) && forall o | o in cached :: store.Holds(o)
    modifies store
    ensures |committed| == |cached|
    ensures forall i | 0 <= i < |cached| ::
              Advanced(old(store.objects), store.objects, cached[i].key, cached[i].version, listings[i], committed[i],
                  parse)
    ensures store.objects.Keys == old(store.objects).Keys
    ensures forall k | k in old(store.objects) && (forall o | o in cached :: o.key != k) ::
        store.objects[k] == old(store.objects)[k]
  {
    committed := [];
    for i := 0 to |cached|
      invariant |committed| == i
      invariant store.objects.Keys == old(store.objects).Keys
      invariant forall j | 0 <= j < i ::
                  Advanced(old(store.objects), store.objects, cached[j].key, cached[j].version, listings[j],
                      committed[j], parse)
      invariant forall k | k in old(store.objects) && (forall j | 0 <= j < i :: cached[j].key != k) ::
          store.objects[k] == old(store.objects)[k]
    {
      assert cached[i] in cached && store.objects[cached[i].key] == old(store.objects)[cached[i].key];
      var ok := Assign(store, cached[i], listings[i], parse);
      committed := committed + [ok];
    }
  }

  /** The history of one resource before and after a tick. */
  ghost predicate Advanced(before: map<Key, seq<Version>>, after: map<Key, seq<Version>>, key: Key, seen: nat,
                           listing: Option<seq<Node>>, committed: bool, parse: Parser)
  {
    && key in before && key in after
    && if committed
       then listing.Some? && |after[key]| == |before[key]| + 1
           && after[key] == AfterEvent(before[key], Tick(seen, listing.value), parse)
       else after[key] == before[key]
  }

  // ---- Runs of one resource ----

  datatype Event =
    | Tick(seen: nat, nodes: seq<Node>)                // a manager, from the version it has seen
    | Edit(seen: nat, version: Version)                // a user, who writes the whole object

  /** The versions after an event: none is added when the update is refused. */
  function AfterEvent(h: seq<Version>, e: Event, parse: Parser): seq<Version> {
    if e.seen + 1 != |h| then h
    else
      match e
      case Tick(v, nodes) =>
        var choice := Choice(h[v].status, nodes, parse);
        if choice.Some? then h + [Version(h[v].rules, choice.value)] else h
      case Edit(_, version) => h + [version]
  }

  /** What an event writes, computed from the version its author has seen. */
  function Written(h: seq<Version>, e: Event, parse: Parser): Option<Version>
    requires e.seen < |h|
  {
    match e
    case Edit(_, version) => Some(version)
    case Tick(v, nodes) =>
      var choice := Choice(h[v].status, nodes, parse);
      if choice.Some? then Some(Version(h[v].rules, choice.value)) else None
  }

  /** Everybody has seen some version, not necessarily the current one. Any event may also be lost on
      its way to the server. */
  ghost predicate Run(states: seq<seq<Version>>, events: seq<Event>, parse: Parser) {
    && |states| == |events| + 1 && |states[0]| > 0
    && forall i | 0 <= i < |events| ::
         && events[i].seen < |states[i]|
         && (states[i + 1] == AfterEvent(states[i], events[i], parse) || states[i + 1] == states[i])
  }

  /** The version was committed by this event. */
  ghost predicate CommittedBy(states: seq<seq<Version>>, events: seq<Event>, i: nat, k: nat)
    requires |states| == |events| + 1
  {
    i < |events| && |states[i]| == k && |states[i + 1]| == k + 1
  }

  /** The rules the users last got stored. */
  function LastRules(states: seq<seq<Version>>, events: seq<Event>, n: nat): seq<EgressRule>
    requires n <= |events| && |states| == |events| + 1 && |states[0]| > 0
  {
    if n == 0 then states[0][|states[0]| - 1].rules
    else if events[n - 1].Edit? && states[n] != states[n - 1] then events[n - 1].version.rules
    else LastRules(states, events, n - 1)
  }

  /** However many managers and users race, every version but the first was computed from the version
      right before it, and the stored rules are the last a user wrote. */
  lemma {:induction false} NoLostUpdates(states: seq<seq<Version>>, events: seq<Event>, parse: Parser, n: nat, k: nat)
    returns (i: nat)
    requires Run(states, events, parse) && n <= |events|
    requires |states[0]| <= k < |states[n]|
    ensures i < n && CommittedBy(states, events, i, k) && states[i] <= states[n]
    ensures events[i].seen == k - 1 && Written(states[n], events[i], parse) == Some(states[n][k])
  {
    i := n - 1;
    if k < |states[n - 1]| {
      i := NoLostUpdates(states, events, parse, n - 1, k);
    }
  }

  lemma {:induction false} StoredRules(states: seq<seq<Version>>, events: seq<Event>, parse: Parser, n: nat)
    requires Run(states, events, parse) && n <= |events|
    ensures states[0] <= states[n]
    ensures states[n][|states[n]| - 1].rules == LastRules(states, events, n)
  {
    if n > 0 {
      hide AfterEvent;
      StoredRules(states, events, parse, n - 1);
      RulesStep(states[n - 1], events[n - 1], parse);
    }
  }

  lemma RulesStep(h: seq<Version>, e: Event, parse: Parser)
    requires e.seen < |h|
    ensures var next := AfterEvent(h, e, parse);
            && h <= next
            && (e.Tick? ==> next[|next| - 1].rules == h[|h| - 1].rules)
            && (e.Edit? && next != h ==> next[|next| - 1].rules == e.version.rules)
  {
  }

  // ---- Stability ----

  /** A second tick over the same nodes finds nothing to change. */
  lemma SecondTick(status: Status, nodes: seq<Node>, parse: Parser)
    ensures var r := Choice(status, nodes, parse);
            r.Some? ==> Choice(r.value, nodes, parse) == r
  {
  }

  /** No user changes the status: what they write has the one they have seen. */
  ghost predicate StatusKept(states: seq<seq<Version>>, events: seq<Event>, parse: Parser)
    requires Run(states, events, parse)
  {
    forall i | 0 <= i < |events| && events[i].Edit? ::
      events[i].version.status == states[i][events[i].seen].status
  }

  /** Once a tick has committed, no run whose ticks find the same nodes changes the assignment again. */
  lemma {:induction false} SameNodesSameGateway(states: seq<seq<Version>>, events: seq<Event>, parse: Parser, i: nat,
                                                n: nat)
    requires Run(states, events, parse) && StatusKept(states, events, parse) && i < n <= |events|
    requires events[i].Tick? && CommittedBy(states, events, i, |states[i]|)
    requires forall j | i < j < |events| && events[j].Tick? :: events[j].nodes == events[i].nodes
    ensures states[i + 1] <= states[n]
    ensures states[n][|states[n]| - 1].status == states[i + 1][|states[i + 1]| - 1].status
    decreases n
  {
    if n > i + 1 {
      SameNodesSameGateway(states, events, parse, i, n - 1);
      var chosen := states[i + 1][|states[i + 1]| - 1].status;
      SecondTick(states[i][|states[i]| - 1].status, events[i].nodes, parse);
      assert Choice(chosen, events[i].nodes, parse) == Some(chosen);
      assert chosen == states[n - 1][|states[n - 1]| - 1].status;
      hide Choice;
      SameChoice(states[n - 1], events[n - 1], parse);
    }
  }

  /** A tick that would choose the same, or an edit that keeps the status, leaves the last status as it is. */
  lemma SameChoice(h: seq<Version>, e: Event, parse: Parser)
    requires e.seen < |h|
    requires e.Tick? ==> Choice(h[|h| - 1].status, e.nodes, parse) == Some(h[|h| - 1].status)
    requires e.Edit? ==> e.version.status == h[e.seen].status
    ensures var next := AfterEvent(h, e, parse); h <= next && next[|next| - 1].status == h[|h| - 1].status
  {
    hide Choice;
  }

  /** As long as every list has the gateway ready, no run changes the assignment. */
  lemma {:induction false} StableGateway(states: seq<seq<Version>>, events: seq<Event>, parse: Parser, n: nat)
    requires Run(states, events, parse) && StatusKept(states, events, parse) && n <= |events|
    requires forall i | 0 <= i < |events| && events[i].Tick? ::
        Keeps(states[0][|states[0]| - 1].status, events[i].nodes)
    ensures states[n] != [] && states[n][|states[n]| - 1].status == states[0][|states[0]| - 1].status
  {
    if n > 0 {
      StableGateway(states, events, parse, n - 1);
    }
  }

  /** A version replaces the assignment of the one before only where a tick found that gateway gone and chose
      another, or a user wrote it. */
  lemma ReplacedOnlyWhenLost(states: seq<seq<Version>>, events: seq<Event>, parse: Parser, n: nat, k: nat)
    returns (i: nat)
    requires Run(states, events, parse) && n <= |events|
    requires |states[0]| <= k < |states[n]| && states[n][k].status != states[n][k - 1].status
    ensures i < n && CommittedBy(states, events, i, k)
    ensures events[i].Edit? ==> events[i].version == states[n][k]
    ensures events[i].Tick? ==>
              && !Keeps(states[n][k - 1].status, events[i].nodes)
              && Choice(states[n][k - 1].status, events[i].nodes, parse) == Some(states[n][k].status)
  {
    i := NoLostUpdates(states, events, parse, n, k);
  }

  function Statuses(h: seq<Version>): (st: seq<Status>)
    ensures |st| == |h| && forall i | 0 <= i < |h| :: st[i] == h[i].status
  {
    seq(|h|, i requires 0 <= i < |h| => h[i].status)
  }

  /** Once the resource has a gateway it always has one. */
  ghost predicate NeverUnassigned(hist: seq<Status>) {
    forall i, j | 0 <= i < j < |hist| && hist[i].node != "" :: hist[j].node != ""
  }

  /** Then no status of a role is followed by none. */
  lemma NoGapWhenAssigned(hist: seq<Status>, self: string)
    requires self != "" && NeverUnassigned(hist)
    ensures R.NoGap(hist, self)
  {
  }

  ghost predicate Assigned(h: seq<Version>) {
    && NeverUnassigned(Statuses(h))
    && forall i | 0 <= i < |h| && h[i].status.node != "" :: h[i].status.ip != ""
  }

  lemma AssignedStep(h: seq<Version>, e: Event, parse: Parser)
    requires Assigned(h) && e.seen < |h|
    requires e.Tick? ==> forall m | m in e.nodes :: m.uid != ""
    requires e.Edit? ==> e.version.status == h[e.seen].status
    ensures Assigned(AfterEvent(h, e, parse))
  {
    var next := AfterEvent(h, e, parse);
    if next != h {
      var last := next[|h|].status;
      assert last.node != "" || (e.Edit? && last == h[|h| - 1].status);
      assert last.node != "" ==> last.ip != "";
      forall i, j | 0 <= i < j < |next| && Statuses(next)[i].node != "" ensures Statuses(next)[j].node != "" {
        assert j < |h| ==> Statuses(h)[i].node != "" && Statuses(h)[j].node != "";
        assert Statuses(h)[i].node != "" ==> i == |h| - 1 || Statuses(h)[|h| - 1].node != "";
      }
    }
  }

  /** Users leave the status alone, and every node has a UID. */
  ghost predicate Managed(states: seq<seq<Version>>, events: seq<Event>, parse: Parser)
    requires Run(states, events, parse)
  {
    && StatusKept(states, events, parse) && Assigned(states[0])
    && forall i | 0 <= i < |events| && events[i].Tick? :: forall m | m in events[i].nodes :: m.uid != ""
  }

  /** Once assigned, never unassigned again, and never without an address. */
  lemma {:induction false} StaysAssigned(states: seq<seq<Version>>, events: seq<Event>, parse: Parser, n: nat)
    requires Run(states, events, parse) && n <= |events| && Managed(states, events, parse)
    ensures Assigned(states[n])
  {
    if n > 0 {
      StaysAssigned(states, events, parse, n - 1);
      AssignedStep(states[n - 1], events[n - 1], parse);
    }
  }

  /** Managers and node together: whatever gateways the managers assigned and in whatever order a
      controller, started at any time, heard of them, in the end the node has the rules of the role that
      the last assignment gives it, next to such as the controller found and has never had to handle. Where
      users write the status too, the history must not have a gap. */
  lemma ManagedConvergence(versions: seq<seq<Version>>, updates: seq<Event>, parse: Parser, since: nat,
                           states: seq<R.Sys>, events: seq<R.Event>, self: string,
                           ids: seq<string>, rules: seq<EgressRule>, found: R.Parts, ips: seq<seq<Ip>>)
    requires Run(versions, updates, parse) && forall v | v in versions[|updates|] :: v.rules == rules
    requires self != "" && |ids| == |rules| == |ips| && NoDup(ids) && R.Run(states, events, self, ids, rules)
    requires R.Start(states[0], ids, rules, found) && since < |versions[|updates|]|
    requires var s := states[|events|];
             && s.hist == Statuses(versions[|updates|])[since..]
             && s.delivered == s.listed == |s.hist| - 1 && s.hist[s.listed].node != ""
             && (Managed(versions, updates, parse)
                 || (R.NoGap(s.hist, self) && (s.hist[s.listed].node == self || s.hist[s.listed].ip != "")))
    ensures var s := states[|events|];
            && R.Possible(s, R.Work(ips), ids)
            && var cfg := R.Next(s, R.Work(ips), self, ids, rules).cfg;
               && R.AllHold(cfg, ids, rules, R.Settled(states, events, self, ids, rules, found))
               && forall i | 0 <= i < |ids| :: ids[i] in cfg.sets && cfg.sets[ids[i]] == Elems(ips[i])
  {
    hide R.AllHold, R.Next, R.Settled;
    var h, s := versions[|updates|], states[|events|];
    if Managed(versions, updates, parse) {
      StaysAssigned(versions, updates, parse, |updates|);
      assert forall i | 0 <= i < |s.hist| :: s.hist[i] == h[since + i].status == Statuses(h)[since + i];
      NoGapWhenAssigned(s.hist, self);
    }
    R.RoleConvergence(states, events, self, ids, rules, found, ips);
  }

  /** A user who replaces the object without its status makes such a gap, when the next tick assigns another
      node. */
  lemma EmptiedByUser(h: seq<Version>, rules: seq<EgressRule>, nodes: seq<Node>, parse: Parser, self: string)
    requires h != [] && self != "" && h[|h| - 1].status.node == self
    requires var choice := Choice(Status("", ""), nodes, parse);
             choice.Some? && choice.value.node != "" && choice.value.node != self
    ensures var emptied := AfterEvent(h, Edit(|h| - 1, Version(rules, Status("", ""))), parse);
            var next := AfterEvent(emptied, Tick(|h|, nodes), parse);
            |next| == |h| + 2 && next[|h| + 1].status.node != "" && !R.NoGap(Statuses(next), self)
  {
    var emptied := AfterEvent(h, Edit(|h| - 1, Version(rules, Status("", ""))), parse);
    var next := AfterEvent(emptied, Tick(|h|, nodes), parse);
    assert R.LastOf(R.SnatKind, Statuses(next), self, |h| - 1);
  }

  /** A UID that is empty would break this. */
  lemma UnassignedByEmptyUid(h: seq<Version>, parse: Parser, n: Node)
    requires h != [] && h[|h| - 1].status.node != "" && Eligible(n) && n.uid == ""
        && Preferred(n.addresses, parse).Some?
    ensures var next := AfterEvent(h, Tick(|h| - 1, [n]), parse);
            |next| == |h| + 1 && next[|h|].status.node == ""
  {
    assert n in [n];
  }
}
