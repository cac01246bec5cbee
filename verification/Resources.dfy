/** The custom resource and what a node does for it. */
module Resources {
  import opened Net
  import opened Programs

  datatype EgressRule = EgressRule(service: string, egressIP: Ip, cidr: Cidr)

  /** The gateway's node UID and address; empty until the manager assigns one. */
  datatype Status = Status(node: string, ip: string)

  function RouteOps(ids: seq<string>, rules: seq<EgressRule>, ips: seq<seq<Ip>>): (ops: seq<Op>)
    requires |ids| == |rules| == |ips|
    ensures |ops| == |rules| && forall i | 0 <= i < |ops| :: ops[i] == AddRoute(ids[i], ips[i], rules[i].cidr)
  {
    seq(|rules|, i requires 0 <= i < |rules| => AddRoute(ids[i], ips[i], rules[i].cidr))
  }

  function SnatOps(ids: seq<string>, rules: seq<EgressRule>, ips: seq<seq<Ip>>): (ops: seq<Op>)
    requires |ids| == |rules| == |ips|
    ensures |ops| == |rules| && forall i | 0 <= i < |ops| ::
        ops[i] == AddSnat(ids[i], ips[i], rules[i].cidr, rules[i].egressIP)
  {
    seq(|rules|, i requires 0 <= i < |rules| => AddSnat(ids[i], ips[i], rules[i].cidr, rules[i].egressIP))
  }

  function DropOps(ids: seq<string>, rules: seq<EgressRule>): (ops: seq<Op>)
    requires |ids| == |rules|
    ensures |ops| == |rules| && forall i | 0 <= i < |ops| :: ops[i] == DropRoute(ids[i], rules[i].cidr)
  {
    seq(|rules|, i requires 0 <= i < |rules| => DropRoute(ids[i], rules[i].cidr))
  }

  /** The operations of a worker pass: which role's additions, if any. */
  function PassOps(self: string, status: Status, ids: seq<string>, rules: seq<EgressRule>, ips: seq<seq<Ip>>): seq<Op>
    requires |ids| == |rules| == |ips|
  {
    if status.node == "" then []
    else if status.node == self then SnatOps(ids, rules, ips)
    else if status.ip == "" then []
    else RouteOps(ids, rules, ips)
  }

  /** The operations of the update handler for the first `n` rules. */
  function HandlerOps(was: bool, isNow: bool, ids: seq<string>, rules: seq<EgressRule>, n: nat): seq<Op>
    requires |ids| == |rules| && n <= |rules|
  {
    if n == 0 then []
    else
      HandlerOps(was, isNow, ids, rules, n - 1)
      + (if was then [ClearSnat(ids[n - 1], rules[n - 1].cidr, rules[n - 1].egressIP)] else [])
      + (if isNow then [StaleRoute(ids[n - 1], rules[n - 1].cidr)] else [])
  }

  /** The handler acts only when one assigned gateway replaces another. */
  function UpdateOps(self: string, before: Status, now: Status, ids: seq<string>, rules: seq<EgressRule>): seq<Op>
    requires |ids| == |rules|
  {
    if before.node != "" && now.node != "" && before.node != now.node
    then HandlerOps(before.node == self, now.node == self, ids, rules, |rules|)
    else []
  }
}
