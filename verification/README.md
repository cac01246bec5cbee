# Static egress IPs: a model of what the nodes and the gateway manager do

kube-static-egress-ip gives the pods behind a service a fixed source address when they talk to a
given destination. Every node runs a controller. For each custom resource one node is the *gateway*:
it forwards the pods' packets and translates their source. All others are *directors*: they mark the
packets, exempt them from masquerading and send them to the gateway through a tunnel. A separate
gateway manager assigns the gateway in the resource's status.

## How the model is built

- `Netfilter` holds the packet-filter state of a node as a value (`Config`: named address sets and
  ordered chains), the commands that change it with the conditions under which the kernel refuses
  them, `Exec`, which runs the first `k` commands of a program, and `Walk`, the first-match traversal
  of a chain by a packet. CIDR matching (`Net`) follows section 3.1 of RFC 4632.
- `Provenance` says which packets each kind of rule matches, and from which operations of a run the rules
  of a node come.
- `Programs` writes every director and gateway operation as its list of commands. `After(cfg, op, k)`
  is what the operation leaves when it stops after `k` of them, so a failing command is a value of
  `k`. `RunAll` runs any sequence of such attempts, and `SyncAll` one in which no command fails except
  those the kernel refuses.
- `Hosts.Host` is the mutable node: sets, chains, links, routes, addresses. Each of its primitives may
  fail at will, and counts that as a fault, or be refused by the kernel. `Directors.EgressDirector`,
  `Gateways.EgressGateway`, `IpSets` and `Controllers.Controller` are the imperative bodies with their early
  returns. Each is proved to leave exactly what its program leaves after the number of commands it reports,
  whichever of them fails; and what the complete program leaves when there was no fault.
- The theorems about runs are about those programs: `Integrity`, `Ordering`, `Erasure`, `Priority`,
  `Confluence`, `Recovery`, `Overtaking`, `Deletion`, `Path`, `Roles` and `Delivery`.
  A pass or a handler without faults is a step of those runs: that is what the contracts of the controller's
  methods say (`Processed`, `Left`).
- `Managers` is the assignment loop over an API store with resource versions, used by any number of
  replicas. Its histories feed the node's runs in `Managers.ManagedConvergence`.
- `Names` has the rule ids (with the hash function left open; base32 is section 6 of RFC 4648) and the
  tunnel names. `Endpoints` and `NodeAddresses` are the two collecting loops.

## What turned out false, and the exact condition

- A node that changes roles while its controller is down keeps the rules of both
  (`Roles.RestartKeepsBoth`). `Roles.RoleConvergence` says exactly which rules of the other role stay.
- A history in which the last status of a role is followed by an empty one has the same effect
  (`Roles.GapKeepsRole`, and `Roles.UnassignedInBetween` as an instance), and no other history has
  (`Roles.RoleConvergence`); an empty status elsewhere does no harm. Managers make no such gap if UIDs are
  not empty (`Managers.StaysAssigned`, `Managers.UnassignedByEmptyUid`); a user who replaces a resource
  without its status does (`Managers.EmptiedByUser`).
- A packet may skip masquerading unmarked while the update handler clears a stale route, because the set
  is not flushed first (`Ordering.StaleRouteGap`), and after a deletion that stopped between its two rule
  removals once the set is filled again (`Ordering.UntidyCrash`). `Ordering.PairedRun` tells from the
  attempts of a run which bypass rules lack their mark rule, and `Ordering.BypassedUnmarked` exactly which
  packets that lets through.
- Failures that a pass logs and passes over change no set and no collection of rules once a later pass
  succeeds (`Recovery.EventuallyComplete`), but they can change which of two overlapping egress rules wins
  (`Overtaking.FailureChangesPriority`): if and only if a rule is overtaken
  (`Overtaking.FailureKeepsPriority`, and `Overtaking.AttemptsKeepPriority` for any attempts before). So
  can the order of the additions (`Overtaking.OrderDecides`, with the condition in `Overtaking.TwoOrders`).
- The clearing of a gateway rule cannot be repeated: `Integrity.RetryClear` says when an interrupted one
  has done its work all the same. A rule whose addition stopped between its forward rule and its SNAT
  rule cannot be cleared at all (`Erasure.SnatErased`).
- A route of a director never changes. Routes are added by device and removed by gateway, and the table takes
  one route for a destination, so when the gateway changes the director's packets keep going to the first one
  (`Hosts.FirstRouteStays`, with the contracts of `Controllers.Controller`).
- The return mark of a gateway rule is never removed, so packets from its destination to the egress address stay
  marked after the rule is cleared (`Path.ReturnPath`).
- Deleting a resource on its gateway leaves the gateway's rules (`Deletion.DeletionLeaves`).
- The node assigned when the current gateway is lost is the last of the list, because one loop variable
  is shared by all rounds; it is the one that was meant if and only if the last node is the only eligible
  one (`Managers.FallbackIsIntended`). A master can be assigned (`Managers.MasterAssigned`).
- A temporary set is gone after a replacement if and only if no rule names it (`IpSets.TemporaryGone`).
- Hash inputs of different resources coincide exactly as `Names.InputsCoincide` says.
- Tunnel names of nodes in different networks can coincide (`Names.TunnelNamesCollide`): exactly as
  `Names.TunnelNamesCoincide` says for any two addresses, `Names.TunnelNamesTwoOctets` for those that differ
  in two neighbouring octets, and never for those that differ in one (`Names.TunnelNamesOneOctet`).

## Model

| member | source | states |
|---|---|---|
| `Roles.RoleConvergence` | pkg/controller/controller.go:231-268 | for a controller that starts on a node with any rules of its ids, in any interleaving of reassignments, store updates, lagging handler deliveries, worker passes and work for other resources whose history has no gap (the last status of each role, unless the last of all, is followed by another assignment): once all is delivered one more pass leaves for every rule id all rules of the node's current role and its own source set; of the other role it leaves what was found at the start if no status since has given the node that role, and otherwise nothing but a forward rule that was found without its SNAT rule and never completed |
| `Managers.ManagedConvergence` | pkg/ha/gateway_manager.go:133-155 | the same for every history any number of racing managers and users can produce and a controller started at any version of it, given rules that nobody edits, and non-empty node UIDs and users that leave the status alone, or else a history without a gap |
| `Roles.HandlerEffect` | pkg/controller/controller.go:393-454 | a delivered status change removes the rules of the role that ends and keeps those of the other, for all rules of the resource |
| `Roles.PassEffect` | pkg/controller/controller.go:251-267 | a worker pass gives every rule of the resource the rules of the role its status names |
| `Roles.OtherOperation` | pkg/controller/controller.go:380-384 | an operation on another id, stopped anywhere, leaves the rules of this id as they are in every chain |
| `Roles.OwnOperation` | pkg/director/director.go:107-290 | an operation of an id, stopped after any number of commands, puts and removes exactly the rules it got to, whatever else is there; a clearing does nothing without the SNAT rule |
| `Roles.WholePass` | pkg/controller/controller.go:416-450 | whatever attempts are made at the rules of a resource and at others, wherever they stop, each id has the rules that the attempts at it, one after the other, leave it |
| `Roles.RunParts` | pkg/controller/controller.go:393-454 | in every reachable state of every run, with or without gaps, each id has exactly the rules that the events so far, one after the other, make of those found at the start |
| `Roles.LeftRole` | pkg/controller/controller.go:398-399 | once the last status of a role is delivered together with another assignment, the rules of the role are gone for good |
| `Roles.KeptRole` | pkg/controller/controller.go:398-399 | if it is followed by no assignment, no rule of the role is removed from its delivery on, to the end of every run |
| `Roles.GapKeepsRole` | pkg/controller/controller.go:398-399 | so the condition is needed: along every history with such a gap, behind a status on which a pass acts, from every start, there is a run after which all rules of the role are still there |
| `Roles.RestartKeepsBoth` | pkg/controller/controller.go:386-391 | a gateway whose part went to another node while its controller was down ends with the rules of both roles: the controller hears of an addition, not of a change |
| `Roles.UnassignedInBetween` | pkg/controller/controller.go:398-399 | a change by way of an empty status can leave the rules of both roles |
| `Path.EndToEnd` | docs/design.md:22-42 | a packet from the service to the CIDR is marked and skips masquerading on a director, and is forwarded and leaves with exactly the egress address on the gateway, both synced from the same endpoints, before and after any runs, unless other programs take the mark or stop it |
| `Delivery.EveryPacket` | docs/design.md:3-14 | after convergence, for every history of managers and users, every packet of every rule of the resource is marked and exempt from masquerading if the node is a director, and forwarded and translated to the egress address if it is the gateway and no other managed nat rule matches |
| `Path.DirectorPath` | pkg/director/director.go:127-151 | the director's half, after any run, a complete pass, and any attempts at other ids: the packet reaches the other programs' rules already marked |
| `Path.GatewayPath` | pkg/gateway/gateway.go:98-114 | the gateway's half, likewise, when no other managed nat rule matches the packet and the rules in front of the forward jump let it through |
| `Path.UnmanagedPackets` | pkg/director/director.go:127-151 | after any run, a packet for which no attempted addition is, because its destination is outside the CIDR or its source not in the set now, and which is not on its way from the CIDR to the egress address of a gateway rule, fares in PREROUTING, POSTROUTING and FORWARD exactly as it did on the node before the program came, if rules of other programs jump only among themselves and name no set of a rule id |
| `Path.OtherPackets` | pkg/gateway/gateway.go:98-128 | after any run a packet of no attempted director rule is not exempt from masquerading, one of no attempted gateway rule is neither translated nor let through, and one that is of neither kind and not return traffic is not marked |
| `Path.OnlyRuleOfRun` | pkg/gateway/gateway.go:111-114 | the condition of the gateway's half holds when of all attempted additions only those of the rule are for the packet |
| `Path.ReturnPath` | pkg/gateway/gateway.go:116-128 | once a gateway rule was added completely, packets from its CIDR to its egress address reach the other programs' rules in PREROUTING with the mark, whatever is attempted later |
| `Provenance.SetRulesMatch` | pkg/director/director.go:127-141 | mark, bypass, forward and SNAT rules match a packet if and only if its source is in the named set and its destination in the CIDR |
| `Provenance.ReturnMarkMatches` | pkg/gateway/gateway.go:118-118 | a return mark matches if and only if the source is in the CIDR and the destination is the egress address |
| `Provenance.RuleProvenance` | pkg/gateway/gateway.go:98-128 | after any run every rule of a chain was there at the start or is that of an attempted addition which got to it |
| `Path.SourceSetExact` | pkg/controller/controller.go:289-297 | after a pass in either role the set of a rule is exactly the union of addresses over the subsets with a port, whatever it held before |
| `Path.SetupBoots` | pkg/controller/controller.go:126-142 | both setups on a node put the bypass jump, then the SNAT jump, in front of POSTROUTING and the forward jump behind FORWARD, create three empty chains, and leave all other chains and all sets as they were |
| `Path.SetupAgain` | pkg/director/director.go:83-97 | both setups of a restarted controller change nothing, after any run |
| `Ordering.MarksInFront` | pkg/director/director.go:127-138 | over every run, stopped anywhere, PREROUTING is the mark rules followed by exactly the rules other programs had there |
| `Confluence.PermutedSync` | pkg/controller/controller.go:284-301 | syncing any permutation of additions with distinct ids gives equal sets and equal multisets of rules in every chain |
| `Confluence.ResourcesInAnyOrder` | pkg/controller/controller.go:279-378 | the same for the resources of a node in any order |
| `Confluence.PermutedVerdicts` | pkg/director/director.go:127-151 | the mark, bypass and forward verdict of every packet does not depend on the order |
| `Confluence.PermutedSnat` | pkg/gateway/gateway.go:111-114 | nor does the egress address where at most one SNAT rule matches |
| `Confluence.SyncedChain` | pkg/gateway/gateway.go:241-250 | a chain after a pass is the chain before with the new rules, each once, reversed in front or in order behind |
| `Confluence.SyncedSets` | pkg/director/director.go:110-122 | after a pass each set holds its own source list, and no other set has changed |
| `Erasure.RouteErased` | pkg/director/director.go:203-226 | adding a route, stopped anywhere, then any operations on other ids, then removing it, stopped anywhere: a chain is what those operations alone leave if and only if the addition had not got to it or the removal has, also when the trailing route step fails |
| `Erasure.SnatErased` | pkg/gateway/gateway.go:170-189 | the same for a gateway rule: in the SNAT chain if and only if the addition had not got to it or the clearing has, in the forward chain if and only if the addition had not got to it, or had got to both and the clearing to its second command |
| `Erasure.ErasedRun` | pkg/director/director.go:127-151 | two nodes that differ only in rules of one id go on differing only in them under any attempts on other ids |
| `Priority.NewestWins` | pkg/gateway/gateway.go:111-114 | in every reachable state the egress address of a packet is that of the matching rule inserted last |
| `Priority.NewestExists` | pkg/gateway/gateway.go:111-114 | there is such a rule whenever one matches; otherwise the chain gives no verdict |
| `Priority.OrderedByInsertion` | pkg/gateway/gateway.go:241-254 | over every run the SNAT chain is strictly ordered by time of insertion, newest first |
| `Priority.ResyncKeepsPriority` | pkg/gateway/gateway.go:241-250 | syncing a rule that is there, stopped anywhere, leaves the chain and every insertion time |
| `Priority.ClearingRestoresNext` | pkg/gateway/gateway.go:170-176 | clearing a rule gives its packets the egress address of the newest rule left that matches |
| `Recovery.InterruptedPass` | pkg/controller/controller.go:319-375 | a pass over any number of rules stopped at any command and then run from its start leaves exactly what the complete pass alone leaves |
| `Recovery.RetryAfterCrashes` | pkg/gateway/gateway.go:80-133 | an addition stopped any number of times anywhere and then completed leaves exactly what it would have left at once |
| `Integrity.RetryAfterCrash` | pkg/director/director.go:107-151 | the same for one interruption; idempotence is the interruption after the last command |
| `Integrity.RetryRemoval` | pkg/director/director.go:194-290 | a director's deletion or clearing that stopped anywhere is completed by running it again |
| `Integrity.RetryClear` | pkg/gateway/gateway.go:170-201 | the clearing of a gateway rule, stopped behind its first command, does nothing when run again; it leaves what a complete one would have left if and only if it had nothing more to do |
| `Recovery.EventuallyComplete` | pkg/controller/controller.go:297-300 | whatever additions failed wherever and in whatever order, one pass without failures gives the same sets and multisets of rules as if none had |
| `Overtaking.FailureKeepsPriority` | pkg/gateway/gateway.go:111-114 | a pass whose additions stopped anywhere, then a complete one: the SNAT chain is that of the complete pass alone if and only if no new rule whose insertion was not reached precedes one whose insertion was |
| `Overtaking.FailureChangesPriority` | pkg/controller/controller.go:367-370 | of two rules that match a packet the first of the pass gives the egress address if its addition had failed at first, and the second if none had |
| `Overtaking.AttemptsKeepPriority` | pkg/gateway/gateway.go:111-114 | for any attempts before the complete pass, in any order, however often and wherever stopped: the SNAT chain is that of the pass alone if and only if the new rules that were reached, in the order in which they first were, are the first new ones of the pass |
| `Overtaking.AttemptedChain` | pkg/gateway/gateway.go:241-250 | the SNAT chain after any attempts is the reached new rules, the last first, in front of the chain before |
| `Overtaking.LastOfPassWins` | pkg/gateway/gateway.go:111-114 | after a complete pass the last new rule of the pass that matches a packet gives the egress address, and if there is none the rules that were there decide |
| `Overtaking.TwoOrders` | pkg/controller/controller.go:319-375 | two orders of the same additions give a packet the same egress address if and only if the last new rules that match it have the same one, or none matches |
| `Overtaking.OrderDecides` | pkg/gateway/gateway.go:111-114 | of two rules that match a packet the later one of the pass wins, whichever that is |
| `Overtaking.StoppedChain` | pkg/gateway/gateway.go:241-250 | the SNAT chain after a pass stopped anywhere is the reached new rules, the last first, in front of the chain before |
| `Recovery.AttemptedMembers` | pkg/director/director.go:107-151 | attempts at additions take no rule from a chain and add none but their own |
| `Integrity.DuplicateFree` | pkg/gateway/gateway.go:241-250 | over every run no managed chain holds a rule twice |
| `Integrity.ReferentialIntegrity` | pkg/director/director.go:110-151 | in every reachable state, between commands too, a rule that names a set names one that exists |
| `Integrity.RouteSetSurvives` | pkg/director/director.go:240-243 | the destroy step of a deletion is refused exactly when a rule other than its own two names the set, which is then empty |
| `Integrity.SnatSetSurvives` | pkg/gateway/gateway.go:191-198 | the same for clearing a gateway rule |
| `Deletion.DeletionLeaves` | pkg/controller/controller.go:472-477 | deleting a resource takes away all director's rules of its ids; the set of an id is gone if and only if the node holds no gateway rule of that id, which is kept |
| `Deletion.DropSet` | pkg/director/director.go:194-243 | the set of one rule is destroyed if and only if the node holds no gateway rule of the id |
| `Ordering.PreroutingWalk` | pkg/director/director.go:127-138 | at every command of every run a packet comes to other programs' PREROUTING rules with the mark if and only if a mark rule matches it, and with the mark it had otherwise |
| `Ordering.BypassedUnmarked` | pkg/director/director.go:203-226 | and the bypass chain accepts it although no mark rule matches it if and only if no mark rule does and some id and destination that match it were left by their last attempts with the bypass rule and without the mark rule |
| `Ordering.BypassedIsMarked` | pkg/director/director.go:110-151 | so if all unpaired bypass rules have empty sets, every packet accepted by the bypass chain was marked before it came to other programs' rules |
| `Ordering.TidyRunsAreHarmless` | pkg/director/director.go:110-151 | runs in which no removal stops between its two rules meet that condition at every command, except the first of a stale-route clearing |
| `Ordering.RunMembers` | pkg/director/director.go:127-151 | after a run the mark (bypass) rule of an id and destination is there if and only if the last attempt for them that got to its mark (bypass) command inserted it, or none did and it was there at the start |
| `Ordering.PairedStep` | pkg/director/director.go:203-226 | one attempt keeps every bypass rule paired with its mark rule if and only if it does not stop between the two removals or had no bypass rule to leave behind |
| `Ordering.PairedRun` | pkg/director/director.go:194-226 | after a run every bypass rule has its mark rule if and only if no pair's last attempts left it unpaired, whatever failed and was repaired before; and it has it or an empty set if and only if the unpaired ones have |
| `Ordering.PairedBetweenCommands` | pkg/director/director.go:196-226 | between the commands of an operation every bypass rule has its mark rule or an empty set, except, and always then, after the first command of a stale-route clearing that finds a bypass rule and a filled set |
| `Ordering.StaleRouteGap` | pkg/director/director.go:248-275 | the stale-route clearing, which does not flush, opens a gap after its first command |
| `Ordering.UntidyCrash` | pkg/director/director.go:208-221 | a deletion stopped between its two rule removals, then an addition of the same id that refills the set: its packets, unless another mark rule matches them, are accepted by the bypass chain and unmarked |
| `Ordering.ShapedRun` | pkg/gateway/gateway.go:98-129 | over every run the rules added to a managed chain have that chain's own target |
| `IpSets.Refresh` | pkg/ipset/ipsets.go:105-126 | leaves what the replacement program leaves after the commands it reports, at every failure |
| `IpSets.AtomicReplacement` | pkg/ipset/ipsets.go:105-126 | at every step and after every failure the live set holds exactly its old entries or exactly the new ones, and no rule changes; leftovers of the temporary set never get in |
| `IpSets.TemporaryGone` | pkg/ipset/ipsets.go:121-124 | without failures the temporary set is gone if and only if no rule names it |
| `IpSets.RefreshEffect` | pkg/ipset/ipsets.go:105-126 | the contents of the live, the temporary and all other sets after each command |
| `IpSets.FillingInPlaceEmpties` | pkg/director/director.go:110-122 | the additions, which do not use the replacement, leave a set that is in use empty after two commands |
| `IpSets.FillSet` | pkg/ipset/ipsets.go:56-67 | creation, flush and one addition per entry are the beginning of the program, at every failure |
| `Hosts.Host.Create` | pkg/ipset/ipsets.go:57-61 | a set is created empty or kept |
| `Hosts.Host.Flush` | pkg/ipset/ipsets.go:62-65 | an existing set is emptied |
| `Hosts.Host.Add` | pkg/ipset/ipsets.go:130-136 | set insertion |
| `Hosts.Host.Swap` | pkg/ipset/ipsets.go:148-154 | two existing sets exchange their contents |
| `Hosts.Host.Destroy` | pkg/ipset/ipsets.go:156-162 | removal, refused while a rule names the set |
| `Hosts.Host.EnsureFirst` | pkg/gateway/gateway.go:241-250 | existence test, then insertion at position 1; nothing on failure |
| `Hosts.Host.EnsureLast` | pkg/gateway/gateway.go:99-108 | existence test, then append; nothing on failure |
| `Hosts.Host.DeleteIfPresent` | pkg/gateway/gateway.go:180-189 | existence test, then deletion of the first occurrence; an absent rule is no error |
| `Hosts.Host.Delete` | pkg/gateway/gateway.go:252-254 | deletion of the first occurrence; an absent rule is an error |
| `Hosts.Host.CreateChain` | pkg/gateway/gateway.go:225-235 | a chain is created empty or kept |
| `Directors.EgressDirector.Setup` | pkg/director/director.go:52-102 | runs the setup program up to the reported failure, which is a fault or a refusal; on success the routing table has its name, and packets with the mark 1000 look it up, and no others, unless it had a policy rule before |
| `Directors.EgressDirector.AddRouteToGateway` | pkg/director/director.go:107-191 | runs the addition program up to the reported failure; without faults it leaves what the program leaves and succeeds if and only if neither the tunnel nor the route is refused; on success the tunnel with its two ends is there and up, and the destination is routed through it if and only if it was already, or had no route and was not listed; a destination that has a route keeps it |
| `Directors.EgressDirector.RouteThroughTunnel` | pkg/director/director.go:153-187 | without faults the three link steps succeed if and only if no other text of the link listing looks like the tunnel and a route to the destination is recognized |
| `Directors.EgressDirector.DeleteRouteToGateway` | pkg/director/director.go:194-246 | runs the deletion program up to the reported failure; without faults the set is not destroyed if and only if the destination is not listed and has no route by way of the gateway, or a rule names the set; no other route is removed |
| `Directors.EgressDirector.ClearStaleRouteToGateway` | pkg/director/director.go:248-290 | runs the clearing program up to the reported failure, and without faults all of it; sets are untouched; the same condition for its route step |
| `Programs.AddRouteEffect` | pkg/director/director.go:107-151 | sets and chains after each number of commands of an addition |
| `Programs.DropRouteEffect` | pkg/director/director.go:194-246 | the same for a deletion, with the refused destroy step |
| `Programs.StaleRouteEffect` | pkg/director/director.go:248-275 | the same for a stale-route clearing |
| `Programs.ChainEffect` | pkg/gateway/gateway.go:80-133 | an operation stopped anywhere edits a chain in at most one place, with the rule and at the end of the chain that belong to it |
| `Programs.FrameSets` | pkg/gateway/gateway.go:83-95 | an operation touches no set but its own |
| `Programs.FrameChains` | pkg/gateway/gateway.go:18-26 | and no chain but the four managed ones |
| `Programs.AddSnatEffect` | pkg/gateway/gateway.go:80-133 | sets and chains after each number of commands of a gateway addition |
| `Programs.ClearSnatEffect` | pkg/gateway/gateway.go:170-201 | the same for clearing one; without the SNAT rule nothing happens at all, and the return mark is never removed |
| `Gateways.EgressGateway.Setup` | pkg/gateway/gateway.go:37-76 | runs the setup program up to the reported failure, which is a fault or a refusal |
| `Gateways.EgressGateway.AddStaticIptablesRule` | pkg/gateway/gateway.go:80-133 | runs the addition program up to the reported failure, which is a fault or a refusal |
| `Gateways.EgressGateway.ClearStaticIptablesRule` | pkg/gateway/gateway.go:170-201 | runs the clearing program up to the reported failure, which is a fault or a refusal, the unguarded deletion first |
| `Controllers.Controller.Start` | pkg/controller/controller.go:126-144 | gateway setup, then director setup; success means both programs ran completely, and without faults a node with the built-in chains starts |
| `Controllers.Controller.ProcessNextWorkItem` | pkg/controller/controller.go:172-221 | a key stays queued exactly when its pass reported an error; the key of a missing resource leaves the queue and changes nothing; an error without a fault is a refused tunnel or route of the first rule not added |
| `Controllers.Controller.SyncHandler` | pkg/controller/controller.go:231-268 | runs the operations of the role the status names, in rule order, each up to its logged outcome; all of them on success; and a success without faults leaves exactly what a worker step of the runs of role convergence leaves |
| `Controllers.Controller.DoDirectorProcessing` | pkg/controller/controller.go:279-304 | every rule gets its addition whatever became of the others; for each that succeeded the tunnel is there and up and the destination routed through it, unless the listing showed it at some time; without faults sets and chains are those of a worker step |
| `Controllers.Controller.DoGatewayProcessing` | pkg/controller/controller.go:306-378 | the same on the gateway until a tunnel step fails; on success every endpoint of another known node has its tunnel, up, and its route, unless listed; only egress addresses of the resource are added, and without faults all of them; a pass that stops without a fault stopped at a refused tunnel or route |
| `Controllers.Controller.StartGateway` | pkg/controller/controller.go:367-374 | one rule on the gateway: the addition, then the egress address whatever became of it |
| `Controllers.Controller.CollectBehindTunnels` | pkg/controller/controller.go:324-366 | collects exactly what the director collects; on success every endpoint of a known other node is connected; only tunnels to such nodes are added, each with the ends its name says, and only routes through them |
| `Controllers.Controller.Connect` | pkg/controller/controller.go:329-363 | one endpoint: an unknown node is passed over, a local one needs no tunnel; otherwise success means a tunnel that is up and a route to the endpoint through it, unless listed, and failure a fault or a refusal; the only tunnel and the only route added are those |
| `Controllers.Controller.UpdateStaticEgressIP` | pkg/controller/controller.go:393-454 | acts only when one assigned gateway replaces another; then clears the role that ends for every rule of the old object, by the result of the two lookups, which without faults succeed; without faults sets and chains are those of a delivery of the runs of role convergence; the new object is queued in any case |
| `Controllers.Controller.LeaveRoles` | pkg/controller/controller.go:416-450 | the clearing operations in rule order, each up to its logged outcome; only egress addresses of the resource are removed, and without faults all of them if the node was or is the gateway; device routes stay |
| `Controllers.Controller.StopGateway` | pkg/controller/controller.go:431-438 | one rule of a former gateway: the clearing, then the egress address whatever became of it |
| `Controllers.Controller.StopDirector` | pkg/controller/controller.go:440-447 | one rule of a former director: the clearing, with the egress address for that of the gateway, then the egress address |
| `Controllers.Controller.DeleteStaticEgressIP` | pkg/controller/controller.go:456-479 | a director deletion for every rule, whatever became of the others, then queues the key; device routes stay; without faults and with all destinations listed the deletions are complete |
| `Netfilter.EndedUnfailing` | pkg/controller/controller.go:297-300 | an operation whose only failure is a refusal of the kernel leaves what it leaves when no command fails |
| `Hosts.FirstRouteStays` | pkg/director/director.go:182-184 | a device route that is the only one to its destination remains it, however often the controller changes the table |
| `Controllers.IdsDistinct` | pkg/controller/controller.go:380-384 | the rules of a resource have distinct ids if and only if their hashes differ within ten bytes |
| `Endpoints.CollectSources` | pkg/controller/controller.go:289-296 | the three nested loops append each subset's addresses once for each port |
| `Endpoints.CollectedIsSources` | pkg/controller/controller.go:289-296 | the list holds exactly the addresses of the subsets with a port |
| `Endpoints.SameSubsetsSameSources` | pkg/controller/controller.go:324-328 | the order of the subsets does not matter |
| `Managers.ChooseGatewayNode` | pkg/ha/gateway_manager.go:182-239 | the loops with their shared variable return the current gateway if a ready node has its UID, else the last node of the list if any is eligible and the last has an address, else an error |
| `Managers.ChoiceExplained` | pkg/ha/gateway_manager.go:190-236 | by labels and conditions alone: the current gateway is kept if and only if it is listed without a readiness condition that is false or unknown; otherwise, if the last node has an address, it is assigned if and only if some node of the list has no master label and no such condition |
| `Managers.ReadyEnough` | pkg/ha/gateway_manager.go:193-198 | the loop over all conditions says whether one of them is a readiness condition that is false or unknown |
| `Managers.ReadyAtFirst` | pkg/ha/gateway_manager.go:215-221 | so does the loop that stops early |
| `Managers.FallbackIsIntended` | pkg/ha/gateway_manager.go:207-236 | with distinct UIDs the first eligible node is assigned if and only if the last node is the only eligible one; the assigned node is eligible if and only if the last is |
| `Managers.FallbackFails` | pkg/ha/gateway_manager.go:229-238 | there is no assignment exactly when every node has the master label or a readiness condition that is false or unknown, or the last has no address |
| `Managers.MasterAssigned` | pkg/ha/gateway_manager.go:207-236 | a ready master behind a ready worker is assigned and kept; the master alone is refused |
| `Managers.Assign` | pkg/ha/gateway_manager.go:138-154 | what is committed is the choice made from the version right before with that version's rules; otherwise nothing changes; the cached object never does |
| `Managers.TickOnce` | pkg/ha/gateway_manager.go:133-155 | every resource's history goes on by its own choice or stays, and no other does |
| `Managers.StaticEgressIP.DeepCopy` | pkg/apis/egressip/v1alpha1/zz_generated.deepcopy.go:44-51 | a fresh object with a fresh slice of the same rules |
| `Managers.Store.Update` | pkg/ha/gateway_manager.go:151-154 | an update from any but the current version is refused and changes nothing |
| `Managers.NoLostUpdates` | pkg/ha/gateway_manager.go:133-155 | in any interleaving of ticks and edits every committed version was computed from the version right before it |
| `Managers.StoredRules` | pkg/apis/egressip/v1alpha1/zz_generated.deepcopy.go:105-112 | and the stored rules are the last a user got stored, whatever status the users wrote |
| `Managers.ReplacedOnlyWhenLost` | pkg/ha/gateway_manager.go:190-205 | in any run a version changes the assignment of the one before only by a tick that found no ready node with its UID, or no assignment, or by a user who wrote the status |
| `Managers.SameNodesSameGateway` | pkg/ha/gateway_manager.go:182-239 | once a tick has committed, no run whose ticks find the same nodes, and whose users leave the status alone, changes the assignment again |
| `Managers.StableGateway` | pkg/ha/gateway_manager.go:190-205 | no run changes an assignment whose node is ready in every listing, unless a user does |
| `Managers.StaysAssigned` | pkg/ha/gateway_manager.go:230-235 | with non-empty UIDs and users that leave the status alone an assigned gateway never becomes empty again, nor its address |
| `Managers.UnassignedByEmptyUid` | pkg/controller/controller.go:398-399 | an empty UID would |
| `Managers.EmptiedByUser` | config/static-egressip-crd.yaml:13-40 | a user who replaces the object without its status, which is no subresource, empties the assignment, and the next tick that assigns another node makes the gap that the handlers miss |
| `NodeAddresses.GetNodeIP` | pkg/utils/node.go:46-59 | the grouping loop chooses what the two-pass definition chooses |
| `NodeAddresses.PreferenceOrder` | pkg/utils/node.go:42-59 | the first internal address wins, else the first external one, else there is none |
| `Names.RuleIdsEqual` | pkg/controller/controller.go:380-384 | two ids are equal if and only if the first ten bytes of the hashes are |
| `Names.RuleIdShape` | pkg/ipset/ipsets.go:106-106 | the text has 56 characters, the id 26 and no padding, and with the suffix of a temporary set 31 |
| `Names.RuleIdValue` | pkg/controller/controller.go:380-384 | behind its prefix the id has two groups of eight characters of the alphabet whose values in base 32 are those of the first and the second five bytes of the hash in base 256 |
| `Names.GroupValue` | pkg/controller/controller.go:382-382 | with A to Z as 0 to 25 and 2 to 7 as 26 to 31, eight characters read in base 32 are their five bytes read in base 256 |
| `Names.TestVectors` | pkg/controller/controller.go:382-382 | the seven test vectors of section 10 of RFC 4648, with every length of padding |
| `Names.RulesOfOneResource` | pkg/controller/controller.go:380-381 | hash inputs of one resource are equal if and only if the rule numbers are |
| `Names.InputsCoincide` | pkg/controller/controller.go:381-381 | the exact condition under which those of two resources coincide |
| `Names.CollidingInputs` | pkg/controller/controller.go:381-381 | families of resources whose inputs coincide |
| `Names.ItoaInjective` | pkg/controller/controller.go:381-381 | decimal printing is injective |
| `Names.ItoaValue` | pkg/controller/controller.go:381-381 | the printed digits, read as a decimal number, are the number, and there is no leading zero |
| `Names.GroupInjective` | pkg/controller/controller.go:382-382 | eight base32 characters determine their five bytes |
| `Names.EncodeLength` | pkg/controller/controller.go:382-382 | the length of the text, padding included |
| `Names.TunnelNameFits` | pkg/director/director.go:154-154 | for every dotted-quad address the tunnel name has 7 to 15 characters |
| `Names.TunnelNamesOneOctet` | pkg/controller/controller.go:335-335 | addresses that differ in at most one octet, any of the four, have equal tunnel names if and only if they are equal |
| `Names.TunnelNamesCoincide` | pkg/director/director.go:154-154 | any two addresses have equal tunnel names if and only if digits can shift over the three boundaries between the numbers so that each octet of the one becomes that of the other |
| `Names.TunnelNamesTwoOctets` | pkg/director/director.go:154-154 | addresses that differ in two neighbouring octets at most, as in one /16, have equal tunnel names if and only if one pair of numbers is the other with digits shifted from the second number to the first |
| `Names.PairsCoincide` | pkg/controller/controller.go:335-335 | the same for two numbers printed one behind the other |
| `Names.TunnelNamesCollide` | pkg/director/director.go:154-154 | families of address pairs with one tunnel name |
| `Net.CidrIsAlignedBlock` | pkg/director/director.go:127-127 | the addresses a destination block matches are an aligned run of a power of two around its base |
| `Net.CidrIsPrefix` | pkg/director/director.go:127-127 | a block holds an address if and only if its leading bits are those of the base, as many as the prefix says |
| `Net.CidrByOctets` | pkg/director/director.go:127-127 | for /8, /16, /24 and /32: if and only if the first one, two, three or four octets agree; /0 holds all |
| `Netfilter.WalkMarks` | pkg/director/director.go:127-138 | a run of mark rules marks exactly the packets one of them matches and goes on |

## Left out

- Process execution, netlink and text listings: a command is a primitive that may fail at will. What the text
  searches in `ip link list` and `ip route list` find is an arbitrary function of the links and of the table; of
  a link that is there it is assumed that it is found.
- Routes: their lookup by packets is not modelled. `Hosts.FirstRouteStays` is about tables that only the program
  changes.
- Kernel details of a rule that names a missing set: its existence check is modelled as answering, and its
  insertion as accepted; `Integrity.ReferentialIntegrity` shows that the program never holds such a rule.
- `Roles.RoleConvergence`: handlers and passes are atomic, the rule list does not change, and while the
  controller runs no command fails but those the kernel refuses. Rule edits without a change of gateway
  and deletion on the gateway node are not cleaned up by the code, so no convergence is claimed for them;
  `Deletion.DeletionLeaves` says what stays. The return mark of a gateway rule names no set and belongs to
  no id; the code never removes it.
- `Path.EndToEnd`: what happens between the nodes, in the tunnel, is not modelled, nor are connection
  tracking and the return path.
- `Controllers.Controller.SyncHandler`: the endpoints of a service are assumed to exist and every endpoint
  to name its node, as the code dereferences both; keys are pairs, so a malformed key does not occur.
- The work queue keeps a set of keys: no order, no delays, no shutdown. Leader election, client-go,
  informers and the generated clients are nondeterministic scheduling, a versioned store and in-order
  delivery. `DeleteStaticIptablesRule` has the body of `ClearStaticIptablesRule` and no caller.
- `Managers.Store.Update`: a resource version is the position in the resource's own history; deleting a
  resource and creating it again is not modelled.
- SHA-256 is an arbitrary function to 32 bytes; distinct ids are assumed where a property needs them.
- Parsing of addresses and CIDRs: resources carry parsed blocks and addresses, node addresses are parsed
  by an arbitrary function that never prints nothing, as `<nil>` is not empty.
- Default parameters of sets, the version check of `ipset` and the type prefix check: set up once, with
  constant arguments.
- `Controllers.Controller.DoGatewayProcessing`: finding the interface for an egress address is part of the
  primitive that adds the address, which may fail.
- Signals, flags, logging, manifests and scripts.
