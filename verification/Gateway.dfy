/** The gateway role of a node: forwarding the marked packets and giving them their egress address. */
module Gateways {
  import opened Net
  import opened Netfilter
  import opened Programs
  import opened Hosts
  import opened IpSets

  function SetupProgram(): seq<Cmd> {
    [NewChain(FilterEgress), EnsureLast(FilterForward, JumpRule(FilterEgress)),
     NewChain(NatEgress), EnsureFirst(NatPostrouting, JumpRule(NatEgress))]
  }

  /** On a node that has the built-in chains the kernel refuses none of it. */
  lemma SetupNotRefused(before: Config, r: Outcome, after: Config)
    requires {NatPostrouting, FilterForward} <= before.chains.Keys
    requires Ended(SetupProgram(), before, r, after) && Refused(SetupProgram(), r, after)
    ensures r.Done?
  {
    ExecKeepsChains(SetupProgram(), before, Budget(SetupProgram(), r));
  }

  /** The commands of an addition by position. */
  lemma SnatCommands(name: string, ips: seq<Ip>, dst: Cidr, eip: Ip)
    ensures var prog, n := Program(AddSnat(name, ips, dst, eip)), |ips|;
            && |prog| == n + 5
            && prog[n + 2] == EnsureLast(FilterEgress, AcceptRule(name, dst))
            && prog[n + 3] == EnsureFirst(NatEgress, SnatRule(name, dst, eip))
            && prog[n + 4] == EnsureFirst(ManglePrerouting, ReturnMarkRule(dst, eip))
  {
  }

  class EgressGateway {
    const host: Host

    constructor (host: Host)
      ensures this.host == host
    {
      this.host := host;
    }

    /** The forward chain is entered last, the SNAT chain first. */
    method Setup() returns (r: Outcome)
      modifies host`chains, host`faults
      ensures Ended(SetupProgram(), old(host.Filter()), r, host.Filter())
      ensures host.Counted(r.Done?, Refused(SetupProgram(), r, host.Filter()))
    {
      ghost var prog, before := SetupProgram(), host.Filter();
      var ok := host.CreateChain(FilterEgress);
      if !ok { return Failed(0); }
      Step(prog, before, 0, before);
      ghost var now := host.Filter();
      ok := host.EnsureLast(FilterForward, JumpRule(FilterEgress));
      if !ok { return Failed(1); }
      Step(prog, before, 1, now);
      now := host.Filter();
      ok := host.CreateChain(NatEgress);
      if !ok { return Failed(2); }
      Step(prog, before, 2, now);
      now := host.Filter();
      ok := host.EnsureFirst(NatPostrouting, JumpRule(NatEgress));
      if !ok { return Failed(3); }
      Step(prog, before, 3, now);
      return Done;
    }

    /** Fills the source set, forwards, translates, and marks the return traffic. */
    method AddStaticIptablesRule(setName: string, sourceIPs: seq<Ip>, dst: Cidr, egressIP: Ip) returns (r: Outcome)
      modifies host`sets, host`chains, host`faults
      ensures Ended(Program(AddSnat(setName, sourceIPs, dst, egressIP)), old(host.Filter()), r, host.Filter())
      ensures host.Counted(r.Done?, Refused(Program(AddSnat(setName, sourceIPs, dst, egressIP)), r, host.Filter()))
    {
      ghost var prog, before := Program(AddSnat(setName, sourceIPs, dst, egressIP)), host.Filter();
      var n := |sourceIPs|;
      SnatCommands(setName, sourceIPs, dst, egressIP);
      r := FillSet(host, prog, setName, sourceIPs);
      if r.Failed? { return; }

      ghost var now := host.Filter();
      var ok := host.EnsureLast(FilterEgress, AcceptRule(setName, dst));
      if !ok { return Failed(n + 2); }
      Step(prog, before, n + 2, now);
      now := host.Filter();
      ok := host.EnsureFirst(NatEgress, SnatRule(setName, dst, egressIP));
      if !ok { return Failed(n + 3); }
      Step(prog, before, n + 3, now);
      now := host.Filter();
      ok := host.EnsureFirst(ManglePrerouting, ReturnMarkRule(dst, egressIP));
      if !ok { return Failed(n + 4); }
      Step(prog, before, n + 4, now);
      return Done;
    }

    /** Undoes all of it but the return mark; the SNAT rule is deleted without looking for it first. */
    method ClearStaticIptablesRule(setName: string, dst: Cidr, egressIP: Ip) returns (r: Outcome)
      modifies host`sets, host`chains, host`faults
      ensures Ended(Program(ClearSnat(setName, dst, egressIP)), old(host.Filter()), r, host.Filter())
      ensures host.Counted(r.Done?, Refused(Program(ClearSnat(setName, dst, egressIP)), r, host.Filter()))
    {
      ghost var prog, before := Program(ClearSnat(setName, dst, egressIP)), host.Filter();
      var ok := host.Delete(NatEgress, SnatRule(setName, dst, egressIP));
      if !ok { return Failed(0); }
      Step(prog, before, 0, before);
      ghost var now := host.Filter();
      ok := host.DeleteIfPresent(FilterEgress, AcceptRule(setName, dst));
      if !ok { return Failed(1); }
      Step(prog, before, 1, now);
      now := host.Filter();
      ok := host.Create(setName);
      if !ok { return Failed(2); }
      Step(prog, before, 2, now);
      now := host.Filter();
      ok := host.Flush(setName);
      if !ok { return Failed(3); }
      Step(prog, before, 3, now);
      now := host.Filter();
      ok := host.Destroy(setName);
      if !ok { return Failed(4); }
      Step(prog, before, 4, now);
      return Done;
    }
  }
}
