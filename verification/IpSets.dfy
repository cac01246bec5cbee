/** The set operations of package ipset: creating, filling and replacing a set. */
module IpSets {
  import opened Base
  import opened Net
  import opened Netfilter
  import opened Programs
  import opened Hosts

  function TempName(name: string): string {
    name + "-temp"
  }

  function RefreshProgram(name: string, entries: seq<Ip>): seq<Cmd> {
    Fill(TempName(name), entries) + [SwapSets(TempName(name), name), DestroySet(TempName(name))]
  }

  /** Creates the set, or empties it, and adds the entries: the beginning of the program `prog`. */
  method FillSet(host: Host, ghost prog: seq<Cmd>, name: string, entries: seq<Ip>) returns (r: Outcome)
    requires Fill(name, entries) <= prog
    modifies host`sets, host`faults
    ensures host.Counted(r.Done?, false)
    ensures r.Done? ==> Exec(prog, old(host.Filter()), |entries| + 2) == Progress(host.Filter(), |entries| + 2)
    ensures r.Failed? ==> r.at < |entries| + 2 && Exec(prog, old(host.Filter()), r.at) == Progress(host.Filter(), r.at)
  {
    ghost var before := host.Filter();
    var ok := host.Create(name);
    if !ok { return Failed(0); }
    Step(prog, before, 0, before);
    ghost var now := host.Filter();
    ok := host.Flush(name);
    if !ok { return Failed(1); }
    Step(prog, before, 1, now);
    for i := 0 to |entries|
      invariant Exec(prog, before, i + 2) == Progress(host.Filter(), i + 2)
      invariant name in host.sets && host.faults == old(host.faults)
    {
      now := host.Filter();
      ok := host.Add(name, entries[i]);
      if !ok { return Failed(i + 2); }
      assert prog[i + 2] == Fill(name, entries)[i + 2];
      Step(prog, before, i + 2, now);
    }
    return Done;
  }

  /** Builds the new contents in a temporary set, swaps the two, and destroys the old contents. */
  method Refresh(host: Host, name: string, entries: seq<Ip>) returns (r: Outcome)
    modifies host`sets, host`faults
    ensures Ended(RefreshProgram(name, entries), old(host.Filter()), r, host.Filter())
    ensures host.Counted(r.Done?, Refused(RefreshProgram(name, entries), r, host.Filter()))
  {
    ghost var prog, before := RefreshProgram(name, entries), host.Filter();
    var n := |entries|;
    r := FillSet(host, prog, TempName(name), entries);
    if r.Failed? { return; }
    ghost var now := host.Filter();
    var ok := host.Swap(TempName(name), name);
    if !ok { return Failed(n + 2); }
    Step(prog, before, n + 2, now);
    now := host.Filter();
    ok := host.Destroy(TempName(name));
    if !ok { return Failed(n + 3); }
    Step(prog, before, n + 3, now);
    return Done;
  }

  // ---- The replacement is atomic ----

  /** What the sets hold while the replacement runs. */
  lemma {:induction false} RefreshEffect(cfg: Config, name: string, entries: seq<Ip>, k: nat)
    requires name in cfg.sets && k <= |entries| + 4
    ensures var p := Exec(RefreshProgram(name, entries), cfg, k);
            && p.cfg.chains == cfg.chains
            && name in p.cfg.sets
            && (k <= |entries| + 2 ==> p == Progress(cfg.(sets := Filled(cfg.sets, TempName(name), entries, k)), k))
            && (k >= |entries| + 3 ==> p.cfg.sets[name] == Elems(entries))
            && (k == |entries| + 3 ==>
                && p.done == k && TempName(name) in p.cfg.sets
                && p.cfg.sets[TempName(name)] == cfg.sets[name])
            && (k == |entries| + 4 ==> (p.done == k <==> !InUse(cfg, TempName(name))))
            && (p.done == |entries| + 4 ==> TempName(name) !in p.cfg.sets)
            && (forall m | m != name && m != TempName(name) ::
                (m in p.cfg.sets <==> m in cfg.sets) && (m in cfg.sets ==> p.cfg.sets[m] == cfg.sets[m]))
  {
    var prog, n := RefreshProgram(name, entries), |entries|;
    assert name != TempName(name) by { assert |TempName(name)| == |name| + 5; }
    if k <= n + 2 {
      FillEffect(cfg, prog, TempName(name), entries, k);
    } else if k == n + 3 {
      RefreshEffect(cfg, name, entries, n + 2);
      assert entries[..n] == entries;
      Step(prog, cfg, n + 2, Exec(prog, cfg, n + 2).cfg);
    } else {
      RefreshEffect(cfg, name, entries, n + 3);
      var now := Exec(prog, cfg, n + 3).cfg;
      assert InUse(now, TempName(name)) == InUse(cfg, TempName(name));
      if !InUse(now, TempName(name)) {
        Step(prog, cfg, n + 3, now);
      }
    }
  }

  /** At every step, and after a failure at any command, the live set holds exactly its old entries
      or exactly the new ones; entries a former failure left in the temporary set never get in. */
  lemma AtomicReplacement(cfg: Config, name: string, entries: seq<Ip>, k: nat)
    requires name in cfg.sets
    ensures var now := Exec(RefreshProgram(name, entries), cfg, k).cfg;
            && now.chains == cfg.chains && name in now.sets
            && now.sets[name] == if k >= |entries| + 3 then Elems(entries) else cfg.sets[name]
  {
    var n := |entries|;
    assert name != TempName(name) by { assert |TempName(name)| == |name| + 5; }
    if k > n + 4 {
      ExecBeyond(RefreshProgram(name, entries), cfg, k);
      RefreshEffect(cfg, name, entries, n + 4);
    } else {
      RefreshEffect(cfg, name, entries, k);
    }
  }

  /** Without a failing command the temporary set is gone in the end, unless a rule names it. */
  lemma TemporaryGone(cfg: Config, name: string, entries: seq<Ip>)
    requires name in cfg.sets
    ensures var now := Exec(RefreshProgram(name, entries), cfg, |entries| + 4).cfg;
            TempName(name) !in now.sets <==> !InUse(cfg, TempName(name))
  {
    var n, prog := |entries|, RefreshProgram(name, entries);
    RefreshEffect(cfg, name, entries, n + 3);
    RefreshEffect(cfg, name, entries, n + 4);
    assert |prog| == n + 4;
  }

  /** Filling in place has no such guarantee: after `New` a set that is in use is empty. */
  lemma FillingInPlaceEmpties(cfg: Config, op: Op)
    requires Ready(cfg) && (op.AddRoute? || op.AddSnat?) && op.name in cfg.sets
    ensures op.name in After(cfg, op, 2).sets && After(cfg, op, 2).sets[op.name] == {}
  {
    match op
    case AddRoute(n, ips, dst) => AddRouteEffect(cfg, n, ips, dst, 2);
    case AddSnat(n, ips, dst, eip) => AddSnatEffect(cfg, n, ips, dst, eip, 2);
  }
}
