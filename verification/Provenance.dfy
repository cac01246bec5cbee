/** Where the rules of a node come from, and which packets they are for. */
module Provenance {
  import opened Base
  import opened Net
  import opened Netfilter
  import opened Programs

  // ---- Which packets a rule matches ----

  /** Each rule of a set is for the packets that come from its members and go to its destination; */
  lemma SetRulesMatch(sets: map<string, set<Ip>>, name: string, dst: Cidr, eip: Ip, p: Packet)
    ensures Matches(sets, MarkRule(name, dst), p) <==> name in sets && p.src in sets[name] && InCidr(dst, p.dst)
    ensures Matches(sets, AcceptRule(name, dst), p) <==> name in sets && p.src in sets[name] && InCidr(dst, p.dst)
    ensures Matches(sets, SnatRule(name, dst, eip), p) <==> name in sets && p.src in sets[name] && InCidr(dst, p.dst)
  {
  }

  /** a return mark is for those that come from the destination and go to the egress address, whatever the
      sets hold. */
  lemma ReturnMarkMatches(sets: map<string, set<Ip>>, dst: Cidr, eip: Ip, p: Packet)
    ensures Matches(sets, ReturnMarkRule(dst, eip), p) <==> InCidr(dst, p.src) && p.dst == eip
  {
    CidrIsAlignedBlock(HostCidr(eip), p.dst);
  }

  /** The operation is an addition, and the packet is of its rule: from its set to its destination. */
  predicate Selects(sets: map<string, set<Ip>>, op: Op, p: Packet) {
    && (op.AddRoute? || op.AddSnat?)
    && op.name in sets && p.src in sets[op.name] && InCidr(op.dst, p.dst)
  }

  /** or it is on its way back to the egress address. */
  predicate Returns(op: Op, p: Packet) {
    op.AddSnat? && InCidr(op.dst, p.src) && p.dst == op.egressIP
  }

  // ---- Where a rule comes from ----

  /** An attempt at an addition that put its rule into the chain, or found it there. */
  ghost predicate Puts(att: Attempt, c: Chain, r: Rule) {
    && (att.op.AddRoute? || att.op.AddSnat?)
    && r == RuleOf(att.op, c)
    && EditOf(att.op, att.k, true, c) in {First, Last}
  }

  lemma OneProvenance(cfg: Config, att: Attempt, c: Chain, r: Rule)
    requires Ready(cfg) && c in cfg.chains
    requires c in After(cfg, att.op, att.k).chains && r in After(cfg, att.op, att.k).chains[c]
    ensures r in cfg.chains[c] || Puts(att, c, r)
  {
    hide After;
    ChainEffect(cfg, att.op, att.k, c);
    RemoveMembers(cfg.chains[c], RuleOf(att.op, c));
  }

  /** After any run every rule of a chain was there at the start or is the rule of an attempted addition. */
  lemma {:induction false} RuleProvenance(start: Config, atts: seq<Attempt>, c: Chain, r: Rule)
    requires Ready(start) && c in start.chains && c in Reached(start, atts).chains
        && r in Reached(start, atts).chains[c]
    ensures r in start.chains[c] || exists att | att in atts :: Puts(att, c, r)
    decreases |atts|
  {
    hide After, Puts;
    if atts != [] {
      var n := |atts| - 1;
      var before := Reached(start, atts[..n]);
      OneProvenance(before, atts[n], c, r);
      if r in before.chains[c] {
        RuleProvenance(start, atts[..n], c, r);
        if att :| att in atts[..n] && Puts(att, c, r) {
          assert att in atts;
        }
      } else {
        assert atts[n] in atts;
      }
    }
  }

  /** So a rule that came with the run and matches a packet is one of an addition that is for the packet. */
  lemma MatchProvenance(start: Config, atts: seq<Attempt>, c: Chain, r: Rule, p: Packet)
    requires Ready(start) && c in start.chains && c in Reached(start, atts).chains
        && r in Reached(start, atts).chains[c]
    requires r !in start.chains[c] && Matches(Reached(start, atts).sets, r, p)
    ensures exists att | att in atts :: Puts(att, c, r) &&
              (Selects(Reached(start, atts).sets, att.op, p) || (c == ManglePrerouting && Returns(att.op, p)))
  {
    RuleProvenance(start, atts, c, r);
    var att :| att in atts && Puts(att, c, r);
    PutMatches(Reached(start, atts).sets, att, c, r, p);
  }

  lemma PutMatches(sets: map<string, set<Ip>>, att: Attempt, c: Chain, r: Rule, p: Packet)
    requires Puts(att, c, r) && Matches(sets, r, p)
    ensures Selects(sets, att.op, p) || (c == ManglePrerouting && Returns(att.op, p))
  {
    SetRulesMatch(sets, att.op.name, att.op.dst, if att.op.AddSnat? then att.op.egressIP else 0, p);
    if att.op.AddSnat? {
      ReturnMarkMatches(sets, att.op.dst, att.op.egressIP, p);
    }
  }

  // ---- The return mark stays ----

  /** No operation removes a rule that names no set, wherever it stops. */
  lemma {:induction false} UnnamedStays(cfg: Config, later: seq<Attempt>, c: Chain, r: Rule)
    requires Ready(cfg) && c in cfg.chains && r in cfg.chains[c] && r.srcSet.None?
    ensures c in RunAll(cfg, later).chains && r in RunAll(cfg, later).chains[c]
    decreases |later|
  {
    hide After;
    if later != [] {
      var n := |later| - 1;
      UnnamedStays(cfg, later[..n], c, r);
      var now := Reached(cfg, later[..n]);
      ChainEffect(now, later[n].op, later[n].k, c);
      RemoveMembers(now.chains[c], RuleOf(later[n].op, c));
    }
  }
}
