/** The addresses behind a service. */
module Endpoints {
  import opened Base
  import opened Net

  /** An address of a subset and the node it lives on. */
  datatype Address = Address(ip: Ip, node: string)

  /** A subset holds the addresses that serve a list of ports. */
  datatype Subset = Subset(ports: seq<int>, addresses: seq<Address>)

  type Endpoints = seq<Subset>

  function Ips(addresses: seq<Address>): (ips: seq<Ip>)
    ensures |ips| == |addresses|
    ensures forall i | 0 <= i < |ips| :: ips[i] == addresses[i].ip
  {
    seq(|addresses|, i requires 0 <= i < |addresses| => addresses[i].ip)
  }

  /** What the loops over the ports of a subset append: its addresses once for each port. */
  function PerPort(addresses: seq<Address>, ports: nat): seq<Ip> {
    if ports == 0 then [] else PerPort(addresses, ports - 1) + Ips(addresses)
  }

  function Collected(subsets: Endpoints): seq<Ip>
    decreases |subsets|
  {
    if subsets == [] then []
    else
      var n := |subsets| - 1;
      Collected(subsets[..n]) + PerPort(subsets[n].addresses, |subsets[n].ports|)
  }

  /** The addresses of the service: those of the subsets that have a port. */
  ghost function Sources(subsets: Endpoints): set<Ip> {
    set s, a | s in subsets && s.ports != [] && a in s.addresses :: a.ip
  }

  method CollectSources(subsets: Endpoints) returns (ips: seq<Ip>)
    ensures ips == Collected(subsets)
  {
    ips := [];
    for s := 0 to |subsets|
      invariant ips == Collected(subsets[..s])
    {
      ghost var before := ips;
      var addresses := subsets[s].addresses;
      for p := 0 to |subsets[s].ports|
        invariant ips == before + PerPort(addresses, p)
      {
        ghost var outer := ips;
        for a := 0 to |addresses|
          invariant ips == outer + Ips(addresses)[..a]
        {
          ips := ips + [addresses[a].ip];
        }
        assert Ips(addresses)[..|addresses|] == Ips(addresses);
      }
      assert subsets[..s + 1][..s] == subsets[..s];
    }
    assert subsets[..|subsets|] == subsets;
  }

  lemma {:induction false} PerPortElements(addresses: seq<Address>, ports: nat)
    ensures Elems(PerPort(addresses, ports)) == if ports == 0 then {} else set a | a in addresses :: a.ip
  {
    if ports > 0 {
      PerPortElements(addresses, ports - 1);
      IpsElements(addresses);
      assert Elems(PerPort(addresses, ports)) == Elems(PerPort(addresses, ports - 1)) + Elems(Ips(addresses));
    }
  }

  lemma IpsElements(addresses: seq<Address>)
    ensures Elems(Ips(addresses)) == set a | a in addresses :: a.ip
  {
    forall ip | ip in Ips(addresses) ensures exists a | a in addresses :: a.ip == ip {
      var i :| 0 <= i < |addresses| && Ips(addresses)[i] == ip;
      assert addresses[i].ip == ip;
    }
    forall a | a in addresses ensures a.ip in Ips(addresses) {
      var i :| 0 <= i < |addresses| && addresses[i] == a;
      assert Ips(addresses)[i] == a.ip;
    }
  }

  /** The collected list holds exactly the service's addresses, however many ports there are and in
      whatever order the subsets come. */
  lemma {:induction false} CollectedIsSources(subsets: Endpoints)
    ensures Elems(Collected(subsets)) == Sources(subsets)
    decreases |subsets|
  {
    if subsets != [] {
      var n := |subsets| - 1;
      CollectedIsSources(subsets[..n]);
      PerPortElements(subsets[n].addresses, |subsets[n].ports|);
      assert subsets == subsets[..n] + [subsets[n]];
      assert Elems(Collected(subsets))
          == Elems(Collected(subsets[..n])) + Elems(PerPort(subsets[n].addresses, |subsets[n].ports|));
    }
  }

  /** Two listings of the same subsets give the same addresses. */
  lemma SameSubsetsSameSources(a: Endpoints, b: Endpoints)
    requires multiset(a) == multiset(b)
    ensures Elems(Collected(a)) == Elems(Collected(b))
  {
    CollectedIsSources(a);
    CollectedIsSources(b);
    assert forall s :: s in a <==> s in multiset(a);
    assert forall s :: s in b <==> s in multiset(b);
  }
}
