/** The address by which a node is reached. */
module NodeAddresses {
  import opened Base

  datatype AddressType = InternalIP | ExternalIP | OtherAddress(name: string)

  datatype NodeAddress = NodeAddress(kind: AddressType, address: string)

  /** A parsed address, printed; text that is no address prints as `<nil>`, never as nothing. */
  type IpText = s: string | s != "" witness "<nil>"

  type Parser = string -> IpText

  function OfKind(addresses: seq<NodeAddress>, kind: AddressType): seq<NodeAddress>
    decreases |addresses|
  {
    if addresses == [] then []
    else
      var n := |addresses| - 1;
      OfKind(addresses[..n], kind) + (if addresses[n].kind == kind then [addresses[n]] else [])
  }

  /** The first internal address, else the first external one. */
  function Preferred(addresses: seq<NodeAddress>, parse: Parser): Option<IpText> {
    if OfKind(addresses, InternalIP) != [] then Some(parse(OfKind(addresses, InternalIP)[0].address))
    else if OfKind(addresses, ExternalIP) != [] then Some(parse(OfKind(addresses, ExternalIP)[0].address))
    else None
  }

  /** Groups the addresses by type, then chooses. */
  method GetNodeIP(addresses: seq<NodeAddress>, parse: Parser) returns (r: Option<IpText>)
    ensures r == Preferred(addresses, parse)
  {
    var byKind: map<AddressType, seq<NodeAddress>> := map[];
    for i := 0 to |addresses|
      invariant forall k :: k in byKind <==> OfKind(addresses[..i], k) != []
      invariant forall k | k in byKind :: byKind[k] == OfKind(addresses[..i], k)
    {
      var a := addresses[i];
      byKind := byKind[a.kind := (if a.kind in byKind then byKind[a.kind] else []) + [a]];
      assert addresses[..i + 1][..i] == addresses[..i];
    }
    assert addresses[..|addresses|] == addresses;
    if InternalIP in byKind {
      return Some(parse(byKind[InternalIP][0].address));
    }
    if ExternalIP in byKind {
      return Some(parse(byKind[ExternalIP][0].address));
    }
    return None;
  }

  ghost predicate FirstOfKind(addresses: seq<NodeAddress>, i: nat, kind: AddressType) {
    i < |addresses| && addresses[i].kind == kind && forall j | 0 <= j < i :: addresses[j].kind != kind
  }

  lemma {:induction false} NoneOfKind(addresses: seq<NodeAddress>, kind: AddressType)
    ensures OfKind(addresses, kind) == [] <==> forall i | 0 <= i < |addresses| :: addresses[i].kind != kind
    decreases |addresses|
  {
    if addresses != [] {
      var n := |addresses| - 1;
      NoneOfKind(addresses[..n], kind);
      assert forall i | 0 <= i < n :: addresses[..n][i] == addresses[i];
    }
  }

  lemma {:induction false} FirstLeads(addresses: seq<NodeAddress>, i: nat, kind: AddressType)
    requires FirstOfKind(addresses, i, kind)
    ensures OfKind(addresses, kind) != [] && OfKind(addresses, kind)[0] == addresses[i]
    decreases |addresses|
  {
    var n := |addresses| - 1;
    if i < n {
      assert FirstOfKind(addresses[..n], i, kind);
      FirstLeads(addresses[..n], i, kind);
    } else {
      NoneOfKind(addresses[..n], kind);
    }
  }

  /** An internal address anywhere in the list wins over every external one; within a type the first
      wins; and there is no address exactly when there is none of either type. */
  lemma PreferenceOrder(addresses: seq<NodeAddress>, parse: Parser)
    ensures forall i: nat | FirstOfKind(addresses, i, InternalIP) ::
        Preferred(addresses, parse) == Some(parse(addresses[i].address))
    ensures (forall a | a in addresses :: a.kind != InternalIP) ==>
              forall i: nat | FirstOfKind(addresses, i, ExternalIP) ::
                  Preferred(addresses, parse) == Some(parse(addresses[i].address))
    ensures Preferred(addresses, parse).None? <==> forall a | a in addresses ::
        a.kind != InternalIP && a.kind != ExternalIP
  {
    NoneOfKind(addresses, InternalIP);
    NoneOfKind(addresses, ExternalIP);
    forall i: nat | FirstOfKind(addresses, i, InternalIP)
      ensures Preferred(addresses, parse) == Some(parse(addresses[i].address))
    {
      FirstLeads(addresses, i, InternalIP);
    }
    forall i: nat | FirstOfKind(addresses, i, ExternalIP)
      ensures OfKind(addresses, ExternalIP) != [] && OfKind(addresses, ExternalIP)[0] == addresses[i]
    {
      FirstLeads(addresses, i, ExternalIP);
    }
  }
}
