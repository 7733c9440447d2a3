/**
 Associating an OpenStack floating IP with a server: two index filters over the server's
 ports, composed by remapping the second one's indices in place, and the update of the
 floating IP with the first port that is left.
 */
module PortSelection {
  import opened Outcomes

  datatype FixedIP = FixedIP(subnet: string, address: string)

  datatype Port = Port(id: string, fixedIPs: seq<FixedIP>)

  datatype FloatingIP = FloatingIP(description: string, port: Option<string>, fixedIP: string)

  datatype Options = Options(publicIP: string, server: string, subnet: string, privateIP: string)

  datatype Step = Getting | ListingPorts | Updating

  datatype AssociateResult = GetFailed | ListFailed | Crashed | UpdateFailed | Associated

  // ---------------------------------------------------------------- selection

  predicate Increasing(s: seq<nat>) {
    forall i, j :: 0 <= i < j < |s| ==> s[i] < s[j]
  }

  /** `talgo.FindAll`: the indices whose answer is yes, from the least up. */
  function FindAll(answers: seq<bool>): (found: seq<nat>)
    ensures forall i :: 0 <= i < |found| ==> found[i] < |answers| && answers[found[i]]
    ensures Increasing(found)
    ensures forall k: nat :: k < |answers| && answers[k] ==> k in found
  {
    if answers == [] then []
    else
      var last := |answers| - 1;
      FindAll(answers[..last]) + if answers[last] then [last] else []
  }

  predicate HasSubnet(port: Port, subnet: string) {
    exists j :: 0 <= j < |port.fixedIPs| && port.fixedIPs[j].subnet == subnet
  }

  predicate HasAddress(port: Port, address: string) {
    exists j :: 0 <= j < |port.fixedIPs| && port.fixedIPs[j].address == address
  }

  /** A port that passes both filters; an empty option filters nothing. */
  predicate Suits(port: Port, subnet: string, address: string) {
    (subnet == "" || HasSubnet(port, subnet)) && (address == "" || HasAddress(port, address))
  }

  /** The list of exactly the suitable indices, from the least up. */
  ghost predicate IsSelection(selected: seq<nat>, ports: seq<Port>, subnet: string, address: string) {
    && Increasing(selected)
    && (forall i :: 0 <= i < |selected| ==> selected[i] < |ports| && Suits(ports[selected[i]], subnet, address))
    && (forall k: nat :: k < |ports| && Suits(ports[k], subnet, address) ==> k in selected)
  }

  /** What a selection holds, in terms of the fixed IPs: an empty option selects all ports. */
  lemma SelectionHolds(selected: seq<nat>, ports: seq<Port>, subnet: string, address: string)
    requires IsSelection(selected, ports, subnet, address)
    ensures forall i, j :: 0 <= i < j < |selected| ==> selected[i] < selected[j]
    ensures forall k: nat :: k in selected <==>
              && k < |ports|
              && (subnet == "" || exists f :: f in ports[k].fixedIPs && f.subnet == subnet)
              && (address == "" || exists f :: f in ports[k].fixedIPs && f.address == address)
  {
    forall k: nat | k < |ports|
      ensures Suits(ports[k], subnet, address) <==>
              && (subnet == "" || exists f :: f in ports[k].fixedIPs && f.subnet == subnet)
              && (address == "" || exists f :: f in ports[k].fixedIPs && f.address == address)
    {
      SuitsByFixedIPs(ports[k], subnet, address);
    }
  }

  lemma SuitsByFixedIPs(port: Port, subnet: string, address: string)
    ensures Suits(port, subnet, address) <==>
            && (subnet == "" || exists f :: f in port.fixedIPs && f.subnet == subnet)
            && (address == "" || exists f :: f in port.fixedIPs && f.address == address)
  {
    if f :| f in port.fixedIPs && f.subnet == subnet {
      var j :| 0 <= j < |port.fixedIPs| && port.fixedIPs[j] == f;
      assert HasSubnet(port, subnet);
    }
    if f :| f in port.fixedIPs && f.address == address {
      var j :| 0 <= j < |port.fixedIPs| && port.fixedIPs[j] == f;
      assert HasAddress(port, address);
    }
  }

  /** Without options every port is selected, so the first one is the first. */
  lemma EverythingSelected(selected: seq<nat>, ports: seq<Port>)
    requires IsSelection(selected, ports, "", "")
    ensures |selected| == |ports| && forall k :: 0 <= k < |ports| ==> selected[k] == k
  {
    var all := seq(|ports|, i requires 0 <= i < |ports| => i as nat);
    SelectionHolds(selected, ports, "", "");
    forall k: nat
      ensures k in selected <==> k in all
    {
      if k < |ports| {
        assert all[k] == k;
      }
    }
    IncreasingIsUnique(selected, all);
  }

  /** Both filters of `Associate`, with the remapping of the second one's result. */
  method SelectPorts(ports: seq<Port>, subnet: string, address: string) returns (selected: array<nat>)
    ensures fresh(selected)
    ensures IsSelection(selected[..], ports, subnet, address)
  {
    selected := AllPorts(ports);
    if subnet != "" {
      var found := FindAll(seq(|ports|, i requires 0 <= i < |ports| => HasSubnet(ports[i], subnet)));
      selected := new nat[|found|](i requires 0 <= i < |found| => found[i]);
      assert selected[..] == found;
    }
    if address != "" {
      selected := FilterByAddress(ports, subnet, address, selected);
    }
  }

  method AllPorts(ports: seq<Port>) returns (selected: array<nat>)
    ensures fresh(selected)
    ensures IsSelection(selected[..], ports, "", "")
  {
    selected := new nat[|ports|];
    for i := 0 to |ports|
      invariant forall k :: 0 <= k < i ==> selected[k] == k
    {
      selected[i] := i;
    }
    forall k: nat | k < |ports|
      ensures k in selected[..]
    {
      assert selected[..][k] == k;
    }
  }

  /** The second filter: it searches positions of `selected`, then turns them into positions of `ports`. */
  method FilterByAddress(ports: seq<Port>, subnet: string, address: string, selected: array<nat>)
    returns (selection: array<nat>)
    requires address != ""
    requires IsSelection(selected[..], ports, subnet, "")
    ensures fresh(selection)
    ensures IsSelection(selection[..], ports, subnet, address)
  {
    var s := selected[..];
    var answers := seq(|s|, i requires 0 <= i < |s| => HasAddress(ports[s[i]], address));
    var found := FindAll(answers);
    selection := new nat[|found|](i requires 0 <= i < |found| => found[i]);
    for i := 0 to selection.Length
      invariant forall k :: 0 <= k < i ==> selection[k] == s[found[k]]
      invariant forall k :: i <= k < selection.Length ==> selection[k] == found[k]
    {
      selection[i] := selected[selection[i]];
    }
    RemappedSelection(ports, subnet, address, s, answers, selection[..]);
  }

  /** Composing the two index lists selects what both filters accept. */
  lemma RemappedSelection(
    ports: seq<Port>, subnet: string, address: string, s: seq<nat>, answers: seq<bool>, r: seq<nat>)
    requires address != ""
    requires IsSelection(s, ports, subnet, "")
    requires |answers| == |s|
    requires forall i :: 0 <= i < |s| ==> answers[i] == HasAddress(ports[s[i]], address)
    requires |r| == |FindAll(answers)|
    requires forall k :: 0 <= k < |r| ==> r[k] == s[FindAll(answers)[k]]
    ensures IsSelection(r, ports, subnet, address)
  {
    var found := FindAll(answers);
    forall k: nat | k < |ports| && Suits(ports[k], subnet, address)
      ensures k in r
    {
      assert k in s;
      var i: nat :| i < |s| && s[i] == k;
      assert i in found;
      var j :| 0 <= j < |found| && found[j] == i;
      assert r[j] == k;
    }
  }

  ghost predicate SameMembers(a: seq<nat>, b: seq<nat>) {
    forall k: nat :: k in a <==> k in b
  }

  /** An increasing list is determined by its members. */
  lemma {:induction false} IncreasingIsUnique(a: seq<nat>, b: seq<nat>)
    requires Increasing(a) && Increasing(b)
    requires SameMembers(a, b)
    ensures a == b
  {
    if a == [] || b == [] {
      SomeMember(a, b);
    } else {
      SameButLast(a, b);
      IncreasingIsUnique(a[..|a| - 1], b[..|b| - 1]);
      assert a == a[..|a| - 1] + [a[|a| - 1]];
      assert b == b[..|b| - 1] + [b[|b| - 1]];
    }
  }

  lemma SomeMember(a: seq<nat>, b: seq<nat>)
    requires SameMembers(a, b)
    ensures a == [] <==> b == []
  {
    if a != [] {
      assert a[0] in b;
    }
    if b != [] {
      assert b[0] in a;
    }
  }

  lemma SameButLast(a: seq<nat>, b: seq<nat>)
    requires Increasing(a) && Increasing(b) && a != [] && b != []
    requires SameMembers(a, b)
    ensures a[|a| - 1] == b[|b| - 1]
    ensures SameMembers(a[..|a| - 1], b[..|b| - 1])
  {
    LastIsGreatest(a, b);
    LastIsGreatest(b, a);
    var a', b' := a[..|a| - 1], b[..|b| - 1];
    forall k: nat
      ensures k in a' <==> k in b'
    {
      AllButLast(a, k);
      AllButLast(b, k);
    }
  }

  lemma AllButLast(a: seq<nat>, k: nat)
    requires Increasing(a) && a != []
    ensures k in a[..|a| - 1] <==> k in a && k != a[|a| - 1]
  {
    assert a == a[..|a| - 1] + [a[|a| - 1]];
  }

  lemma LastIsGreatest(a: seq<nat>, b: seq<nat>)
    requires Increasing(a) && a != [] && b != []
    requires forall k: nat :: k in b ==> k in a
    ensures b[|b| - 1] <= a[|a| - 1]
  {
    assert b[|b| - 1] in a;
  }

  /** The two composed filters are the one filter that asks for both: there is no other selection. */
  lemma SelectionIsOneFilter(selected: seq<nat>, ports: seq<Port>, subnet: string, address: string)
    requires IsSelection(selected, ports, subnet, address)
    ensures selected == FindAll(seq(|ports|, i requires 0 <= i < |ports| => Suits(ports[i], subnet, address)))
  {
    var filtered := FindAll(seq(|ports|, i requires 0 <= i < |ports| => Suits(ports[i], subnet, address)));
    forall k: nat
      ensures k in selected <==> k in filtered
    {
    }
    IncreasingIsUnique(selected, filtered);
  }

  // ---------------------------------------------------------------- association

  /**
   The part of the networking service that `Associate` calls; a failing call has no effect.
   `failed` records the failed calls, in order.
   */
  class Neutron {
    var floating: map<string, FloatingIP>
    const ports: map<string, seq<Port>>
    ghost var failed: seq<Step>

    constructor (floating: map<string, FloatingIP>, ports: map<string, seq<Port>>)
      ensures this.floating == floating && this.ports == ports && failed == []
    {
      this.floating, this.ports := floating, ports;
      failed := [];
    }

    method GetFloatingIP(id: string) returns (r: Option<FloatingIP>)
      modifies this`failed
      ensures r.Some? ==> id in floating && r.value == floating[id]
      ensures failed == Extended(old(failed), r.None?, Getting)
    {
      var found: bool := *;
      found := found && id in floating;
      failed := Extended(failed, !found, Getting);
      return if found then Some(floating[id]) else None;
    }

    method ListPorts(server: string) returns (r: Option<seq<Port>>)
      modifies this`failed
      ensures r.Some? ==> r.value == PortsOf(server)
      ensures failed == Extended(old(failed), r.None?, ListingPorts)
    {
      if * {
        failed := failed + [ListingPorts];
        return None;
      }
      return Some(PortsOf(server));
    }

    function PortsOf(server: string): seq<Port> {
      if server in ports then ports[server] else []
    }

    /** An update without a fixed IP leaves the choice of it to the service. */
    method UpdateFloatingIP(id: string, description: string, port: string, fixedIP: string)
      returns (ok: bool, ghost chosen: string)
      modifies this
      ensures fixedIP != "" ==> chosen == fixedIP
      ensures floating == if ok then old(floating)[id := FloatingIP(description, Some(port), chosen)] else old(floating)
      ensures failed == Extended(old(failed), !ok, Updating)
    {
      var choice: string := *;
      if fixedIP != "" {
        choice := fixedIP;
      }
      chosen := choice;
      ok := *;
      failed := Extended(failed, !ok, Updating);
      if ok {
        floating := floating[id := FloatingIP(description, Some(port), choice)];
      }
    }
  }

  /** The least suitable index. */
  ghost predicate IsFirst(k: nat, ports: seq<Port>, subnet: string, address: string) {
    && k < |ports| && Suits(ports[k], subnet, address)
    && (forall j: nat :: j < k ==> !Suits(ports[j], subnet, address))
  }

  lemma FirstOfSelection(selected: seq<nat>, ports: seq<Port>, subnet: string, address: string)
    requires IsSelection(selected, ports, subnet, address)
    ensures selected == [] ==> forall k: nat :: k < |ports| ==> !Suits(ports[k], subnet, address)
    ensures selected != [] ==> IsFirst(selected[0], ports, subnet, address)
  {
    if selected != [] {
      forall j: nat | j < selected[0]
        ensures !Suits(ports[j], subnet, address)
      {
        assert j !in selected;
      }
    }
  }

  /**
   `Associate`: it indexes the selection without testing it for emptiness. `chosen` is the
   fixed IP that the floating IP is bound to; the service picks it if the caller does not.
   */
  method Associate(neutron: Neutron, o: Options) returns (r: AssociateResult, ghost chosen: string)
    modifies neutron
    ensures match r
            case GetFailed => neutron.failed == old(neutron.failed) + [Getting]
            case ListFailed => neutron.failed == old(neutron.failed) + [ListingPorts]
            case UpdateFailed => neutron.failed == old(neutron.failed) + [Updating]
            case _ => neutron.failed == old(neutron.failed)
    ensures r != Associated ==> neutron.floating == old(neutron.floating)
    ensures r.Crashed? ==> forall port :: port in neutron.PortsOf(o.server) ==>
                             || (o.subnet != "" && forall f :: f in port.fixedIPs ==> f.subnet != o.subnet)
                             || (o.privateIP != "" && forall f :: f in port.fixedIPs ==> f.address != o.privateIP)
    ensures r.UpdateFailed? || r.Associated? ==>
              exists k: nat :: IsFirst(k, neutron.PortsOf(o.server), o.subnet, o.privateIP)
    ensures o.privateIP != "" ==> chosen == o.privateIP
    ensures r.Associated? ==>
              && o.publicIP in old(neutron.floating)
              && forall k: nat :: IsFirst(k, neutron.PortsOf(o.server), o.subnet, o.privateIP) ==>
                   && neutron.floating == old(neutron.floating)[o.publicIP :=
                        FloatingIP(old(neutron.floating)[o.publicIP].description,
                                   Some(neutron.PortsOf(o.server)[k].id), chosen)]
                   && (o.subnet != "" && o.privateIP != "" && BindsBoth(neutron.PortsOf(o.server)) ==>
                         HasBoth(neutron.PortsOf(o.server)[k], o.subnet, o.privateIP))
                   && (o.subnet != "" && o.privateIP != "" && DistinctAddresses(neutron.PortsOf(o.server)) ==>
                         (HasBoth(neutron.PortsOf(o.server)[k], o.subnet, o.privateIP) <==>
                          SomePortHasBoth(neutron.PortsOf(o.server), o.subnet, o.privateIP)))
  {
    chosen := o.privateIP;
    var fip := neutron.GetFloatingIP(o.publicIP);
    if fip.None? {
      return GetFailed, chosen;
    }
    var list := neutron.ListPorts(o.server);
    if list.None? {
      return ListFailed, chosen;
    }
    var ports := list.value;
    var selected := SelectPorts(ports, o.subnet, o.privateIP);
    FirstOfSelection(selected[..], ports, o.subnet, o.privateIP);
    if selected.Length == 0 {
      NothingSuits(ports, o.subnet, o.privateIP);
      return Crashed, chosen;
    }
    var first := selected[0];
    assert IsFirst(first, ports, o.subnet, o.privateIP);
    var ok;
    ok, chosen := neutron.UpdateFloatingIP(o.publicIP, fip.value.description, ports[first].id, o.privateIP);
    if !ok {
      return UpdateFailed, chosen;
    }
    FirstIsUnique(first, ports, o.subnet, o.privateIP);
    BoundPortHasBoth(ports);
    if DistinctAddresses(ports) && o.subnet != "" && o.privateIP != "" {
      BoundPortIsTheOne(ports, first, o.subnet, o.privateIP);
    }
    return Associated, chosen;
  }

  /** If no port suits, each one misses a subnet or an address that was asked for. */
  lemma NothingSuits(ports: seq<Port>, subnet: string, address: string)
    requires forall k: nat :: k < |ports| ==> !Suits(ports[k], subnet, address)
    ensures forall port :: port in ports ==>
              || (subnet != "" && forall f :: f in port.fixedIPs ==> f.subnet != subnet)
              || (address != "" && forall f :: f in port.fixedIPs ==> f.address != address)
  {
    forall port | port in ports
      ensures || (subnet != "" && forall f :: f in port.fixedIPs ==> f.subnet != subnet)
              || (address != "" && forall f :: f in port.fixedIPs ==> f.address != address)
    {
      var k :| 0 <= k < |ports| && ports[k] == port;
      SuitsByFixedIPs(port, subnet, address);
    }
  }

  /** The port that is used has the subnet and the address asked for, and none before it has. */
  lemma FirstByFixedIPs(k: nat, ports: seq<Port>, subnet: string, address: string)
    requires IsFirst(k, ports, subnet, address)
    ensures k < |ports|
    ensures subnet == "" || exists f :: f in ports[k].fixedIPs && f.subnet == subnet
    ensures address == "" || exists f :: f in ports[k].fixedIPs && f.address == address
    ensures forall j, f, g :: 0 <= j < k && f in ports[j].fixedIPs && g in ports[j].fixedIPs
                              ==> (subnet != "" && f.subnet != subnet) || (address != "" && g.address != address)
    ensures subnet == "" && address == "" ==> k == 0
  {
    SuitsByFixedIPs(ports[k], subnet, address);
    forall j, f, g | 0 <= j < k && f in ports[j].fixedIPs && g in ports[j].fixedIPs
      ensures (subnet != "" && f.subnet != subnet) || (address != "" && g.address != address)
    {
      SuitsByFixedIPs(ports[j], subnet, address);
    }
    if subnet == "" && address == "" && k > 0 {
      SuitsByFixedIPs(ports[0], subnet, address);
    }
  }

  lemma FirstIsUnique(first: nat, ports: seq<Port>, subnet: string, address: string)
    requires IsFirst(first, ports, subnet, address)
    ensures forall k: nat :: IsFirst(k, ports, subnet, address) ==> k == first
  {
    forall k: nat | IsFirst(k, ports, subnet, address)
      ensures k == first
    {
      assert k >= first && k <= first;
    }
  }

  // ---------------------------------------------------------------- what the two filters do not check

  /** One fixed IP of the port has both the subnet and the address. */
  predicate HasBoth(port: Port, subnet: string, address: string) {
    exists j: nat :: j < |port.fixedIPs| && port.fixedIPs[j] == FixedIP(subnet, address)
  }

  /** Fixed IPs `i` and `j` of a port can be asked for as a subnet and an address. */
  predicate Asked(port: Port, i: nat, j: nat) {
    && i < |port.fixedIPs| && j < |port.fixedIPs|
    && port.fixedIPs[i].subnet != "" && port.fixedIPs[j].address != ""
  }

  /** Every address of the port occurs on every subnet of it. */
  ghost predicate AllPairs(port: Port) {
    forall i: nat, j: nat :: Asked(port, i, j) ==> HasBoth(port, port.fixedIPs[i].subnet, port.fixedIPs[j].address)
  }

  /** Of every pair that a port of the list is the first to offer, the port has both in one fixed IP. */
  ghost predicate BindsBoth(ports: seq<Port>) {
    forall k: nat, i: nat, j: nat :: k < |ports| && Asked(ports[k], i, j) ==>
      var subnet, address := ports[k].fixedIPs[i].subnet, ports[k].fixedIPs[j].address;
      IsFirst(k, ports, subnet, address) ==> HasBoth(ports[k], subnet, address)
  }

  /** No address occurs twice among the ports, on two of them or on one. */
  ghost predicate DistinctAddresses(ports: seq<Port>) {
    forall k: nat, i: nat, l: nat, j: nat ::
      k < |ports| && i < |ports[k].fixedIPs| && l < |ports| && j < |ports[l].fixedIPs|
      && ports[k].fixedIPs[i].address == ports[l].fixedIPs[j].address
      ==> k == l && i == j
  }

  /** One of the ports has the address on the subnet. */
  ghost predicate SomePortHasBoth(ports: seq<Port>, subnet: string, address: string) {
    exists l: nat :: l < |ports| && HasBoth(ports[l], subnet, address)
  }

  /** All fixed IPs of the port lie in one subnet. */
  predicate OneSubnet(port: Port) {
    forall i, j :: 0 <= i < |port.fixedIPs| && 0 <= j < |port.fixedIPs| ==>
      port.fixedIPs[i].subnet == port.fixedIPs[j].subnet
  }

  /** No fixed IP of the port lacks a subnet or an address. */
  predicate NothingEmpty(port: Port) {
    forall i :: 0 <= i < |port.fixedIPs| ==> port.fixedIPs[i].subnet != "" && port.fixedIPs[i].address != ""
  }

  /** The filters are independent: a port can pass each with a different one of its fixed IPs. */
  lemma FiltersCanSplit(subnet: string, other: string, address: string, far: string)
    requires subnet != "" && address != "" && subnet != other && address != far
    ensures var port := Port("p", [FixedIP(subnet, far), FixedIP(other, address)]);
            Suits(port, subnet, address) && !HasBoth(port, subnet, address)
  {
    var port := Port("p", [FixedIP(subnet, far), FixedIP(other, address)]);
    assert port.fixedIPs[0].subnet == subnet && port.fixedIPs[1].address == address;
  }

  /** A port that passes both filters passes them with some two of its fixed IPs. */
  lemma SuitsIsAsked(port: Port, subnet: string, address: string)
    requires subnet != "" && address != ""
    ensures Suits(port, subnet, address) <==>
            exists i: nat, j: nat :: Asked(port, i, j)
                                     && port.fixedIPs[i].subnet == subnet && port.fixedIPs[j].address == address
  {
    if Suits(port, subnet, address) {
      var i :| 0 <= i < |port.fixedIPs| && port.fixedIPs[i].subnet == subnet;
      var j :| 0 <= j < |port.fixedIPs| && port.fixedIPs[j].address == address;
      assert Asked(port, i, j);
    }
  }

  /** For all requests, passing the filters means having both exactly on the ports with all pairs. */
  lemma FiltersMeetOnAllPairs(port: Port)
    ensures (forall subnet, address :: subnet != "" && address != "" && Suits(port, subnet, address)
                                       ==> HasBoth(port, subnet, address))
            <==> AllPairs(port)
  {
    if AllPairs(port) {
      forall subnet, address | subnet != "" && address != "" && Suits(port, subnet, address)
        ensures HasBoth(port, subnet, address)
      {
        SuitsIsAsked(port, subnet, address);
      }
    } else {
      var i: nat, j: nat :| Asked(port, i, j)
                            && !HasBoth(port, port.fixedIPs[i].subnet, port.fixedIPs[j].address);
      SuitsIsAsked(port, port.fixedIPs[i].subnet, port.fixedIPs[j].address);
    }
  }

  /** With distinct addresses, as on a real port, that is: all fixed IPs lie in one subnet. */
  lemma AllPairsIsOneSubnet(port: Port)
    requires forall i :: 0 <= i < |port.fixedIPs| ==> port.fixedIPs[i].address != ""
    requires forall i, j :: 0 <= i < j < |port.fixedIPs| ==> port.fixedIPs[i].address != port.fixedIPs[j].address
    ensures AllPairs(port) <==> OneSubnet(port)
  {
    if AllPairs(port) {
      forall i: nat, j: nat | i < |port.fixedIPs| && j < |port.fixedIPs| && port.fixedIPs[i].subnet != ""
        ensures port.fixedIPs[i].subnet == port.fixedIPs[j].subnet
      {
        assert Asked(port, i, j);
      }
    } else {
      var i: nat, j: nat :| Asked(port, i, j)
                            && !HasBoth(port, port.fixedIPs[i].subnet, port.fixedIPs[j].address);
      assert port.fixedIPs[j] == FixedIP(port.fixedIPs[j].subnet, port.fixedIPs[j].address);
    }
  }

  /** For all requests, the port that `Associate` binds has both exactly on the lists of `BindsBoth`. */
  lemma BoundPortHasBoth(ports: seq<Port>)
    ensures (forall subnet, address, k: nat ::
               subnet != "" && address != "" && IsFirst(k, ports, subnet, address)
               ==> HasBoth(ports[k], subnet, address))
            <==> BindsBoth(ports)
  {
    if BindsBoth(ports) {
      forall subnet, address, k: nat | subnet != "" && address != "" && IsFirst(k, ports, subnet, address)
        ensures HasBoth(ports[k], subnet, address)
      {
        SuitsIsAsked(ports[k], subnet, address);
      }
    }
  }

  /** It is enough that each port has all pairs, and on a list of one port it is needed. */
  lemma AllPairsBindBoth(ports: seq<Port>)
    ensures (forall k :: 0 <= k < |ports| ==> AllPairs(ports[k])) ==> BindsBoth(ports)
    ensures |ports| == 1 && BindsBoth(ports) ==> AllPairs(ports[0])
  {
    if |ports| == 1 && BindsBoth(ports) {
      forall i: nat, j: nat | Asked(ports[0], i, j)
        ensures HasBoth(ports[0], ports[0].fixedIPs[i].subnet, ports[0].fixedIPs[j].address)
      {
        SuitsIsAsked(ports[0], ports[0].fixedIPs[i].subnet, ports[0].fixedIPs[j].address);
        assert IsFirst(0, ports, ports[0].fixedIPs[i].subnet, ports[0].fixedIPs[j].address);
      }
    }
  }

  /** With distinct addresses, a port that has the address is the only one that does. */
  lemma OnlyOneHasAddress(ports: seq<Port>, k: nat, l: nat, subnet: string, address: string)
    requires DistinctAddresses(ports) && k < |ports| && l < |ports|
    requires HasAddress(ports[k], address) && HasBoth(ports[l], subnet, address)
    ensures k == l
  {
    var i :| 0 <= i < |ports[k].fixedIPs| && ports[k].fixedIPs[i].address == address;
    var j: nat :| j < |ports[l].fixedIPs| && ports[l].fixedIPs[j] == FixedIP(subnet, address);
    assert ports[k].fixedIPs[i].address == ports[l].fixedIPs[j].address;
  }

  /** With distinct addresses, the port used has both exactly if some port of the list has both. */
  lemma BoundPortIsTheOne(ports: seq<Port>, k: nat, subnet: string, address: string)
    requires DistinctAddresses(ports)
    requires subnet != "" && address != "" && IsFirst(k, ports, subnet, address)
    ensures HasBoth(ports[k], subnet, address) <==> SomePortHasBoth(ports, subnet, address)
  {
    if SomePortHasBoth(ports, subnet, address) {
      var l: nat :| l < |ports| && HasBoth(ports[l], subnet, address);
      OnlyOneHasAddress(ports, k, l, subnet, address);
    }
  }

  /** With distinct addresses, a pair that a port offers is offered by no port before it. */
  lemma OfferedFirst(ports: seq<Port>, k: nat, i: nat, j: nat)
    requires DistinctAddresses(ports) && k < |ports| && Asked(ports[k], i, j)
    ensures IsFirst(k, ports, ports[k].fixedIPs[i].subnet, ports[k].fixedIPs[j].address)
  {
    var subnet, address := ports[k].fixedIPs[i].subnet, ports[k].fixedIPs[j].address;
    SuitsIsAsked(ports[k], subnet, address);
    forall l: nat | l < k
      ensures !HasAddress(ports[l], address)
    {
      assert address == ports[k].fixedIPs[j].address;
    }
  }

  lemma BindsBothIsAllPairs(ports: seq<Port>)
    requires DistinctAddresses(ports)
    ensures BindsBoth(ports) <==> forall k :: 0 <= k < |ports| ==> AllPairs(ports[k])
  {
    AllPairsBindBoth(ports);
    if BindsBoth(ports) {
      forall k: nat, i: nat, j: nat | k < |ports| && Asked(ports[k], i, j)
        ensures HasBoth(ports[k], ports[k].fixedIPs[i].subnet, ports[k].fixedIPs[j].address)
      {
        OfferedFirst(ports, k, i, j);
      }
    }
  }

  /**
   With distinct addresses and nothing empty, the port used has both, for all requests, exactly
   if each port lies in one subnet.
   */
  lemma BoundPortByStructure(ports: seq<Port>)
    requires DistinctAddresses(ports)
    requires forall k :: 0 <= k < |ports| ==> NothingEmpty(ports[k])
    ensures BindsBoth(ports) <==> forall k :: 0 <= k < |ports| ==> OneSubnet(ports[k])
  {
    BindsBothIsAllPairs(ports);
    forall k: nat | k < |ports|
      ensures AllPairs(ports[k]) <==> OneSubnet(ports[k])
    {
      forall i: nat, j: nat | i < j < |ports[k].fixedIPs|
        ensures ports[k].fixedIPs[i].address != ports[k].fixedIPs[j].address
      {
      }
      AllPairsIsOneSubnet(ports[k]);
    }
  }
}
