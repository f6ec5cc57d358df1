/** The netplan side of the VM registry: which interface carries the routes, and how the route of a
    management subnet is put in and taken out. */
module Netplan {
  import opened Sequences
  import opened Cidr

  type Subnet = n: Net | n.prefix <= 32 witness Net(0, 0)

  datatype Ip = Address(value: nat) | NotAnAddress(text: string)

  /** `Other` stands for entries that are no mappings, have no target or an unreadable one. */
  datatype Route = Default(gateway: Ip) | To(net: Subnet, via: Ip) | Other(text: string)

  /** `Malformed`: the interface, or its `routes`, has the wrong shape. */
  datatype Iface = Malformed(name: string) | Iface(name: string, routes: seq<Route>)

  function RoutesOf(i: Iface): seq<Route> {
    if i.Iface? then i.routes else []
  }

  predicate HasDefault(i: Iface) {
    exists r :: r in RoutesOf(i) && r.Default?
  }

  function IsTo(net: Subnet): Route -> bool {
    (r: Route) => r.To? && r.net == net
  }

  function IsNotTo(net: Subnet): Route -> bool {
    (r: Route) => !(r.To? && r.net == net)
  }

  /** The route catches some address of `net`. */
  function Touches(net: Subnet): Route -> bool {
    (r: Route) => r.To? && r.net.Overlaps(net)
  }

  /** Index of the first interface with a default route, or the length. */
  function DefaultIndex(ifaces: seq<Iface>): (j: nat)
    ensures j <= |ifaces|
    ensures j < |ifaces| ==> HasDefault(ifaces[j])
    ensures forall k :: 0 <= k < j ==> !HasDefault(ifaces[k])
  {
    if ifaces == [] || HasDefault(ifaces[0]) then 0 else 1 + DefaultIndex(ifaces[1..])
  }

  /** The interface that carries the routes: the first with a default route, else the first. */
  function Selected(ifaces: seq<Iface>): Option<nat> {
    if ifaces == [] then None
    else
      var j := if DefaultIndex(ifaces) < |ifaces| then DefaultIndex(ifaces) else 0;
      if ifaces[j].Malformed? then None else Some(j)
  }

  lemma SelectedIsIface(ifaces: seq<Iface>)
    requires Selected(ifaces).Some?
    ensures Selected(ifaces).value < |ifaces| && ifaces[Selected(ifaces).value].Iface?
  {
  }

  function Put(ifaces: seq<Iface>, j: nat, routes: seq<Route>): (r: seq<Iface>)
    requires j < |ifaces|
    ensures |r| == |ifaces|
  {
    ifaces[j := Iface(ifaces[j].name, routes)]
  }

  function UpsertIn(routes: seq<Route>, net: Subnet, via: Ip): seq<Route> {
    if First(routes, IsTo(net)).Some? then ReplaceFirst(routes, IsTo(net), To(net, via)) else routes + [To(net, via)]
  }

  /** The routes after a VM gave up `previous` for `next`, reached at `via`. */
  function Rerouted(routes: seq<Route>, previous: Option<Subnet>, next: Option<Subnet>, via: Ip): seq<Route> {
    var kept := if previous.Some? && previous != next then Filter(routes, IsNotTo(previous.value)) else routes;
    if next.Some? then UpsertIn(kept, next.value, via) else kept
  }

  /** The whole change of the netplan, or nothing when an exception stops it. */
  function Replanned(ifaces: seq<Iface>, previous: Option<Subnet>, next: Option<Subnet>, via: Ip): Option<seq<Iface>> {
    if Selected(ifaces).None? || (next.Some? && via.NotAnAddress?) then None
    else
      SelectedIsIface(ifaces);
      Some(Put(ifaces, Selected(ifaces).value, Rerouted(RoutesOf(ifaces[Selected(ifaces).value]), previous, next, via)))
  }

  // ----- the loops -----

  method FindContainer(ifaces: seq<Iface>) returns (selected: Option<nat>)
    ensures selected == Selected(ifaces)
  {
    if ifaces == [] {
      return None;
    }
    var j := 0;
    while j < |ifaces| && !HasDefault(ifaces[j])
      invariant 0 <= j <= |ifaces|
      invariant forall k :: 0 <= k < j ==> !HasDefault(ifaces[k])
    {
      j := j + 1;
    }
    var chosen := if j < |ifaces| then j else 0;
    return if ifaces[chosen].Malformed? then None else Some(chosen);
  }

  /** `_upsert_netplan_route`: the first route to the subnet is redirected, else one is appended. */
  method Upsert(ifaces: seq<Iface>, net: Subnet, via: Ip) returns (r: Option<seq<Iface>>)
    ensures r == Replanned(ifaces, None, Some(net), via)
  {
    var selected := FindContainer(ifaces);
    if selected.None? || via.NotAnAddress? {
      return None;
    }
    SelectedIsIface(ifaces);
    var routes := ifaces[selected.value].routes;
    var i := 0;
    while i < |routes|
      invariant 0 <= i <= |routes|
      invariant forall k :: 0 <= k < i ==> !IsTo(net)(routes[k])
    {
      if routes[i].To? && routes[i].net == net {
        FirstAt(routes, IsTo(net), i, To(net, via));
        return Some(Put(ifaces, selected.value, routes[i := To(net, via)]));
      }
      i := i + 1;
    }
    FirstSome(routes, IsTo(net));
    return Some(Put(ifaces, selected.value, routes + [To(net, via)]));
  }

  /** `_remove_netplan_route`: every route to the subnet is dropped, everything else is kept. */
  method Remove(ifaces: seq<Iface>, net: Subnet) returns (r: Option<seq<Iface>>)
    ensures r == Replanned(ifaces, Some(net), None, Address(0))
  {
    var selected := FindContainer(ifaces);
    if selected.None? {
      return None;
    }
    SelectedIsIface(ifaces);
    var routes := ifaces[selected.value].routes;
    var filtered := [];
    for i := 0 to |routes|
      invariant filtered == Filter(routes[..i], IsNotTo(net))
    {
      FilterSnoc(routes, i, IsNotTo(net));
      if !(routes[i].To? && routes[i].net == net) {
        filtered := filtered + [routes[i]];
      }
    }
    assert routes[..|routes|] == routes;
    return Some(Put(ifaces, selected.value, filtered));
  }

  /** Both steps one after the other, as the update of a VM takes them. */
  method Replan(ifaces: seq<Iface>, previous: Option<Subnet>, next: Option<Subnet>, via: Ip)
    returns (r: Option<seq<Iface>>)
    requires previous.Some? || next.Some?
    ensures r == Replanned(ifaces, previous, next, via)
  {
    r := Some(ifaces);
    if previous.Some? && previous != next {
      r := Remove(ifaces, previous.value);
      if r.None? {
        return;
      }
      if next.Some? {
        ReplanInSteps(ifaces, previous, next, via);
      }
    }
    if next.Some? {
      r := Upsert(r.value, next.value, via);
    }
  }

  // ----- the selected interface stays selected -----

  lemma {:induction false} ReplaceKeepsDefaults(routes: seq<Route>, net: Subnet, via: Ip)
    ensures forall r: Route :: r.Default? ==> (r in ReplaceFirst(routes, IsTo(net), To(net, via)) <==> r in routes)
  {
    if routes != [] && !IsTo(net)(routes[0]) {
      ReplaceKeepsDefaults(routes[1..], net, via);
      assert routes == [routes[0]] + routes[1..];
    } else if routes != [] {
      assert routes == [routes[0]] + routes[1..];
    }
  }

  lemma DefaultsStay(routes: seq<Route>, previous: Option<Subnet>, next: Option<Subnet>, via: Ip)
    ensures forall r: Route :: r.Default? ==> (r in Rerouted(routes, previous, next, via) <==> r in routes)
  {
    var kept := if previous.Some? && previous != next then Filter(routes, IsNotTo(previous.value)) else routes;
    if previous.Some? {
      FilterMembers(routes, IsNotTo(previous.value));
    }
    if next.Some? {
      ReplaceKeepsDefaults(kept, next.value, via);
    }
  }

  lemma SelectionStays(ifaces: seq<Iface>, previous: Option<Subnet>, next: Option<Subnet>, via: Ip)
    requires Replanned(ifaces, previous, next, via).Some?
    ensures Selected(Replanned(ifaces, previous, next, via).value) == Selected(ifaces)
  {
    SelectedIsIface(ifaces);
    var j := Selected(ifaces).value;
    var ifaces' := Replanned(ifaces, previous, next, via).value;
    DefaultsStay(RoutesOf(ifaces[j]), previous, next, via);
    assert forall k :: 0 <= k < |ifaces| ==> HasDefault(ifaces'[k]) == HasDefault(ifaces[k]);
    SameDefaultIndex(ifaces, ifaces');
  }

  lemma ReplanInSteps(ifaces: seq<Iface>, previous: Option<Subnet>, next: Option<Subnet>, via: Ip)
    requires Selected(ifaces).Some? && previous.Some? && next.Some? && previous != next
    ensures Replanned(Replanned(ifaces, previous, None, Address(0)).value, None, next, via) ==
      Replanned(ifaces, previous, next, via)
  {
    SelectedIsIface(ifaces);
    SelectionStays(ifaces, previous, None, Address(0));
    var j := Selected(ifaces).value;
    var kept := Put(ifaces, j, Filter(ifaces[j].routes, IsNotTo(previous.value)));
    assert Replanned(ifaces, previous, None, Address(0)) == Some(kept);
    var routes := UpsertIn(RoutesOf(kept[j]), next.value, via);
    assert Put(kept, j, routes) == Put(ifaces, j, routes);
  }

  lemma SameDefaultIndex(a: seq<Iface>, b: seq<Iface>)
    requires |a| == |b| && forall k :: 0 <= k < |a| ==> HasDefault(a[k]) == HasDefault(b[k])
    ensures DefaultIndex(a) == DefaultIndex(b)
  {
  }
}
