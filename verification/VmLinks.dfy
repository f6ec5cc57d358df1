/** Settings and netplan stay linked over every run of the administrator operations: VM ids are
    unique, management subnets share no address, each of them is routed through its VM and through
    nothing else, and routes that belong to no VM are never touched. */
module VmLinks {
  import opened Sequences
  import opened Cidr
  import opened Netplan
  import opened VmRegistry

  ghost predicate UniqueIds(agents: seq<Agent>) {
    forall j, k :: 0 <= j < k < |agents| ==> agents[j].id != agents[k].id
  }

  ghost predicate Disjoint(agents: seq<Agent>) {
    forall j, k :: 0 <= j < |agents| && 0 <= k < |agents| && j != k ==> !Clash(agents[j], agents[k])
  }

  /** Among all routes of interface `k`, those that catch an address of `net`. */
  function RoutesInto(ifaces: seq<Iface>, k: nat, net: Subnet): seq<Route>
    requires k < |ifaces|
  {
    Filter(RoutesOf(ifaces[k]), Touches(net))
  }

  /** The only route into `net` is `wanted`, on the selected interface. */
  ghost predicate OnlyRouteIs(ifaces: seq<Iface>, net: Subnet, wanted: seq<Route>) {
    && Selected(ifaces).Some?
    && forall k :: 0 <= k < |ifaces| ==>
      RoutesInto(ifaces, k, net) == if k == Selected(ifaces).value then wanted else []
  }

  ghost predicate Routed(a: Agent, ifaces: seq<Iface>) {
    a.subnet.Some? ==> a.ip.Address? && OnlyRouteIs(ifaces, a.subnet.value, [To(a.subnet.value, a.ip)])
  }

  ghost predicate Linked(agents: seq<Agent>, ifaces: seq<Iface>) {
    forall k :: 0 <= k < |agents| ==> Routed(agents[k], ifaces)
  }

  ghost predicate Inv(s: State) {
    && UniqueIds(s.agents) && Disjoint(s.agents)
    && if s.plan.Plan? then Linked(s.agents, s.plan.ifaces) else forall a :: a in s.agents ==> a.subnet.None?
  }

  // ----- foreign routes -----

  predicate Owned(agents: seq<Agent>, net: Subnet) {
    exists k :: 0 <= k < |agents| && agents[k].subnet == Some(net)
  }

  /** Routes whose target is no VM's subnet. */
  function Foreign(agents: seq<Agent>): Route -> bool {
    (r: Route) => !(r.To? && Owned(agents, r.net))
  }

  /** Interfaces and foreign routes, with their order, are the same on both sides. */
  ghost predicate SameForeign(agents: seq<Agent>, ifaces: seq<Iface>, agents': seq<Agent>, ifaces': seq<Iface>) {
    && |ifaces| == |ifaces'|
    && forall k :: 0 <= k < |ifaces| ==>
      && ifaces[k].Iface? == ifaces'[k].Iface? && ifaces[k].name == ifaces'[k].name
      && Filter(RoutesOf(ifaces[k]), Foreign(agents)) == Filter(RoutesOf(ifaces'[k]), Foreign(agents'))
  }

  ghost predicate ForeignKept(s: State, t: State) {
    if s.plan.Plan? && t.plan.Plan? then SameForeign(s.agents, s.plan.ifaces, t.agents, t.plan.ifaces)
    else s.plan == t.plan
  }

  // ----- lists of routes -----

  lemma {:induction false} FilterAgree<T>(s: seq<T>, p: T -> bool, q: T -> bool)
    requires forall x :: x in s ==> p(x) == q(x)
    ensures Filter(s, p) == Filter(s, q)
  {
    if s != [] {
      assert s == [s[0]] + s[1..];
      FilterAgree(s[1..], p, q);
    }
  }

  lemma {:induction false} FilterNone<T>(s: seq<T>, p: T -> bool)
    ensures Filter(s, p) == [] <==> forall x :: x in s ==> !p(x)
  {
    FilterMembers(s, p);
    if Filter(s, p) != [] {
      var x := Filter(s, p)[0];
      FilterMember(s, p, x);
    }
  }

  /** Replacing one uninteresting element by another goes unnoticed. */
  lemma {:induction false} FilterReplace<T>(s: seq<T>, q: T -> bool, y: T, p: T -> bool)
    requires !p(y) && forall x :: x in s && q(x) ==> !p(x)
    ensures Filter(ReplaceFirst(s, q, y), p) == Filter(s, p)
  {
    if s != [] {
      assert s == [s[0]] + s[1..];
      FilterReplace(s[1..], q, y, p);
      FilterCons(y, s[1..], p);
      FilterCons(s[0], ReplaceFirst(s[1..], q, y), p);
    }
  }

  lemma TouchesItself(net: Subnet)
    ensures net.Overlaps(net)
  {
  }

  /** Rerouting from `previous` to `next` changes nothing for a filter that ignores both. */
  lemma ReroutedUnnoticed(routes: seq<Route>, previous: Option<Subnet>, next: Option<Subnet>, via: Ip, p: Route -> bool)
    requires forall r: Route :: r.To? && (Some(r.net) == previous || Some(r.net) == next) ==> !p(r)
    ensures Filter(Rerouted(routes, previous, next, via), p) == Filter(routes, p)
  {
    var kept := if previous.Some? && previous != next then Filter(routes, IsNotTo(previous.value)) else routes;
    if previous.Some? {
      FilterAbsorb(routes, IsNotTo(previous.value), p);
    }
    if next.Some? {
      var route := To(next.value, via);
      FilterReplace(kept, IsTo(next.value), route, p);
      FilterAppend(kept, [route], p);
    }
  }

  /** When nothing but routes to `previous` catches addresses of `next`, the new route is alone. */
  lemma ReroutedAlone(routes: seq<Route>, previous: Option<Subnet>, next: Subnet, via: Ip)
    requires forall r :: r in routes && Touches(next)(r) ==> Some(r.net) == previous
    requires previous == Some(next) ==> |Filter(routes, Touches(next))| == 1
    ensures Filter(Rerouted(routes, previous, Some(next), via), Touches(next)) == [To(next, via)]
  {
    TouchesItself(next);
    var route := To(next, via);
    if previous == Some(next) {
      var only := Filter(routes, Touches(next));
      FilterMember(routes, Touches(next), only[0]);
      FirstSome(routes, IsTo(next));
      assert IsTo(next)(only[0]);
      ReplaceThroughFilter(routes, Touches(next), IsTo(next), route);
      assert ReplaceFirst(only, IsTo(next), route) == [route] + only[1..];
    } else {
      var kept := if previous.Some? then Filter(routes, IsNotTo(previous.value)) else routes;
      if previous.Some? {
        FilterMembers(routes, IsNotTo(previous.value));
      }
      FilterNone(kept, Touches(next));
      FirstSome(kept, IsTo(next));
      assert First(kept, IsTo(next)).None? by {
        forall r | r in kept ensures !IsTo(next)(r) {
          assert !Touches(next)(r);
        }
      }
      FilterAppend(kept, [route], Touches(next));
    }
  }

  // ----- one VM changes its subnet -----

  /** Preconditions of a change: the VM at `i` gives up its subnet for that of `updated`, which is
      free apart from the VM's own route. */
  ghost predicate Free(agents: seq<Agent>, i: nat, updated: Agent, ifaces: seq<Iface>) {
    && i < |agents|
    && (forall k :: 0 <= k < |agents| && k != i ==> !Clash(updated, agents[k]))
    && (updated.subnet.Some? ==>
          forall k, r :: 0 <= k < |ifaces| && r in RoutesOf(ifaces[k]) && r.To? && Some(r.net) != agents[i].subnet ==>
            !updated.subnet.value.Overlaps(r.net))
  }

  lemma ReroutedElsewhere(ifaces: seq<Iface>, previous: Option<Subnet>, next: Option<Subnet>, via: Ip, k: nat)
    requires Replanned(ifaces, previous, next, via).Some? && k < |ifaces|
    ensures var j := Selected(ifaces).value;
      RoutesOf(Replanned(ifaces, previous, next, via).value[k]) ==
        if k == j then Rerouted(RoutesOf(ifaces[j]), previous, next, via) else RoutesOf(ifaces[k])
  {
  }

  /** The other VMs keep their only route. */
  lemma OthersStayRouted(agents: seq<Agent>, i: nat, updated: Agent, ifaces: seq<Iface>, k: nat)
    requires Disjoint(agents) && Linked(agents, ifaces) && Free(agents, i, updated, ifaces)
    requires Replanned(ifaces, agents[i].subnet, updated.subnet, updated.ip).Some?
    requires k < |agents| && k != i
    ensures Routed(agents[k], Replanned(ifaces, agents[i].subnet, updated.subnet, updated.ip).value)
  {
    if agents[k].subnet.Some? {
      var net := agents[k].subnet.value;
      var ifaces' := Replanned(ifaces, agents[i].subnet, updated.subnet, updated.ip).value;
      assert Routed(agents[k], ifaces);
      assert !Clash(agents[i], agents[k]) && !Clash(updated, agents[k]);
      SelectionStays(ifaces, agents[i].subnet, updated.subnet, updated.ip);
      ReroutedUnnoticed(RoutesOf(ifaces[Selected(ifaces).value]), agents[i].subnet, updated.subnet, updated.ip,
        Touches(net));
      forall m | 0 <= m < |ifaces'|
        ensures RoutesInto(ifaces', m, net) == if m == Selected(ifaces).value then [To(net, agents[k].ip)] else []
      {
        ReroutedElsewhere(ifaces, agents[i].subnet, updated.subnet, updated.ip, m);
        assert RoutesInto(ifaces, m, net) == if m == Selected(ifaces).value then [To(net, agents[k].ip)] else [];
      }
    }
  }

  /** The VM itself gets its only route. */
  lemma ItselfIsRouted(agents: seq<Agent>, i: nat, updated: Agent, ifaces: seq<Iface>)
    requires Linked(agents, ifaces) && Free(agents, i, updated, ifaces)
    requires Replanned(ifaces, agents[i].subnet, updated.subnet, updated.ip).Some?
    ensures Routed(updated, Replanned(ifaces, agents[i].subnet, updated.subnet, updated.ip).value)
  {
    if updated.subnet.Some? {
      var previous, net := agents[i].subnet, updated.subnet.value;
      var ifaces' := Replanned(ifaces, previous, updated.subnet, updated.ip).value;
      var j := Selected(ifaces).value;
      SelectedIsIface(ifaces);
      SelectionStays(ifaces, previous, updated.subnet, updated.ip);
      assert Routed(agents[i], ifaces);
      assert previous == Some(net) ==> RoutesInto(ifaces, j, net) == [To(net, agents[i].ip)];
      forall m | 0 <= m < |ifaces'|
        ensures RoutesInto(ifaces', m, net) == if m == j then [To(net, updated.ip)] else []
      {
        ReroutedElsewhere(ifaces, previous, updated.subnet, updated.ip, m);
        OnlyPreviousTouches(agents, i, updated, ifaces, m);
        if m == j {
          ReroutedAlone(RoutesOf(ifaces[j]), previous, net, updated.ip);
        } else {
          FilterNone(RoutesOf(ifaces[m]), Touches(net));
        }
      }
    }
  }

  /** Only the VM's own previous route, on the selected interface, may meet its next subnet. */
  lemma OnlyPreviousTouches(agents: seq<Agent>, i: nat, updated: Agent, ifaces: seq<Iface>, m: nat)
    requires Linked(agents, ifaces) && Free(agents, i, updated, ifaces) && updated.subnet.Some?
    requires m < |ifaces| && Selected(ifaces).Some?
    ensures forall r :: r in RoutesOf(ifaces[m]) && Touches(updated.subnet.value)(r) ==>
      Some(r.net) == agents[i].subnet && m == Selected(ifaces).value
  {
    var net := updated.subnet.value;
    assert m != Selected(ifaces).value ==> NoneElsewhere(agents, i, ifaces, m) by {
      if m != Selected(ifaces).value {
        RoutedNowhereElse(agents, i, ifaces, m);
      }
    }
    forall r | r in RoutesOf(ifaces[m]) && Touches(net)(r)
      ensures Some(r.net) == agents[i].subnet && m == Selected(ifaces).value
    {
      assert net.Overlaps(r.net);
    }
  }

  ghost predicate NoneElsewhere(agents: seq<Agent>, i: nat, ifaces: seq<Iface>, m: nat)
    requires i < |agents| && m < |ifaces|
  {
    forall r :: r in RoutesOf(ifaces[m]) && r.To? ==> Some(r.net) != agents[i].subnet
  }

  lemma RoutedNowhereElse(agents: seq<Agent>, i: nat, ifaces: seq<Iface>, m: nat)
    requires Linked(agents, ifaces) && i < |agents|
    requires m < |ifaces| && Selected(ifaces).Some? && m != Selected(ifaces).value
    ensures NoneElsewhere(agents, i, ifaces, m)
  {
    assert Routed(agents[i], ifaces);
    if agents[i].subnet.Some? {
      var net := agents[i].subnet.value;
      TouchesItself(net);
      FilterNone(RoutesOf(ifaces[m]), Touches(net));
      assert RoutesInto(ifaces, m, net) == [];
      forall r | r in RoutesOf(ifaces[m]) && r.To? ensures r.net != net {
        assert !Touches(net)(r);
      }
    }
  }

  /** Ownership changes hands for no route that stays. */
  lemma ForeignStays(agents: seq<Agent>, i: nat, updated: Agent, ifaces: seq<Iface>)
    requires Disjoint(agents) && Linked(agents, ifaces) && Free(agents, i, updated, ifaces)
    requires Replanned(ifaces, agents[i].subnet, updated.subnet, updated.ip).Some?
    ensures SameForeign(agents, ifaces, agents[i := updated],
      Replanned(ifaces, agents[i].subnet, updated.subnet, updated.ip).value)
  {
    var previous := agents[i].subnet;
    var agents' := agents[i := updated];
    var ifaces' := Replanned(ifaces, previous, updated.subnet, updated.ip).value;
    SelectedIsIface(ifaces);
    forall k | 0 <= k < |ifaces|
      ensures Filter(RoutesOf(ifaces[k]), Foreign(agents)) == Filter(RoutesOf(ifaces'[k]), Foreign(agents'))
    {
      ReroutedElsewhere(ifaces, previous, updated.subnet, updated.ip, k);
      var neither := NeitherOwned(agents, agents');
      OwnersBefore(agents, i, updated, ifaces, k);
      FilterAgree(RoutesOf(ifaces[k]), Foreign(agents), neither);
      if k == Selected(ifaces).value {
        ReroutedUnnoticed(RoutesOf(ifaces[k]), previous, updated.subnet, updated.ip, neither) by {
          assert agents[i].subnet == previous && agents'[i].subnet == updated.subnet;
        }
        OwnersAfter(agents, i, updated, RoutesOf(ifaces[k]));
        FilterAgree(RoutesOf(ifaces'[k]), Foreign(agents'), neither);
      } else {
        OwnersElsewhere(agents, i, updated, ifaces, k);
        FilterAgree(RoutesOf(ifaces[k]), Foreign(agents'), neither);
      }
    }
  }

  function NeitherOwned(agents: seq<Agent>, agents': seq<Agent>): Route -> bool {
    (r: Route) => !(r.To? && (Owned(agents, r.net) || Owned(agents', r.net)))
  }

  lemma OwnedByOthers(agents: seq<Agent>, i: nat, updated: Agent, net: Subnet)
    requires i < |agents|
    ensures Owned(agents[i := updated], net) ==> Owned(agents, net) || updated.subnet == Some(net)
    ensures Owned(agents, net) ==> Owned(agents[i := updated], net) || agents[i].subnet == Some(net)
  {
    var agents' := agents[i := updated];
    if Owned(agents', net) {
      var k :| 0 <= k < |agents'| && agents'[k].subnet == Some(net);
      assert k != i ==> agents[k].subnet == Some(net);
    }
    if Owned(agents, net) {
      var k :| 0 <= k < |agents| && agents[k].subnet == Some(net);
      assert k != i ==> agents'[k].subnet == Some(net);
    }
  }

  /** A route that is there before and belongs to the changed VM after belonged to it before. */
  lemma OwnersBefore(agents: seq<Agent>, i: nat, updated: Agent, ifaces: seq<Iface>, k: nat)
    requires Free(agents, i, updated, ifaces) && k < |ifaces|
    ensures forall r :: r in RoutesOf(ifaces[k]) ==> Foreign(agents)(r) == NeitherOwned(agents, agents[i := updated])(r)
  {
  }

  lemma OwnersAfter(agents: seq<Agent>, i: nat, updated: Agent, routes: seq<Route>)
    requires i < |agents|
    ensures forall r :: r in Rerouted(routes, agents[i].subnet, updated.subnet, updated.ip) ==>
      Foreign(agents[i := updated])(r) == NeitherOwned(agents, agents[i := updated])(r)
  {
    var previous, next, agents' := agents[i].subnet, updated.subnet, agents[i := updated];
    assert agents'[i] == updated;
    forall r | r in Rerouted(routes, previous, next, updated.ip) && r.To?
      ensures Owned(agents, r.net) ==> Owned(agents', r.net)
    {
      OwnedByOthers(agents, i, updated, r.net);
      if previous == Some(r.net) && previous != next {
        PreviousIsGone(routes, previous.value, next, updated.ip, r);
      }
    }
  }

  lemma PreviousIsGone(routes: seq<Route>, previous: Subnet, next: Option<Subnet>, via: Ip, r: Route)
    requires Some(previous) != next && IsTo(previous)(r)
    ensures r !in Rerouted(routes, Some(previous), next, via)
  {
    var kept := Filter(routes, IsNotTo(previous));
    FilterMember(routes, IsNotTo(previous), r);
    if next.Some? {
      ReplaceMember(kept, IsTo(next.value), To(next.value, via), r);
    }
  }

  lemma {:induction false} ReplaceMember<T>(s: seq<T>, q: T -> bool, y: T, x: T)
    requires x != y && x !in s
    ensures x !in ReplaceFirst(s, q, y)
  {
    if s != [] {
      assert s == [s[0]] + s[1..];
      ReplaceMember(s[1..], q, y, x);
    }
  }

  lemma OwnersElsewhere(agents: seq<Agent>, i: nat, updated: Agent, ifaces: seq<Iface>, k: nat)
    requires Linked(agents, ifaces) && Free(agents, i, updated, ifaces)
    requires k < |ifaces| && Selected(ifaces).Some? && k != Selected(ifaces).value
    ensures forall r :: r in RoutesOf(ifaces[k]) ==>
      Foreign(agents[i := updated])(r) == NeitherOwned(agents, agents[i := updated])(r)
  {
    RoutedNowhereElse(agents, i, ifaces, k);
    forall r | r in RoutesOf(ifaces[k]) && r.To? ensures Owned(agents, r.net) ==> Owned(agents[i := updated], r.net) {
      OwnedByOthers(agents, i, updated, r.net);
    }
  }

  // ----- the three operations -----

  /** One VM changes in an available way and everything after that works. */
  lemma ChangeKeepsInv(agents: seq<Agent>, i: nat, updated: Agent, ifaces: seq<Iface>)
    requires Inv(State(agents, Plan(ifaces))) && Free(agents, i, updated, ifaces) && UniqueIds(agents[i := updated])
    requires Replanned(ifaces, agents[i].subnet, updated.subnet, updated.ip).Some?
    ensures var t := State(agents[i := updated],
      Plan(Replanned(ifaces, agents[i].subnet, updated.subnet, updated.ip).value));
      Inv(t) && ForeignKept(State(agents, Plan(ifaces)), t)
  {
    var agents' := agents[i := updated];
    var ifaces' := Replanned(ifaces, agents[i].subnet, updated.subnet, updated.ip).value;
    ItselfIsRouted(agents, i, updated, ifaces);
    ForeignStays(agents, i, updated, ifaces);
    forall k | 0 <= k < |agents'| ensures Routed(agents'[k], ifaces') {
      if k != i {
        OthersStayRouted(agents, i, updated, ifaces, k);
      }
    }
    ClashIsSymmetric();
  }

  lemma ClashIsSymmetric()
    ensures forall a, b :: Clash(a, b) == Clash(b, a)
  {
  }

  lemma AvailableIsFree(agents: seq<Agent>, i: nat, updated: Agent, ifaces: seq<Iface>)
    requires i < |agents| && UniqueIds(agents)
    requires updated.subnet.Some? ==> Available(agents, updated.subnet.value, agents[i].id, ifaces, agents[i].subnet)
    ensures Free(agents, i, updated, ifaces)
  {
  }

  lemma NothingForeignMoves(s: State)
    ensures ForeignKept(s, s)
  {
  }

  /** A VM without a subnet can come and go without anybody noticing. */
  lemma SubnetlessAppended(s: State, blank: Agent)
    requires Inv(s) && blank.subnet.None? && forall a :: a in s.agents ==> a.id != blank.id
    ensures Inv(s.(agents := s.agents + [blank])) && ForeignKept(s, s.(agents := s.agents + [blank]))
  {
    var longer := s.agents + [blank];
    forall net ensures Owned(longer, net) == Owned(s.agents, net) {
      if k :| 0 <= k < |s.agents| && s.agents[k].subnet == Some(net) {
        assert longer[k].subnet == Some(net);
      }
    }
    if s.plan.Plan? {
      forall k | 0 <= k < |s.plan.ifaces|
        ensures Filter(RoutesOf(s.plan.ifaces[k]), Foreign(s.agents)) ==
          Filter(RoutesOf(s.plan.ifaces[k]), Foreign(longer))
      {
        FilterAgree(RoutesOf(s.plan.ifaces[k]), Foreign(s.agents), Foreign(longer));
      }
      assert forall k :: 0 <= k < |s.agents| ==> longer[k] == s.agents[k] && Routed(s.agents[k], s.plan.ifaces);
    }
  }

  /** The list without its element at `i`. */
  function Without(agents: seq<Agent>, i: nat): (r: seq<Agent>)
    requires i < |agents|
    ensures |r| == |agents| - 1
    ensures forall k :: 0 <= k < |r| ==> r[k] == agents[if k < i then k else k + 1]
  {
    agents[..i] + agents[i + 1..]
  }

  lemma OwnedWithout(agents: seq<Agent>, i: nat, net: Subnet)
    requires i < |agents| && agents[i].subnet.None?
    ensures Owned(Without(agents, i), net) == Owned(agents, net)
  {
    var shorter := Without(agents, i);
    if k :| 0 <= k < |agents| && agents[k].subnet == Some(net) {
      assert shorter[if k < i then k else k - 1].subnet == Some(net);
    }
  }

  lemma SubnetlessRemoved(s: State, i: nat)
    requires Inv(s) && i < |s.agents| && s.agents[i].subnet.None?
    ensures var t := s.(agents := Without(s.agents, i));
      Inv(t) && ForeignKept(s, t)
  {
    var shorter := Without(s.agents, i);
    if s.plan.Plan? {
      forall k | 0 <= k < |s.plan.ifaces|
        ensures Filter(RoutesOf(s.plan.ifaces[k]), Foreign(s.agents)) ==
          Filter(RoutesOf(s.plan.ifaces[k]), Foreign(shorter))
      {
        forall net ensures Owned(shorter, net) == Owned(s.agents, net) {
          OwnedWithout(s.agents, i, net);
        }
        FilterAgree(RoutesOf(s.plan.ifaces[k]), Foreign(s.agents), Foreign(shorter));
      }
      forall k | 0 <= k < |shorter| ensures Routed(shorter[k], s.plan.ifaces) {
        assert Routed(s.agents[if k < i then k else k + 1], s.plan.ifaces);
      }
    }
  }

  lemma ForeignKeptTransitive(s: State, t: State, u: State)
    requires ForeignKept(s, t) && ForeignKept(t, u)
    ensures ForeignKept(s, u)
  {
  }

  /** What the outside world must grant: write-backs work, and a deletion is not stopped by a caught
      exception after it began to save. */
  predicate Fair(call: Call, env: Env) {
    env.back && (call.DeleteVm? ==> env.save != Fails(Caught) && env.apply != Fails(Caught))
  }

  lemma InstallKeepsLinks(s: State, i: nat, updated: Agent, env: Env)
    requires Inv(s) && i < |s.agents| && env.back && UniqueIds(s.agents[i := updated])
    ensures var t := Install(s, s.agents[i := updated], s.agents[i].subnet, updated, s.agents[i].id, env).0;
      Inv(t) && ForeignKept(s, t)
  {
    NothingForeignMoves(s);
    var previous := s.agents[i].subnet;
    if previous.None? && updated.subnet.None? {
      SubnetlessReplaced(s, i, updated);
    } else if env.read && s.plan.Plan? {
      if updated.subnet.Some? ==> Available(s.agents, updated.subnet.value, s.agents[i].id, s.plan.ifaces, previous) {
        AvailableIsFree(s.agents, i, updated, s.plan.ifaces);
        if Replanned(s.plan.ifaces, previous, updated.subnet, updated.ip).Some? {
          ChangeKeepsInv(s.agents, i, updated, s.plan.ifaces);
        }
      }
    }
  }

  lemma SubnetlessReplaced(s: State, i: nat, updated: Agent)
    requires Inv(s) && i < |s.agents| && UniqueIds(s.agents[i := updated])
    requires s.agents[i].subnet.None? && updated.subnet.None?
    ensures var t := s.(agents := s.agents[i := updated]);
      Inv(t) && ForeignKept(s, t)
  {
    var agents' := s.agents[i := updated];
    forall net ensures Owned(agents', net) == Owned(s.agents, net) {
      OwnedByOthers(s.agents, i, updated, net);
    }
    if s.plan.Plan? {
      forall k | 0 <= k < |s.plan.ifaces|
        ensures Filter(RoutesOf(s.plan.ifaces[k]), Foreign(s.agents)) ==
          Filter(RoutesOf(s.plan.ifaces[k]), Foreign(agents'))
      {
        FilterAgree(RoutesOf(s.plan.ifaces[k]), Foreign(s.agents), Foreign(agents'));
      }
    }
  }

  /** Installing a VM under a new id: as if it had first been added without a subnet. */
  lemma InstallingKeepsLinks(s: State, created: Agent, env: Env)
    requires Inv(s) && env.back && forall a :: a in s.agents ==> a.id != created.id
    ensures var t := Install(s, s.agents + [created], None, created, "", env).0;
      Inv(t) && ForeignKept(s, t)
  {
    NothingForeignMoves(s);
    var t := Install(s, s.agents + [created], None, created, "", env).0;
    if t != s {
      var blank, n := created.(subnet := None), |s.agents|;
      var u := s.(agents := s.agents + [blank]);
      SubnetlessAppended(s, blank);
      assert u.agents[n := created] == s.agents + [created];
      if created.subnet.Some? {
        AvailableWithBlank(s.agents, blank, created.subnet.value, s.plan.ifaces);
      }
      InstallKeepsLinks(u, n, created, env);
      ForeignKeptTransitive(s, u, t);
    }
  }

  lemma CreateKeepsLinks(s: State, p: Payload, env: Env)
    requires Inv(s) && env.back
    ensures Inv(Create(s, p, env).0) && ForeignKept(s, Create(s, p, env).0)
  {
    NothingForeignMoves(s);
    NextIdIsFresh(s.agents);
    var id := if p.id.Some? && p.id.value != "" then p.id.value else NextId(s.agents);
    var created := Merged(Agent(id, NotAnAddress(""), None, ""), p.(id := Some(id)));
    if created.Some? && forall a :: a in s.agents ==> a.id != id {
      InstallingKeepsLinks(s, created.value, env);
    }
  }

  lemma AvailableWithBlank(agents: seq<Agent>, blank: Agent, net: Subnet, ifaces: seq<Iface>)
    requires blank.subnet.None? && Available(agents, net, "", ifaces, None)
    ensures Available(agents + [blank], net, blank.id, ifaces, None)
  {
  }

  lemma UpdateKeepsLinks(s: State, id: string, p: Payload, env: Env)
    requires Inv(s) && env.back
    ensures Inv(Update(s, id, p, env).0) && ForeignKept(s, Update(s, id, p, env).0)
  {
    NothingForeignMoves(s);
    var i := IndexOf(s.agents, id);
    if i < |s.agents| && Merged(s.agents[i], p).Some? {
      var updated := Merged(s.agents[i], p).value;
      if updated.id == id || IndexOf(s.agents, updated.id) == |s.agents| {
        InstallKeepsLinks(s, i, updated, env);
      }
    }
  }

  lemma DeleteKeepsLinks(s: State, id: string, env: Env)
    requires Inv(s) && Fair(DeleteVm(id), env)
    ensures Inv(Delete(s, id, env).0) && ForeignKept(s, Delete(s, id, env).0)
  {
    NothingForeignMoves(s);
    var t := Delete(s, id, env).0;
    if t != s {
      var i := IndexOf(s.agents, id);
      var removed := s.agents[i];
      var blank := removed.(subnet := None);
      if removed.subnet.None? {
        SubnetlessRemoved(s, i);
      } else {
        var u := State(s.agents[i := blank], t.plan);
        assert Replanned(s.plan.ifaces, removed.subnet, None, blank.ip) ==
          Replanned(s.plan.ifaces, removed.subnet, None, Address(0));
        ChangeKeepsInv(s.agents, i, blank, s.plan.ifaces);
        SubnetlessRemoved(u, i);
        assert Without(u.agents, i) == Without(s.agents, i);
        ForeignKeptTransitive(s, u, t);
      }
    }
  }

  lemma StepKeepsLinks(s: State, call: Call, env: Env)
    requires Inv(s) && Fair(call, env)
    ensures Inv(Step(s, call, env).0) && ForeignKept(s, Step(s, call, env).0)
  {
    match call
    case CreateVm(p) => CreateKeepsLinks(s, p, env);
    case UpdateVm(id, p) => UpdateKeepsLinks(s, id, p, env);
    case DeleteVm(id) => DeleteKeepsLinks(s, id, env);
  }

  /** Settings and netplan stay linked over every run, and no foreign route ever changes. */
  lemma {:induction false} RunKeepsLinks(s: State, calls: seq<(Call, Env)>)
    requires Inv(s) && forall c :: c in calls ==> Fair(c.0, c.1)
    ensures Inv(Run(s, calls)) && ForeignKept(s, Run(s, calls))
    decreases |calls|
  {
    NothingForeignMoves(s);
    if calls != [] {
      assert calls[0] in calls;
      var t := Step(s, calls[0].0, calls[0].1).0;
      StepKeepsLinks(s, calls[0].0, calls[0].1);
      RunKeepsLinks(t, calls[1..]);
      ForeignKeptTransitive(s, t, Run(t, calls[1..]));
    }
  }

  // ----- deletion without write-back -----

  /** A deletion that saved the netplan and then failed with a caught exception. */
  predicate CutShort(s: State, id: string, env: Env) {
    var i := IndexOf(s.agents, id);
    i < |s.agents| && s.agents[i].subnet.Some? && env.read && s.plan.Plan? && env.save.Works? &&
      env.apply == Fails(Caught)
  }

  lemma CutShortLosesTheRoute(s: State, id: string, env: Env)
    requires Inv(s) && CutShort(s, id, env)
    ensures !Inv(Delete(s, id, env).0)
  {
    var i, ifaces := IndexOf(s.agents, id), s.plan.ifaces;
    var a := s.agents[i];
    var j := Selected(ifaces).value;
    assert Routed(a, ifaces);
    SelectedIsIface(ifaces);
    SelectionStays(ifaces, a.subnet, None, Address(0));
    var ifaces' := Replanned(ifaces, a.subnet, None, Address(0)).value;
    var wanted := To(a.subnet.value, a.ip);
    PreviousIsGone(RoutesOf(ifaces[j]), a.subnet.value, None, Address(0), wanted);
    FilterMember(RoutesOf(ifaces'[j]), Touches(a.subnet.value), wanted);
    assert wanted in [wanted];
    assert RoutesInto(ifaces', j, a.subnet.value) != [wanted];
    assert !Routed(a, ifaces');
  }

  /** A deletion whose save raised a caught exception: whatever the save left behind stays. */
  predicate SaveInterrupted(s: State, id: string, env: Env) {
    var i := IndexOf(s.agents, id);
    i < |s.agents| && s.agents[i].subnet.Some? && env.read && s.plan.Plan? && env.save == Fails(Caught)
  }

  /** A deletion that tried to write the netplan back, and failed. */
  predicate WriteBackFails(s: State, id: string, env: Env) {
    var i := IndexOf(s.agents, id);
    && i < |s.agents| && s.agents[i].subnet.Some? && env.read && s.plan.Plan? && !env.back
    && (env.save == Fails(Uncaught) ||
      (env.save.Works? && (env.apply == Fails(Uncaught) || (env.apply.Works? && !env.persist))))
  }

  /** For every environment: a deletion keeps the link if and only if it is not cut short, and a
      netplan that an interrupted save or a failed write-back leaves behind happens to be linked. */
  lemma DeleteKeepsLinksIff(s: State, id: string, env: Env)
    requires Inv(s)
    ensures Inv(Delete(s, id, env).0) <==>
            && !CutShort(s, id, env)
            && (SaveInterrupted(s, id, env) ==> Inv(s.(plan := env.torn)))
            && (WriteBackFails(s, id, env) ==> Inv(s.(plan := env.backLeaves)))
  {
    var i := IndexOf(s.agents, id);
    if CutShort(s, id, env) {
      CutShortLosesTheRoute(s, id, env);
    } else if i < |s.agents| && s.agents[i].subnet.None? {
      SubnetlessRemoved(s, i);
    } else if i < |s.agents| && env.read && s.plan.Plan? {
      assert Routed(s.agents[i], s.plan.ifaces);
      if env.save.Works? && env.apply.Works? && env.persist {
        DeleteKeepsLinks(s, id, env.(back := true));
        assert Delete(s, id, env) == Delete(s, id, env.(back := true));
      }
    }
  }

  // ----- every environment -----

  /** The tail of a create or an update reached the netplan, something after that failed, and so does
      the attempt to write the netplan back. */
  predicate InstallNotWrittenBack(s: State, previous: Option<Subnet>, agent: Agent, exclude: string, env: Env) {
    && !env.back && (previous.Some? || agent.subnet.Some?) && env.read && s.plan.Plan?
    && (agent.subnet.Some? ==> Available(s.agents, agent.subnet.value, exclude, s.plan.ifaces, previous))
    && (env.save.Fails? || env.apply.Fails? || !env.persist ||
      Replanned(s.plan.ifaces, previous, agent.subnet, agent.ip).None?)
  }

  lemma InstallByEnvironment(s: State, agents: seq<Agent>, previous: Option<Subnet>, agent: Agent, exclude: string,
                             env: Env)
    ensures Install(s, agents, previous, agent, exclude, env).0 ==
      if InstallNotWrittenBack(s, previous, agent, exclude, env) then s.(plan := env.backLeaves)
      else Install(s, agents, previous, agent, exclude, env.(back := true)).0
  {
  }

  /** The VM a create would add, or nothing when it is refused before. */
  function CreatedVm(s: State, p: Payload): Option<Agent> {
    var asked := p.id.Some? && p.id.value != "";
    var id := if asked then p.id.value else NextId(s.agents);
    if asked && IndexOf(s.agents, id) < |s.agents| then None
    else Merged(Agent(id, NotAnAddress(""), None, ""), p.(id := Some(id)))
  }

  /** The VM an update would store, or nothing when it is refused before. */
  function UpdatedVm(s: State, id: string, p: Payload): Option<Agent> {
    var i := IndexOf(s.agents, id);
    if i == |s.agents| || Merged(s.agents[i], p).None? then None
    else
      var updated := Merged(s.agents[i], p).value;
      if updated.id != id && IndexOf(s.agents, updated.id) < |s.agents| then None else Some(updated)
  }

  predicate CreateNotWrittenBack(s: State, p: Payload, env: Env) {
    CreatedVm(s, p).Some? && InstallNotWrittenBack(s, None, CreatedVm(s, p).value, "", env)
  }

  predicate UpdateNotWrittenBack(s: State, id: string, p: Payload, env: Env) {
    && UpdatedVm(s, id, p).Some?
    && InstallNotWrittenBack(s, s.agents[IndexOf(s.agents, id)].subnet, UpdatedVm(s, id, p).value, id, env)
  }

  /** For every environment: a create keeps the link if and only if the netplan that a failed
      write-back leaves behind happens to be linked. */
  lemma CreateKeepsLinksIff(s: State, p: Payload, env: Env)
    requires Inv(s)
    ensures Inv(Create(s, p, env).0) <==> (CreateNotWrittenBack(s, p, env) ==> Inv(s.(plan := env.backLeaves)))
  {
    if CreatedVm(s, p).Some? {
      var created := CreatedVm(s, p).value;
      InstallByEnvironment(s, s.agents + [created], None, created, "", env);
    }
    CreateKeepsLinks(s, p, env.(back := true));
  }

  /** The same for an update. */
  lemma UpdateKeepsLinksIff(s: State, id: string, p: Payload, env: Env)
    requires Inv(s)
    ensures Inv(Update(s, id, p, env).0) <==> (UpdateNotWrittenBack(s, id, p, env) ==> Inv(s.(plan := env.backLeaves)))
  {
    if UpdatedVm(s, id, p).Some? {
      var i, updated := IndexOf(s.agents, id), UpdatedVm(s, id, p).value;
      InstallByEnvironment(s, s.agents[i := updated], s.agents[i].subnet, updated, id, env);
    }
    UpdateKeepsLinks(s, id, p, env.(back := true));
  }

  /** What the outside world must do in one call so that the link survives it. */
  ghost predicate Survives(s: State, call: Call, env: Env) {
    match call
    case CreateVm(p) => CreateNotWrittenBack(s, p, env) ==> Inv(s.(plan := env.backLeaves))
    case UpdateVm(id, p) => UpdateNotWrittenBack(s, id, p, env) ==> Inv(s.(plan := env.backLeaves))
    case DeleteVm(id) =>
      && !CutShort(s, id, env)
      && (SaveInterrupted(s, id, env) ==> Inv(s.(plan := env.torn)))
      && (WriteBackFails(s, id, env) ==> Inv(s.(plan := env.backLeaves)))
  }

  lemma StepKeepsLinksIff(s: State, call: Call, env: Env)
    requires Inv(s)
    ensures Inv(Step(s, call, env).0) <==> Survives(s, call, env)
  {
    match call
    case CreateVm(p) => CreateKeepsLinksIff(s, p, env);
    case UpdateVm(id, p) => UpdateKeepsLinksIff(s, id, p, env);
    case DeleteVm(id) => DeleteKeepsLinksIff(s, id, env);
  }

  /** The store is linked after every call of the run. */
  ghost predicate AlwaysLinked(s: State, calls: seq<(Call, Env)>)
    decreases |calls|
  {
    Inv(s) && (calls != [] ==> AlwaysLinked(Step(s, calls[0].0, calls[0].1).0, calls[1..]))
  }

  /** Every call of the run survives its environment. */
  ghost predicate AllSurvive(s: State, calls: seq<(Call, Env)>)
    decreases |calls|
  {
    calls != [] ==>
      Survives(s, calls[0].0, calls[0].1) && AllSurvive(Step(s, calls[0].0, calls[0].1).0, calls[1..])
  }

  /** For all environments: settings and netplan are linked all through a run if and only if every
      call of it survives its environment. */
  lemma {:induction false} RunKeepsLinksIff(s: State, calls: seq<(Call, Env)>)
    requires Inv(s)
    ensures AlwaysLinked(s, calls) <==> AllSurvive(s, calls)
    decreases |calls|
  {
    if calls != [] {
      var t := Step(s, calls[0].0, calls[0].1).0;
      StepKeepsLinksIff(s, calls[0].0, calls[0].1);
      if Inv(t) {
        RunKeepsLinksIff(t, calls[1..]);
      }
    }
  }

  // ----- what the link means -----

  /** No address belongs to the subnets of two VMs. */
  lemma SubnetsShareNoAddress(s: State, j: nat, k: nat, address: nat)
    requires Inv(s) && j < |s.agents| && k < |s.agents| && j != k
    requires s.agents[j].subnet.Some? && s.agents[k].subnet.Some?
    requires s.agents[j].subnet.value.Contains(address)
    ensures !s.agents[k].subnet.value.Contains(address)
  {
  }

  /** Whatever route catches an address of a VM's subnet is the VM's own route through its address. */
  lemma TrafficGoesToTheOwner(s: State, k: nat, address: nat, m: nat, r: Route)
    requires Inv(s) && s.plan.Plan? && k < |s.agents| && s.agents[k].subnet.Some?
    requires s.agents[k].subnet.value.Contains(address)
    requires m < |s.plan.ifaces| && r in RoutesOf(s.plan.ifaces[m]) && r.To? && r.net.Contains(address)
    ensures r == To(s.agents[k].subnet.value, s.agents[k].ip)
  {
    var net := s.agents[k].subnet.value;
    OverlapsIffShared(r.net, net);
    assert Routed(s.agents[k], s.plan.ifaces);
    FilterMember(RoutesOf(s.plan.ifaces[m]), Touches(net), r);
    assert r in RoutesInto(s.plan.ifaces, m, net);
  }

  /** A registry that starts empty is linked after every run, whatever the netplan held. */
  lemma EmptyRegistryStaysLinked(plan: Plan, calls: seq<(Call, Env)>)
    requires forall c :: c in calls ==> Fair(c.0, c.1)
    ensures Inv(Run(State([], plan), calls))
  {
    RunKeepsLinks(State([], plan), calls);
  }
}
