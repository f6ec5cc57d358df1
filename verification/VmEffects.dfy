/** What the administrator operations answer and store, told on the request and the two stores: a
    finished call gives the VM exactly what was asked for, and touches no other VM. */
module VmEffects {
  import opened Sequences
  import opened Cidr
  import opened Netplan
  import opened VmRegistry
  import D = Decimals

  /** The subnet a VM has after a request: a field that is absent leaves it, a blank one takes it away. */
  function SubnetAfter(old_: Option<Subnet>, asked: Option<SubnetArg>): Option<Subnet> {
    if asked.None? then old_
    else if asked.value.Given? then Some(asked.value.net)
    else None
  }

  /** A request that can be refused for its fields alone. */
  predicate BadRequest(id: string, p: Payload) {
    id == "" || !p.restOk || p.subnet == Some(BadSubnet)
  }

  ghost predicate HasVm(s: State, id: string) {
    exists a :: a in s.agents && a.id == id
  }

  /** The first VM with the id is at this place. */
  ghost predicate IsAt(s: State, i: nat, id: string) {
    i < |s.agents| && s.agents[i].id == id && forall j :: 0 <= j < i ==> s.agents[j].id != id
  }

  lemma IndexIsAt(s: State, id: string)
    ensures IndexOf(s.agents, id) < |s.agents| <==> HasVm(s, id)
    ensures HasVm(s, id) ==> IsAt(s, IndexOf(s.agents, id), id)
    ensures forall i: nat :: IsAt(s, i, id) ==> i == IndexOf(s.agents, id)
  {
    if HasVm(s, id) {
      var k :| 0 <= k < |s.agents| && s.agents[k].id == id;
      assert !(k < IndexOf(s.agents, id));
    }
  }

  /** The subnet shares an address with that of another VM, or with a route that is not the VM's own. */
  ghost predicate Occupied(s: State, net: Subnet, exclude: string, own: Option<Subnet>)
    requires s.plan.Plan?
  {
    || (exists a, x: nat :: a in s.agents && (exclude == "" || a.id != exclude) && a.subnet.Some? &&
          net.Contains(x) && a.subnet.value.Contains(x))
    || (exists i, r, x: nat :: i in s.plan.ifaces && r in RoutesOf(i) && r.To? && Some(r.net) != own &&
          net.Contains(x) && r.net.Contains(x))
  }

  lemma OccupiedIff(s: State, net: Subnet, exclude: string, own: Option<Subnet>)
    requires s.plan.Plan?
    ensures Available(s.agents, net, exclude, s.plan.ifaces, own) <==> !Occupied(s, net, exclude, own)
  {
    forall a | a in s.agents && a.subnet.Some?
      ensures net.Overlaps(a.subnet.value) <==> exists x: nat :: net.Contains(x) && a.subnet.value.Contains(x)
    {
      OverlapsIffShared(net, a.subnet.value);
    }
    forall i, r | i in s.plan.ifaces && r in RoutesOf(i) && r.To?
      ensures net.Overlaps(r.net) <==> exists x: nat :: net.Contains(x) && r.net.Contains(x)
    {
      OverlapsIffShared(net, r.net);
    }
  }

  // ----- the interface that carries the routes -----

  /** The first interface with a default route, or the first one when none has one. */
  ghost predicate IsCarrier(ifaces: seq<Iface>, j: nat) {
    && j < |ifaces|
    && (if exists i :: i in ifaces && Defaults(i)
        then Defaults(ifaces[j]) && forall k :: 0 <= k < j ==> !Defaults(ifaces[k])
        else j == 0)
  }

  ghost predicate Defaults(i: Iface) {
    i.Iface? && exists r :: r in i.routes && r.Default?
  }

  lemma SelectedIsCarrier(ifaces: seq<Iface>)
    ensures forall j: nat :: IsCarrier(ifaces, j) ==> Selected(ifaces) == if ifaces[j].Iface? then Some(j) else None
    ensures ifaces == [] ==> Selected(ifaces) == None
  {
    forall j: nat | IsCarrier(ifaces, j) ensures Selected(ifaces) == if ifaces[j].Iface? then Some(j) else None {
      var d := DefaultIndex(ifaces);
      assert forall k :: 0 <= k < |ifaces| ==> ifaces[k] in ifaces;
      forall i ensures Defaults(i) <==> HasDefault(i) {
      }
      if exists i :: i in ifaces && Defaults(i) {
        var i :| i in ifaces && Defaults(i);
        var k :| 0 <= k < |ifaces| && ifaces[k] == i;
        assert d == j;
      }
    }
  }

  /** Some interface can carry routes. */
  ghost predicate HasCarrier(ifaces: seq<Iface>) {
    exists j: nat :: IsCarrier(ifaces, j) && ifaces[j].Iface?
  }

  lemma {:induction false} FirstDefault(ifaces: seq<Iface>) returns (j: nat)
    requires ifaces != []
    ensures IsCarrier(ifaces, j)
  {
    j := if DefaultIndex(ifaces) < |ifaces| then DefaultIndex(ifaces) else 0;
    forall i ensures Defaults(i) <==> HasDefault(i) {
    }
    if i :| i in ifaces && Defaults(i) {
      var k :| 0 <= k < |ifaces| && ifaces[k] == i;
    }
    assert ifaces[j] in ifaces;
  }

  lemma CarrierIffSelected(ifaces: seq<Iface>)
    ensures HasCarrier(ifaces) <==> Selected(ifaces).Some?
  {
    SelectedIsCarrier(ifaces);
    if ifaces != [] {
      var j := FirstDefault(ifaces);
    }
  }

  // ----- create and update -----

  /** The VM can get its route, everything outside works, and the settings are written. */
  ghost predicate GoesThrough(s: State, previous: Option<Subnet>, a: Agent, env: Env) {
    && (previous.Some? || a.subnet.Some? ==>
          && env.read && s.plan.Plan? && HasCarrier(s.plan.ifaces) && (a.subnet.Some? ==> a.ip.Address?)
          && env.save.Works? && env.apply.Works?)
    && env.persist
  }

  /** The subnet asked for is checked, and is not free. */
  ghost predicate Collides(s: State, previous: Option<Subnet>, a: Agent, exclude: string, env: Env) {
    a.subnet.Some? && env.read && s.plan.Plan? && Occupied(s, a.subnet.value, exclude, previous)
  }

  lemma InstallAnswer(s: State, agents: seq<Agent>, previous: Option<Subnet>, a: Agent, exclude: string, env: Env)
    ensures var (t, answer) := Install(s, agents, previous, a, exclude, env);
      && (answer == SubnetTaken <==> Collides(s, previous, a, exclude, env))
      && (answer == Done(a) <==> !Collides(s, previous, a, exclude, env) && GoesThrough(s, previous, a, env))
      && (answer == SubnetTaken || answer == Done(a) || answer == ServerError)
      && t.agents == if answer.Done? then agents else s.agents
  {
    if s.plan.Plan? {
      CarrierIffSelected(s.plan.ifaces);
      if a.subnet.Some? {
        OccupiedIff(s, a.subnet.value, exclude, previous);
      }
    }
  }

  /** The id a create asks for, or the one it is given. */
  function IdFor(s: State, p: Payload): string {
    if p.id.Some? && p.id.value != "" then p.id.value else NextId(s.agents)
  }

  /** The VM a create asks for. */
  function CreatedAs(s: State, p: Payload): Agent {
    Agent(IdFor(s, p), if p.ip.Some? then p.ip.value else NotAnAddress(""), SubnetAfter(None, p.subnet), p.rest)
  }

  lemma CreateIs(s: State, p: Payload, env: Env)
    ensures var a := CreatedAs(s, p);
      Create(s, p, env) ==
        if HasVm(s, a.id) then (s, IdTaken)
        else if BadRequest(a.id, p) then (s, Invalid)
        else Install(s, s.agents + [a], None, a, "", env)
  {
    IndexIsAt(s, IdFor(s, p));
    NextIdIsFresh(s.agents);
  }

  /** A create answers why it refuses, or stores exactly the VM asked for behind the others. */
  lemma CreateEffect(s: State, p: Payload, env: Env)
    ensures var (t, answer) := Step(s, CreateVm(p), env);
      var a := CreatedAs(s, p);
      && (answer == IdTaken <==> HasVm(s, a.id))
      && (answer == Invalid <==> !HasVm(s, a.id) && BadRequest(a.id, p))
      && (!HasVm(s, a.id) && !BadRequest(a.id, p) ==>
            && (answer == SubnetTaken <==> Collides(s, None, a, "", env))
            && (answer == Done(a) <==> !Collides(s, None, a, "", env) && GoesThrough(s, None, a, env)))
      && (answer.Done? ==> answer == Done(a))
      && t.agents == if answer.Done? then s.agents + [a] else s.agents
  {
    var a := CreatedAs(s, p);
    CreateIs(s, p, env);
    InstallAnswer(s, s.agents + [a], None, a, "", env);
  }

  /** The generated id is `vm` and one more than the largest number in use, 1 if there is none. */
  lemma {:induction false} NextIdIsOneMore(agents: seq<Agent>)
    ensures NextId(agents) == "vm" + D.Dec(MaxIndex(agents) + 1)
    ensures MaxIndex(agents) > 0 ==>
      exists a :: a in agents && |a.id| > 2 && a.id[..2] == "vm" && D.IsNumeral(a.id[2..]) &&
        D.Value(a.id[2..]) == MaxIndex(agents)
  {
    if agents != [] {
      var init, last := agents[..|agents| - 1], agents[|agents| - 1];
      NextIdIsOneMore(init);
      assert agents == init + [last];
      assert last in agents;
      if MaxIndex(init) > 0 {
        var a :| a in init && |a.id| > 2 && a.id[..2] == "vm" && D.IsNumeral(a.id[2..]) &&
          D.Value(a.id[2..]) == MaxIndex(init);
        assert a in agents;
      }
    }
  }

  /** What an update makes of a VM: absent fields keep their values. */
  function UpdatedAs(e: Agent, p: Payload): Agent {
    Agent(if p.id.Some? then p.id.value else e.id, if p.ip.Some? then p.ip.value else e.ip,
          SubnetAfter(e.subnet, p.subnet), p.rest)
  }

  lemma UpdateIs(s: State, id: string, p: Payload, env: Env, i: nat)
    requires IsAt(s, i, id)
    ensures var a := UpdatedAs(s.agents[i], p);
      Update(s, id, p, env) ==
        if BadRequest(a.id, p) then (s, Invalid)
        else if a.id != id && HasVm(s, a.id) then (s, IdTaken)
        else Install(s, s.agents[i := a], s.agents[i].subnet, a, id, env)
  {
    IndexIsAt(s, id);
    IndexIsAt(s, UpdatedAs(s.agents[i], p).id);
  }

  /** An update of the VM at place `i` answers why it refuses, or stores that VM with the fields asked for
      in its place; no other VM changes. */
  lemma UpdateEffect(s: State, id: string, p: Payload, env: Env, i: nat)
    requires IsAt(s, i, id)
    ensures var (t, answer) := Step(s, UpdateVm(id, p), env);
      var e, a := s.agents[i], UpdatedAs(s.agents[i], p);
      && (answer == Invalid <==> BadRequest(a.id, p))
      && (answer == IdTaken <==> !BadRequest(a.id, p) && a.id != id && HasVm(s, a.id))
      && (!BadRequest(a.id, p) && (a.id == id || !HasVm(s, a.id)) ==>
            && (answer == SubnetTaken <==> Collides(s, e.subnet, a, id, env))
            && (answer == Done(a) <==> !Collides(s, e.subnet, a, id, env) && GoesThrough(s, e.subnet, a, env)))
      && (answer.Done? ==> answer == Done(a))
      && t.agents == if answer.Done? then s.agents[i := a] else s.agents
  {
    var a := UpdatedAs(s.agents[i], p);
    UpdateIs(s, id, p, env, i);
    InstallAnswer(s, s.agents[i := a], s.agents[i].subnet, a, id, env);
  }

  lemma NothingToUpdate(s: State, id: string, p: Payload, env: Env)
    ensures Step(s, UpdateVm(id, p), env) == (s, NotFound) <==> !HasVm(s, id)
  {
    IndexIsAt(s, id);
    if HasVm(s, id) {
      UpdateEffect(s, id, p, env, IndexOf(s.agents, id));
    }
  }

  // ----- delete -----

  /** A deletion finishes exactly when the route can be taken out, everything outside works and the
      settings are written; then exactly that VM is gone. */
  lemma DeleteEffect(s: State, id: string, env: Env, i: nat)
    requires IsAt(s, i, id)
    ensures var (t, answer) := Step(s, DeleteVm(id), env);
      && (answer == Done(s.agents[i]) <==> GoesThrough(s, s.agents[i].subnet, s.agents[i].(subnet := None), env))
      && (answer == Done(s.agents[i]) || answer == ServerError)
      && t.agents == if answer.Done? then s.agents[..i] + s.agents[i + 1..] else s.agents
  {
    IndexIsAt(s, id);
    if s.plan.Plan? {
      CarrierIffSelected(s.plan.ifaces);
    }
  }

  lemma NothingToDelete(s: State, id: string, env: Env)
    ensures Step(s, DeleteVm(id), env) == (s, NotFound) <==> !HasVm(s, id)
  {
    IndexIsAt(s, id);
    if HasVm(s, id) {
      DeleteEffect(s, id, env, IndexOf(s.agents, id));
    }
  }

  // ----- the netplan of a finished call -----

  function ElseRouted(gone: Option<Subnet>, come: Option<Subnet>): Route -> bool {
    (r: Route) => !(r.To? && (Some(r.net) == gone || Some(r.net) == come))
  }

  /** On the carrier the route to `gone` is out and the route to `come` is in; all other routes keep their
      order, and the other interfaces are untouched. */
  ghost predicate Redirected(a: seq<Iface>, b: seq<Iface>, gone: Option<Subnet>, come: Option<Subnet>, via: Ip) {
    && |a| == |b|
    && exists j: nat ::
         && IsCarrier(a, j) && a[j].Iface? && b[j].Iface? && b[j].name == a[j].name
         && (forall k :: 0 <= k < |a| && k != j ==> b[k] == a[k])
         && (forall r :: r in b[j].routes && r.To? && Some(r.net) == gone ==> gone == come)
         && (come.Some? ==> To(come.value, via) in b[j].routes)
         && (forall r :: r in b[j].routes ==> r in a[j].routes || (come.Some? && r == To(come.value, via)))
         && Filter(b[j].routes, ElseRouted(gone, come)) == Filter(a[j].routes, ElseRouted(gone, come))
  }

  lemma {:induction false} ReplaceElse(routes: seq<Route>, net: Subnet, via: Ip, other: Route -> bool)
    requires forall r: Route :: r.To? && r.net == net ==> !other(r)
    ensures Filter(ReplaceFirst(routes, IsTo(net), To(net, via)), other) == Filter(routes, other)
    ensures forall r :: r in ReplaceFirst(routes, IsTo(net), To(net, via)) ==> r in routes || r == To(net, via)
    ensures First(routes, IsTo(net)).Some? ==> To(net, via) in ReplaceFirst(routes, IsTo(net), To(net, via))
  {
    if routes != [] {
      ReplaceElse(routes[1..], net, via, other);
      assert routes == [routes[0]] + routes[1..];
      FilterCons(routes[0], ReplaceFirst(routes[1..], IsTo(net), To(net, via)), other);
      FilterCons(To(net, via), routes[1..], other);
    }
  }

  lemma ReroutedIs(routes: seq<Route>, gone: Option<Subnet>, come: Option<Subnet>, via: Ip)
    ensures var b := Rerouted(routes, gone, come, via);
      && (forall r :: r in b && r.To? && Some(r.net) == gone ==> gone == come)
      && (come.Some? ==> To(come.value, via) in b)
      && (forall r :: r in b ==> r in routes || (come.Some? && r == To(come.value, via)))
      && Filter(b, ElseRouted(gone, come)) == Filter(routes, ElseRouted(gone, come))
  {
    var kept := if gone.Some? && gone != come then Filter(routes, IsNotTo(gone.value)) else routes;
    if gone.Some? {
      FilterMembers(routes, IsNotTo(gone.value));
      FilterAbsorb(routes, IsNotTo(gone.value), ElseRouted(gone, come));
    }
    if come.Some? {
      ReplaceElse(kept, come.value, via, ElseRouted(gone, come));
      FilterAppend(kept, [To(come.value, via)], ElseRouted(gone, come));
    }
  }

  lemma ReplannedIs(ifaces: seq<Iface>, gone: Option<Subnet>, come: Option<Subnet>, via: Ip)
    requires Replanned(ifaces, gone, come, via).Some?
    ensures Redirected(ifaces, Replanned(ifaces, gone, come, via).value, gone, come, via)
  {
    var j := FirstDefault(ifaces);
    SelectedIsCarrier(ifaces);
    ReroutedIs(RoutesOf(ifaces[j]), gone, come, via);
    assert IsCarrier(ifaces, j) && ifaces[j].Iface?;
  }

  /** What a finished call makes of the netplan: with a subnet before or after, the route moves with it;
      otherwise nothing happens there. */
  ghost predicate PlanMoves(s: State, t: State, gone: Option<Subnet>, come: Option<Subnet>, via: Ip) {
    if gone.None? && come.None? then t.plan == s.plan
    else s.plan.Plan? && t.plan.Plan? && Redirected(s.plan.ifaces, t.plan.ifaces, gone, come, via)
  }

  lemma InstallMovesThePlan(s: State, agents: seq<Agent>, gone: Option<Subnet>, a: Agent, exclude: string, env: Env)
    requires Install(s, agents, gone, a, exclude, env).1.Done?
    ensures PlanMoves(s, Install(s, agents, gone, a, exclude, env).0, gone, a.subnet, a.ip)
  {
    if s.plan.Plan? && Replanned(s.plan.ifaces, gone, a.subnet, a.ip).Some? {
      ReplannedIs(s.plan.ifaces, gone, a.subnet, a.ip);
    }
  }

  lemma CreateMovesThePlan(s: State, p: Payload, env: Env)
    requires Step(s, CreateVm(p), env).1.Done?
    ensures var (t, answer) := Step(s, CreateVm(p), env);
      PlanMoves(s, t, None, answer.agent.subnet, answer.agent.ip)
  {
    CreateEffect(s, p, env);
    CreateIs(s, p, env);
    InstallMovesThePlan(s, s.agents + [CreatedAs(s, p)], None, CreatedAs(s, p), "", env);
  }

  lemma UpdateMovesThePlan(s: State, id: string, p: Payload, env: Env, i: nat)
    requires IsAt(s, i, id) && Step(s, UpdateVm(id, p), env).1.Done?
    ensures var (t, answer) := Step(s, UpdateVm(id, p), env);
      PlanMoves(s, t, s.agents[i].subnet, answer.agent.subnet, answer.agent.ip)
  {
    var a := UpdatedAs(s.agents[i], p);
    UpdateEffect(s, id, p, env, i);
    UpdateIs(s, id, p, env, i);
    InstallMovesThePlan(s, s.agents[i := a], s.agents[i].subnet, a, id, env);
  }

  lemma DeleteMovesThePlan(s: State, id: string, env: Env)
    requires Step(s, DeleteVm(id), env).1.Done?
    ensures var (t, answer) := Step(s, DeleteVm(id), env);
      PlanMoves(s, t, answer.agent.subnet, None, Address(0))
  {
    if s.plan.Plan? && Replanned(s.plan.ifaces, s.agents[IndexOf(s.agents, id)].subnet, None, Address(0)).Some? {
      ReplannedIs(s.plan.ifaces, s.agents[IndexOf(s.agents, id)].subnet, None, Address(0));
    }
  }
}
