/** The registry of VMs: every VM owns at most one management subnet, whose route lives in the
    netplan file. Settings and netplan are two stores that the three administrator operations keep
    in step, writing the netplan back when a later step fails. */
module VmRegistry {
  import opened Sequences
  import opened Cidr
  import opened Netplan
  import D = Decimals

  // ----- data -----

  datatype Agent = Agent(id: string, ip: Ip, subnet: Option<Subnet>, rest: string)

  /** Kind of exception: `Caught` are ValueError, RuntimeError and OSError. */
  datatype Failure = Caught | Uncaught

  datatype Plan = Unreadable(failure: Failure) | Plan(ifaces: seq<Iface>)

  datatype State = State(agents: seq<Agent>, plan: Plan)

  datatype SubnetArg = Blank | BadSubnet | Given(net: Subnet)

  /** A request after trimming; `restOk` says that name, token, port and address are acceptable once
      merged with the stored VM. */
  datatype Payload = Payload(id: Option<string>, ip: Option<Ip>, subnet: Option<SubnetArg>, rest: string, restOk: bool)

  datatype Answer = Done(agent: Agent) | NotFound | Invalid | IdTaken | SubnetTaken | ServerError

  datatype Effect = Works | Fails(failure: Failure)

  /** What the outside world does during one call. A failed save may leave anything (`torn`), and so
      may a failed write-back. */
  datatype Env = Env(read: bool, save: Effect, torn: Plan, apply: Effect, back: bool, backLeaves: Plan, persist: bool)

  // ----- lookups -----

  /** Index of the first VM with the id, or the number of VMs. */
  function IndexOf(agents: seq<Agent>, id: string): (i: nat)
    ensures i <= |agents|
    ensures i < |agents| ==> agents[i].id == id
    ensures forall k :: 0 <= k < i ==> agents[k].id != id
  {
    if agents == [] || agents[0].id == id then 0 else 1 + IndexOf(agents[1..], id)
  }

  predicate IsIndexed(id: string) {
    |id| > 2 && id[..2] == "vm" && D.IsNumeral(id[2..])
  }

  /** Largest number in an id of the form `vm<number>`, or 0. */
  function MaxIndex(agents: seq<Agent>): (m: nat)
    ensures forall a :: a in agents && IsIndexed(a.id) ==> D.Value(a.id[2..]) <= m
  {
    if agents == [] then 0
    else
      var m, last := MaxIndex(agents[..|agents| - 1]), agents[|agents| - 1];
      if IsIndexed(last.id) && D.Value(last.id[2..]) > m then D.Value(last.id[2..]) else m
  }

  function NextId(agents: seq<Agent>): string {
    "vm" + D.Dec(MaxIndex(agents) + 1)
  }

  /** The first candidate is already free: the search loop behind it never turns. */
  lemma NextIdIsFresh(agents: seq<Agent>)
    ensures forall a :: a in agents ==> a.id != NextId(agents)
    ensures NextId(agents) != ""
  {
    var id := NextId(agents);
    assert id[..2] == "vm" && id[2..] == D.Dec(MaxIndex(agents) + 1);
    D.ReadsBack(MaxIndex(agents) + 1);
  }

  /** The normalised VM, or nothing when a field is refused. */
  function Merged(existing: Agent, p: Payload): Option<Agent> {
    var id := if p.id.Some? then p.id.value else existing.id;
    var ip := if p.ip.Some? then p.ip.value else existing.ip;
    if id == "" || !p.restOk then None
    else if p.subnet.None? then Some(Agent(id, ip, existing.subnet, p.rest))
    else match p.subnet.value
      case Blank => Some(Agent(id, ip, None, p.rest))
      case BadSubnet => None
      case Given(net) => Some(Agent(id, ip, Some(net), p.rest))
  }

  predicate Clash(a: Agent, b: Agent) {
    a.subnet.Some? && b.subnet.Some? && a.subnet.value.Overlaps(b.subnet.value)
  }

  /** The subnet meets no other VM's subnet and no netplan route except the allowed one. */
  predicate Available(agents: seq<Agent>, net: Subnet, exclude: string, ifaces: seq<Iface>, allowed: Option<Subnet>) {
    && (forall a :: a in agents && !(exclude != "" && a.id == exclude) && a.subnet.Some? ==>
      !net.Overlaps(a.subnet.value))
    && (forall i, r :: i in ifaces && r in RoutesOf(i) && r.To? && Some(r.net) != allowed ==> !net.Overlaps(r.net))
  }

  // ----- the operations -----

  function WrittenBack(plan: Plan, env: Env): Plan {
    if env.back then plan else env.backLeaves
  }

  /** Save and apply inside the `try` of create and update; any exception writes the backup back. */
  function Deploy(plan: Plan, replanned: Option<seq<Iface>>, env: Env): (Plan, bool) {
    if replanned.Some? && env.save.Works? && env.apply.Works? then (Plan(replanned.value), true)
    else (WrittenBack(plan, env), false)
  }

  /** The settings are written last; when that fails, a changed netplan is written back. */
  function Persist(s: State, agents: seq<Agent>, deployed: Option<Plan>, env: Env, answer: Answer): (State, Answer) {
    if env.persist then (State(agents, if deployed.Some? then deployed.value else s.plan), answer)
    else (s.(plan := if deployed.Some? then WrittenBack(s.plan, env) else s.plan), ServerError)
  }

  function Create(s: State, p: Payload, env: Env): (State, Answer) {
    var asked := p.id.Some? && p.id.value != "";
    var id := if asked then p.id.value else NextId(s.agents);
    if asked && IndexOf(s.agents, id) < |s.agents| then (s, IdTaken)
    else
      var created := Merged(Agent(id, NotAnAddress(""), None, ""), p.(id := Some(id)));
      if created.None? then (s, Invalid)
      else Install(s, s.agents + [created.value], None, created.value, "", env)
  }

  /** The common tail of create and update: `agent` is already in its place in `agents`. */
  function Install(s: State, agents: seq<Agent>, previous: Option<Subnet>, agent: Agent, exclude: string, env: Env)
    : (State, Answer)
  {
    if previous.None? && agent.subnet.None? then Persist(s, agents, None, env, Done(agent))
    else if !env.read || s.plan.Unreadable? then (s, ServerError)
    else if agent.subnet.Some? && !Available(s.agents, agent.subnet.value, exclude, s.plan.ifaces, previous) then
      (s, SubnetTaken)
    else
      var (plan, ok) := Deploy(s.plan, Replanned(s.plan.ifaces, previous, agent.subnet, agent.ip), env);
      if !ok then (s.(plan := plan), ServerError) else Persist(s, agents, Some(plan), env, Done(agent))
  }

  function Update(s: State, id: string, p: Payload, env: Env): (State, Answer) {
    var i := IndexOf(s.agents, id);
    if i == |s.agents| then (s, NotFound)
    else
      var updated := Merged(s.agents[i], p);
      if updated.None? then (s, Invalid)
      else if updated.value.id != id && IndexOf(s.agents, updated.value.id) < |s.agents| then (s, IdTaken)
      else Install(s, s.agents[i := updated.value], s.agents[i].subnet, updated.value, id, env)
  }

  /** Delete has two `except` clauses; the first does not write back. */
  function Delete(s: State, id: string, env: Env): (State, Answer) {
    var i := IndexOf(s.agents, id);
    if i == |s.agents| then (s, NotFound)
    else
      var removed := s.agents[i];
      var agents := s.agents[..i] + s.agents[i + 1..];
      if removed.subnet.None? then Persist(s, agents, None, env, Done(removed))
      else if !env.read then (s, ServerError)
      else if s.plan.Unreadable? then
        (s.(plan := if s.plan.failure.Uncaught? then WrittenBack(s.plan, env) else s.plan), ServerError)
      else
        var replanned := Replanned(s.plan.ifaces, removed.subnet, None, Address(0));
        if replanned.None? then (s, ServerError)
        else if env.save.Fails? then
          (s.(plan := if env.save.failure.Caught? then env.torn else WrittenBack(s.plan, env)), ServerError)
        else if env.apply.Fails? then
          (s.(plan := if env.apply.failure.Caught? then Plan(replanned.value) else WrittenBack(s.plan, env)),
            ServerError)
        else Persist(s, agents, Some(Plan(replanned.value)), env, Done(removed))
  }

  datatype Call = CreateVm(p: Payload) | UpdateVm(id: string, p: Payload) | DeleteVm(id: string)

  function Step(s: State, call: Call, env: Env): (State, Answer) {
    match call
    case CreateVm(p) => Create(s, p, env)
    case UpdateVm(id, p) => Update(s, id, p, env)
    case DeleteVm(id) => Delete(s, id, env)
  }

  function Run(s: State, calls: seq<(Call, Env)>): State
    decreases |calls|
  {
    if calls == [] then s else Run(Step(s, calls[0].0, calls[0].1).0, calls[1..])
  }

  // ----- the handlers -----

  method GenerateNextVmId(agents: seq<Agent>) returns (id: string)
    ensures id == NextId(agents)
    ensures forall a :: a in agents ==> a.id != id
  {
    var max := 0;
    for i := 0 to |agents|
      invariant max == MaxIndex(agents[..i])
    {
      assert agents[..i + 1][..i] == agents[..i];
      if IsIndexed(agents[i].id) && D.Value(agents[i].id[2..]) > max {
        max := D.Value(agents[i].id[2..]);
      }
    }
    assert agents[..|agents|] == agents;
    NextIdIsFresh(agents);
    return "vm" + D.Dec(max + 1);
  }

  method SubnetAvailable(agents: seq<Agent>, net: Subnet, exclude: string, ifaces: seq<Iface>, allowed: Option<Subnet>)
    returns (ok: bool)
    ensures ok == Available(agents, net, exclude, ifaces, allowed)
  {
    for i := 0 to |agents|
      invariant forall k :: 0 <= k < i && !(exclude != "" && agents[k].id == exclude) && agents[k].subnet.Some? ==>
        !net.Overlaps(agents[k].subnet.value)
    {
      if !(exclude != "" && agents[i].id == exclude) && agents[i].subnet.Some? && net.Overlaps(agents[i].subnet.value) {
        return false;
      }
    }
    for i := 0 to |ifaces|
      invariant forall k, r :: 0 <= k < i && r in RoutesOf(ifaces[k]) && r.To? && Some(r.net) != allowed ==>
        !net.Overlaps(r.net)
    {
      var routes := RoutesOf(ifaces[i]);
      for j := 0 to |routes|
        invariant forall k :: 0 <= k < j && routes[k].To? && Some(routes[k].net) != allowed ==>
          !net.Overlaps(routes[k].net)
      {
        if routes[j].To? && Some(routes[j].net) != allowed && net.Overlaps(routes[j].net) {
          return false;
        }
      }
    }
    return true;
  }

  /** The handlers over the two stores: the settings' agent list and the netplan file. */
  class Registry {
    var agents: seq<Agent>
    var plan: Plan

    ghost function Contents(): State
      reads this
    {
      State(agents, plan)
    }

    constructor (agents: seq<Agent>, plan: Plan)
      ensures Contents() == State(agents, plan)
    {
      this.agents, this.plan := agents, plan;
    }

    /** The write-back of an `except` clause. */
    method WriteBack(backup: Plan, env: Env)
      modifies this`plan
      ensures plan == WrittenBack(backup, env)
    {
      plan := if env.back then backup else env.backLeaves;
    }

    method PersistSettings(next: seq<Agent>, backup: Option<Plan>, agent: Agent, env: Env) returns (answer: Answer)
      modifies this
      ensures env.persist ==> agents == next && plan == old(plan) && answer == Done(agent)
      ensures !env.persist ==> agents == old(agents) && answer == ServerError
      ensures !env.persist ==> plan == if backup.Some? then WrittenBack(backup.value, env) else old(plan)
    {
      if env.persist {
        agents := next;
        return Done(agent);
      }
      if backup.Some? {
        WriteBack(backup.value, env);
      }
      return ServerError;
    }

    method InstallVm(next: seq<Agent>, previous: Option<Subnet>, agent: Agent, exclude: string, env: Env)
      returns (answer: Answer)
      modifies this
      ensures (Contents(), answer) == Install(old(Contents()), next, previous, agent, exclude, env)
    {
      if previous.None? && agent.subnet.None? {
        answer := PersistSettings(next, None, agent, env);
        return;
      }
      if !env.read || plan.Unreadable? {
        return ServerError;
      }
      var backup := plan;
      if agent.subnet.Some? {
        var free := SubnetAvailable(agents, agent.subnet.value, exclude, plan.ifaces, previous);
        if !free {
          return SubnetTaken;
        }
      }
      var replanned := Replan(plan.ifaces, previous, agent.subnet, agent.ip);
      if replanned.None? {
        WriteBack(backup, env);
        return ServerError;
      }
      plan := if env.save.Works? then Plan(replanned.value) else env.torn;
      if env.save.Fails? || env.apply.Fails? {
        WriteBack(backup, env);
        return ServerError;
      }
      answer := PersistSettings(next, Some(backup), agent, env);
    }

    method CreateVm(p: Payload, env: Env) returns (answer: Answer)
      modifies this
      ensures (Contents(), answer) == Create(old(Contents()), p, env)
    {
      var id := GenerateNextVmId(agents);
      if p.id.Some? && p.id.value != "" {
        id := p.id.value;
        if IndexOf(agents, id) < |agents| {
          return IdTaken;
        }
      }
      var created := Merged(Agent(id, NotAnAddress(""), None, ""), p.(id := Some(id)));
      if created.None? {
        return Invalid;
      }
      answer := InstallVm(agents + [created.value], None, created.value, "", env);
    }

    method UpdateVm(id: string, p: Payload, env: Env) returns (answer: Answer)
      modifies this
      ensures (Contents(), answer) == Update(old(Contents()), id, p, env)
    {
      var i := IndexOf(agents, id);
      if i == |agents| {
        return NotFound;
      }
      var updated := Merged(agents[i], p);
      if updated.None? {
        return Invalid;
      }
      if updated.value.id != id && IndexOf(agents, updated.value.id) < |agents| {
        return IdTaken;
      }
      answer := InstallVm(agents[i := updated.value], agents[i].subnet, updated.value, id, env);
    }

    method DeleteVm(id: string, env: Env) returns (answer: Answer)
      modifies this
      ensures (Contents(), answer) == Delete(old(Contents()), id, env)
    {
      var i := IndexOf(agents, id);
      if i == |agents| {
        return NotFound;
      }
      var removed, next := agents[i], agents[..i] + agents[i + 1..];
      var backup: Option<Plan> := None;
      if removed.subnet.Some? {
        if !env.read {
          return ServerError;
        }
        backup := Some(plan);
        if plan.Unreadable? {
          if plan.failure.Uncaught? {
            WriteBack(plan, env);
          }
          return ServerError;
        }
        var replanned := Remove(plan.ifaces, removed.subnet.value);
        if replanned.None? {
          return ServerError;
        }
        plan := if env.save.Works? then Plan(replanned.value) else env.torn;
        var failed := if env.save.Fails? then env.save else env.apply;
        if failed.Fails? {
          if failed.failure.Uncaught? {
            WriteBack(backup.value, env);
          }
          return ServerError;
        }
      }
      answer := PersistSettings(next, backup, removed, env);
    }
  }
}
