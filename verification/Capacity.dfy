/** The capacity estimate of a sandbox: what a topology needs, what the VM has to offer, and the
    proportional reduction that is suggested when it does not fit. */
module Capacity {
  import opened Sequences

  /** Memory in bytes and CPU in hundredths of a core, for one node. */
  datatype Needs = Needs(memory: real, cpu: real)

  type Profile = n: Needs | n.memory > 0.0 && n.cpu > 0.0 witness Needs(1.0, 1.0)

  /** What one node of a kind needs. */
  type Profiles = string -> Profile

  const MEGABYTE: real := 1048576.0

  function ProfileOf(kind: string): Profile {
    match kind
    case "cisco_xrd" => Megabytes(2200.0, 130.0)
    case "cisco_xrv9k" => Megabytes(2800.0, 150.0)
    case "cisco_xrv" => Megabytes(2600.0, 145.0)
    case "cisco_iol" => Megabytes(384.0, 35.0)
    case "cisco_iosv" => Megabytes(1024.0, 70.0)
    case "cisco_csr1000v" => Megabytes(3072.0, 165.0)
    case "juniper_vmx" => Megabytes(4096.0, 180.0)
    case "juniper_vsrx" => Megabytes(2048.0, 120.0)
    case "juniper_vqfx" => Megabytes(2048.0, 130.0)
    case "juniper_crpd" => Megabytes(1024.0, 75.0)
    case "juniper_vjunos-switch" => Megabytes(2200.0, 140.0)
    case "juniper_vjunos-router" => Megabytes(2200.0, 140.0)
    case "nokia_sros" => Megabytes(4600.0, 200.0)
    case "nokia_srlinux" => Megabytes(1400.0, 90.0)
    case "arista_ceos" => Megabytes(1500.0, 95.0)
    case "linux" => Megabytes(256.0, 15.0)
    case "host" => Megabytes(256.0, 15.0)
    case "bridge" => Megabytes(64.0, 3.0)
    case "ovs-bridge" => Megabytes(96.0, 5.0)
    case _ => Megabytes(1024.0, 60.0)
  }

  function Megabytes(memory: real, cpu: real): Profile
    requires memory > 0.0 && cpu > 0.0
  {
    Needs(memory * MEGABYTE, cpu)
  }

  /** Node kinds with their numbers, in the order of the kinds. */
  type Counts = seq<(string, nat)>

  type Amount = x: real | x >= 0.0

  /** What a number of nodes of a kind needs of one resource. */
  type Demand = (string, nat) -> Amount

  function Total(counts: Counts, demand: Demand): Amount {
    if counts == [] then 0.0
    else Total(counts[..|counts| - 1], demand) + demand(counts[|counts| - 1].0, counts[|counts| - 1].1)
  }

  function MemoryOf(profiles: Profiles): Demand {
    (kind, n) => Times(n, profiles(kind).memory)
  }

  function CpuOf(profiles: Profiles): Demand {
    (kind, n) => Times(n, profiles(kind).cpu)
  }

  function Memory(counts: Counts, profiles: Profiles): Amount {
    Total(counts, MemoryOf(profiles))
  }

  function Cpu(counts: Counts, profiles: Profiles): Amount {
    Total(counts, CpuOf(profiles))
  }

  function Times(count: nat, each: real): (r: real)
    requires each > 0.0
    ensures r >= 0.0
    ensures r > 0.0 <==> count > 0
  {
    count as real * each
  }

  /** The figures of the agent; `guard` is the reserve asked for, `available` the comparison mode. */
  datatype Resources = Resources(memoryTotal: int, memoryUsed: int, cpuPercent: real, cpuCount: int, guard: real,
                                 available: bool)

  function Max(a: real, b: real): real { if a >= b then a else b }

  function Min(a: real, b: real): real { if a <= b then a else b }

  function AllowedRatio(r: Resources): (ratio: real)
    ensures 0.05 <= ratio <= 1.0
  {
    1.0 - Min(Max(r.guard, 0.0), 0.95)
  }

  function CpuUnits(r: Resources): (units: real)
    ensures units >= 100.0
  {
    if r.cpuCount <= 0 then 100.0 else r.cpuCount as real * 100.0
  }

  datatype Budget = Budget(memory: real, cpu: real) {
    predicate Valid() { memory >= 0.0 && cpu >= 0.0 }
  }

  /** What the agent can give after the reserve, and in `available` mode after its current use. */
  function BudgetOf(r: Resources): (b: Budget)
    ensures b.Valid()
  {
    var memory := Max(0.0, r.memoryTotal as real * AllowedRatio(r));
    var cpu := CpuUnits(r) * AllowedRatio(r);
    var usedCpu := Min(Max(r.cpuPercent, 0.0), 100.0) / 100.0 * CpuUnits(r);
    if r.available then Budget(Max(0.0, memory - r.memoryUsed as real), Max(0.0, cpu - usedCpu))
    else Budget(memory, Max(0.0, cpu))
  }

  function Ratio(budget: real, required: real): (ratio: real)
    requires budget >= 0.0 && required >= 0.0
    ensures ratio >= 0.0
  {
    if required > 0.0 then budget / required else 1.0
  }

  function FitRatio(counts: Counts, profiles: Profiles, b: Budget): (ratio: real)
    requires b.Valid()
    ensures 0.0 <= ratio <= 1.0
    ensures ratio <= Ratio(b.memory, Memory(counts, profiles)) && ratio <= Ratio(b.cpu, Cpu(counts, profiles))
  {
    Min(Min(1.0, Ratio(b.memory, Memory(counts, profiles))), Ratio(b.cpu, Cpu(counts, profiles)))
  }

  function Shrunk(counts: Counts, ratio: real): (s: Counts)
    requires ratio >= 0.0
    ensures |s| == |counts|
    ensures forall i :: 0 <= i < |s| ==> s[i] == (counts[i].0, Floor(counts[i].1, ratio))
  {
    if counts == [] then []
    else
      var last := counts[|counts| - 1];
      Shrunk(counts[..|counts| - 1], ratio) + [(last.0, Floor(last.1, ratio))]
  }

  /** `max(0, math.floor(count * ratio))` */
  function Floor(count: nat, ratio: real): (n: nat)
    requires ratio >= 0.0
    ensures n as real <= count as real * ratio < n as real + 1.0
  {
    (count as real * ratio).Floor
  }

  predicate Fits(counts: Counts, profiles: Profiles, b: Budget) {
    Memory(counts, profiles) <= b.memory && Cpu(counts, profiles) <= b.cpu
  }

  /** `estimate_sandbox_capacity`, from counted nodes on. */
  method Estimate(counts: Counts, r: Resources) returns (ok: bool, suggested: Counts)
    ensures ok <==> Fits(counts, ProfileOf, BudgetOf(r))
    ensures suggested == if ok then [] else Shrunk(counts, FitRatio(counts, ProfileOf, BudgetOf(r)))
    ensures !ok ==> Fits(suggested, ProfileOf, BudgetOf(r))
  {
    var b := BudgetOf(r);
    var requiredMemory, requiredCpu := 0.0, 0.0;
    for i := 0 to |counts|
      invariant requiredMemory == Memory(counts[..i], ProfileOf) && requiredCpu == Cpu(counts[..i], ProfileOf)
    {
      assert counts[..i + 1][..i] == counts[..i];
      var profile := ProfileOf(counts[i].0);
      requiredMemory := requiredMemory + Times(counts[i].1, profile.memory);
      requiredCpu := requiredCpu + Times(counts[i].1, profile.cpu);
    }
    assert counts[..|counts|] == counts;
    ok := requiredMemory <= b.memory && requiredCpu <= b.cpu;
    suggested := [];
    if !ok {
      var ratio := Min(Min(1.0, Ratio(b.memory, requiredMemory)), Ratio(b.cpu, requiredCpu));
      suggested := Suggest(counts, ratio);
      SuggestionFits(counts, ProfileOf, b);
    }
  }

  method Suggest(counts: Counts, ratio: real) returns (suggested: Counts)
    requires ratio >= 0.0
    ensures suggested == Shrunk(counts, ratio)
  {
    suggested := [];
    for i := 0 to |counts|
      invariant suggested == Shrunk(counts[..i], ratio)
    {
      assert counts[..i + 1][..i] == counts[..i];
      suggested := suggested + [(counts[i].0, Floor(counts[i].1, ratio))];
    }
    assert counts[..|counts|] == counts;
  }

  // ----- the suggestion fits -----

  lemma ScaledTerm(n: nat, count: nat, ratio: real, each: real)
    requires each > 0.0 && n as real <= count as real * ratio
    ensures Times(n, each) <= Times(count, each) * ratio
  {
  }

  ghost predicate Additive(scale: real -> real) {
    scale(0.0) == 0.0 && forall x, y :: scale(x + y) == scale(x) + scale(y)
  }

  /** Every term shrinks at least as much as `scale` says. */
  ghost predicate TermsShrink(demand: Demand, ratio: real, scale: real -> real)
    requires ratio >= 0.0
  {
    forall kind, count :: demand(kind, Floor(count, ratio)) <= scale(demand(kind, count))
  }

  /** A total follows its terms under any additive scaling. */
  lemma {:induction false} TotalShrinks(counts: Counts, demand: Demand, ratio: real, scale: real -> real)
    requires ratio >= 0.0 && Additive(scale) && TermsShrink(demand, ratio, scale)
    ensures Total(Shrunk(counts, ratio), demand) <= scale(Total(counts, demand))
  {
    if counts != [] {
      var init, last := counts[..|counts| - 1], counts[|counts| - 1];
      TotalShrinks(init, demand, ratio, scale);
      var s := Shrunk(counts, ratio);
      assert s[..|s| - 1] == Shrunk(init, ratio);
      assert demand(last.0, Floor(last.1, ratio)) <= scale(demand(last.0, last.1));
    }
  }

  function By(ratio: real): real -> real {
    (x: real) => x * ratio
  }

  lemma Distributes(x: real, y: real, ratio: real)
    ensures (x + y) * ratio == x * ratio + y * ratio
  {
  }

  lemma ByDistributes(ratio: real, x: real, y: real)
    ensures By(ratio)(x + y) == By(ratio)(x) + By(ratio)(y)
  {
    var sum := x + y;
    Distributes(x, y, ratio);
    assert By(ratio)(sum) == sum * ratio;
  }

  lemma ByIsAdditive(ratio: real)
    ensures Additive(By(ratio))
  {
    var scale := By(ratio);
    forall x, y ensures scale(x + y) == scale(x) + scale(y) {
      ByDistributes(ratio, x, y);
    }
    assert scale(0.0) == 0.0 by {
      ByDistributes(ratio, 0.0, 0.0);
    }
  }

  lemma MemoryTermsShrink(profiles: Profiles, ratio: real)
    requires ratio >= 0.0
    ensures TermsShrink(MemoryOf(profiles), ratio, By(ratio))
  {
    forall kind, count: nat
      ensures MemoryOf(profiles)(kind, Floor(count, ratio)) <= By(ratio)(MemoryOf(profiles)(kind, count))
    {
      ScaledTerm(Floor(count, ratio), count, ratio, profiles(kind).memory);
    }
  }

  lemma CpuTermsShrink(profiles: Profiles, ratio: real)
    requires ratio >= 0.0
    ensures TermsShrink(CpuOf(profiles), ratio, By(ratio))
  {
    forall kind, count: nat
      ensures CpuOf(profiles)(kind, Floor(count, ratio)) <= By(ratio)(CpuOf(profiles)(kind, count))
    {
      ScaledTerm(Floor(count, ratio), count, ratio, profiles(kind).cpu);
    }
  }

  /** Shrinking every count by a ratio shrinks both requirements by at least that ratio. */
  lemma ShrinkingScales(counts: Counts, profiles: Profiles, ratio: real)
    requires ratio >= 0.0
    ensures Memory(Shrunk(counts, ratio), profiles) <= By(ratio)(Memory(counts, profiles))
    ensures Cpu(Shrunk(counts, ratio), profiles) <= By(ratio)(Cpu(counts, profiles))
  {
    ByIsAdditive(ratio);
    MemoryTermsShrink(profiles, ratio);
    CpuTermsShrink(profiles, ratio);
    TotalShrinks(counts, MemoryOf(profiles), ratio, By(ratio));
    TotalShrinks(counts, CpuOf(profiles), ratio, By(ratio));
  }

  lemma RatioFits(shrunk: real, required: real, budget: real, ratio: real)
    requires required >= 0.0 && budget >= 0.0 && 0.0 <= ratio <= Ratio(budget, required)
    requires shrunk <= By(ratio)(required)
    ensures shrunk <= budget
  {
  }

  /** The suggested numbers, estimated again, always fit both budgets. */
  lemma SuggestionFits(counts: Counts, profiles: Profiles, b: Budget)
    requires b.Valid()
    ensures Fits(Shrunk(counts, FitRatio(counts, profiles, b)), profiles, b)
  {
    var ratio := FitRatio(counts, profiles, b);
    ShrinkingScales(counts, profiles, ratio);
    RatioFits(Memory(Shrunk(counts, ratio), profiles), Memory(counts, profiles), b.memory, ratio);
    RatioFits(Cpu(Shrunk(counts, ratio), profiles), Cpu(counts, profiles), b.cpu, ratio);
  }

  lemma RatioAtLeastOne(required: real, budget: real)
    requires required >= 0.0 && budget >= 0.0
    ensures Ratio(budget, required) >= 1.0 <==> required <= budget
  {
    if required > 0.0 {
      var q := Ratio(budget, required);
      assert budget == q * required;
      if q >= 1.0 {
        assert (q - 1.0) * required >= 0.0;
      } else {
        assert (1.0 - q) * required > 0.0;
        assert (1.0 - q) * required == required - budget;
      }
    }
  }

  /** The ratio is 1 exactly for topologies that fit: no other topology is left as it is. */
  lemma RatioIsOneIff(counts: Counts, profiles: Profiles, b: Budget)
    requires b.Valid()
    ensures FitRatio(counts, profiles, b) == 1.0 <==> Fits(counts, profiles, b)
  {
    RatioAtLeastOne(Memory(counts, profiles), b.memory);
    RatioAtLeastOne(Cpu(counts, profiles), b.cpu);
  }

  lemma NeverMore(count: nat, ratio: real)
    requires 0.0 <= ratio <= 1.0
    ensures Floor(count, ratio) <= count
  {
  }

  lemma SameUnlessSomethingShrinks(counts: Counts, ratio: real)
    requires 0.0 <= ratio <= 1.0
    requires forall i :: 0 <= i < |counts| ==> Shrunk(counts, ratio)[i].1 >= counts[i].1
    ensures Shrunk(counts, ratio) == counts
  {
    forall i | 0 <= i < |counts| ensures Shrunk(counts, ratio)[i] == counts[i] {
      NeverMore(counts[i].1, ratio);
    }
  }

  /** A topology that does not fit is told to give up at least one node. */
  lemma SomethingShrinks(counts: Counts, profiles: Profiles, b: Budget)
    requires b.Valid() && !Fits(counts, profiles, b)
    ensures exists i :: 0 <= i < |counts| && Shrunk(counts, FitRatio(counts, profiles, b))[i].1 < counts[i].1
  {
    SuggestionFits(counts, profiles, b);
    if forall i :: 0 <= i < |counts| ==> Shrunk(counts, FitRatio(counts, profiles, b))[i].1 >= counts[i].1 {
      SameUnlessSomethingShrinks(counts, FitRatio(counts, profiles, b));
    }
  }

  // ----- the figures themselves -----

  /** Nodes of one kind need their number times what one of them needs. */
  lemma OneKindNeeds(kind: string, n: nat, profiles: Profiles)
    ensures Memory([(kind, n)], profiles) == n as real * profiles(kind).memory
    ensures Cpu([(kind, n)], profiles) == n as real * profiles(kind).cpu
  {
    var counts := [(kind, n)];
    assert counts[..|counts| - 1] == [] && counts[|counts| - 1] == (kind, n);
    assert Total(counts, MemoryOf(profiles)) == Total([], MemoryOf(profiles)) + MemoryOf(profiles)(kind, n);
    assert Total(counts, CpuOf(profiles)) == Total([], CpuOf(profiles)) + CpuOf(profiles)(kind, n);
  }

  lemma {:induction false} TotalAppend(a: Counts, b: Counts, demand: Demand)
    ensures Total(a + b, demand) == Total(a, demand) + Total(b, demand)
  {
    if b == [] {
      assert a + b == a;
    } else {
      assert (a + b)[..|a + b| - 1] == a + b[..|b| - 1];
      TotalAppend(a, b[..|b| - 1], demand);
    }
  }

  /** What two topologies need together is the sum of what each needs. */
  lemma NeedsAddUp(a: Counts, b: Counts, profiles: Profiles)
    ensures Memory(a + b, profiles) == Memory(a, profiles) + Memory(b, profiles)
    ensures Cpu(a + b, profiles) == Cpu(a, profiles) + Cpu(b, profiles)
  {
    TotalAppend(a, b, MemoryOf(profiles));
    TotalAppend(a, b, CpuOf(profiles));
  }

  lemma ScaledFits(required: real, budget: real, ratio: real)
    requires required >= 0.0 && budget >= 0.0 && 0.0 <= ratio <= 1.0
    ensures ratio <= Ratio(budget, required) <==> ratio * required <= budget || (required == 0.0)
  {
    if required > 0.0 {
      var q := budget / required;
      assert q * required == budget;
      if ratio <= q {
        assert (q - ratio) * required >= 0.0;
      } else {
        assert (ratio - q) * required > 0.0;
      }
    }
  }

  /** The ratio is the largest one, up to 1, that brings both requirements into their budgets. */
  lemma LargestRatio(counts: Counts, profiles: Profiles, b: Budget, ratio: real)
    requires b.Valid() && 0.0 <= ratio <= 1.0
    ensures ratio <= FitRatio(counts, profiles, b) <==>
            ratio * Memory(counts, profiles) <= b.memory && ratio * Cpu(counts, profiles) <= b.cpu
  {
    ScaledFits(Memory(counts, profiles), b.memory, ratio);
    ScaledFits(Cpu(counts, profiles), b.cpu, ratio);
  }

  /** The share of the machine that is left beside the reserve: between all of it and a twentieth. */
  function Share(guard: real): real {
    if guard <= 0.0 then 1.0 else if guard >= 0.95 then 0.05 else 1.0 - guard
  }

  function Cores(count: int): real {
    if count <= 0 then 1.0 else count as real
  }

  function Busy(percent: real): real {
    if percent <= 0.0 then 0.0 else if percent >= 100.0 then 100.0 else percent
  }

  /** In the physical mode the budget is the share of the machine, whatever is in use. */
  lemma PhysicalBudget(r: Resources)
    requires !r.available
    ensures BudgetOf(r).memory == if r.memoryTotal <= 0 then 0.0 else r.memoryTotal as real * Share(r.guard)
    ensures BudgetOf(r).cpu == Cores(r.cpuCount) * 100.0 * Share(r.guard)
  {
    assert AllowedRatio(r) == Share(r.guard);
    if r.memoryTotal <= 0 {
      assert r.memoryTotal as real * AllowedRatio(r) <= 0.0;
    } else {
      assert r.memoryTotal as real * AllowedRatio(r) >= 0.0;
    }
  }

  lemma UsedCpu(r: Resources)
    ensures Min(Max(r.cpuPercent, 0.0), 100.0) / 100.0 * CpuUnits(r) == Busy(r.cpuPercent) * Cores(r.cpuCount)
  {
  }

  /** In the available mode an amount fits if and only if, together with what is in use, it fits into the
      physical budget. */
  lemma AvailableBudget(r: Resources, memory: real, cpu: real)
    requires r.available && memory > 0.0 && cpu > 0.0
    ensures var physical := BudgetOf(r.(available := false));
      && (memory <= BudgetOf(r).memory <==> memory + r.memoryUsed as real <= physical.memory)
      && (cpu <= BudgetOf(r).cpu <==> cpu + Busy(r.cpuPercent) * Cores(r.cpuCount) <= physical.cpu)
  {
    UsedCpu(r);
    PhysicalBudget(r.(available := false));
  }
}
