/** The sandbox transaction with its validator in front: which topologies can reach the disk. */
module SandboxTopologies {
  import opened Sequences
  import opened Sandbox
  import V = TopologyValidator

  /** The rules besides the management identity, decided by the validator on the parsed text. */
  ghost predicate DecidedByValidator(op: Op, document: Text -> V.Document, vm: V.SubnetField) {
    !op.ResetOp? && op.otherRules ==> V.Acceptable(document(op.yaml), vm)
  }

  ghost predicate AcceptableIfTorn(w: Write, document: Text -> V.Document, vm: V.SubnetField) {
    w.Throws? && w.torn.Some? ==> V.Acceptable(document(w.torn.value), vm)
  }

  /** Whatever a write that throws leaves in the topology file or the baseline is acceptable; in
      particular if it leaves the file as it was. */
  ghost predicate TornIsAcceptable(e: Env, document: Text -> V.Document, vm: V.SubnetField) {
    && AcceptableIfTorn(e.baselineWrite, document, vm) && AcceptableIfTorn(e.yamlWrite, document, vm)
    && AcceptableIfTorn(e.rollbackWrite, document, vm) && AcceptableIfTorn(e.handlerWrite, document, vm)
  }

  /** Topology and baseline are acceptable. */
  ghost predicate AcceptableDisk(d: Disk, document: Text -> V.Document, vm: V.SubnetField) {
    && V.Acceptable(document(d.topology), vm)
    && (d.baseline.Some? ==> V.Acceptable(document(d.baseline.value), vm))
  }

  /** From an acceptable disk, every run leaves acceptable topologies on it, whatever fails on the way
      except a write that tears a file. */
  lemma {:induction false} TopologiesStayAcceptable(parse: Parser, disks: seq<Disk>, ops: seq<Op>, results: seq<Result>,
                                                    document: Text -> V.Document, vm: V.SubnetField, j: nat)
    requires IsRun(parse, disks, ops, results) && j < |disks|
    requires forall k :: 0 <= k < |ops| ==>
      TornIsAcceptable(ops[k].env, document, vm) && DecidedByValidator(ops[k], document, vm)
    requires AcceptableDisk(disks[0], document, vm)
    ensures AcceptableDisk(disks[j], document, vm)
    decreases j
  {
    if j > 0 {
      TopologiesStayAcceptable(parse, disks, ops, results, document, vm, j - 1);
      assert Step(parse, disks[j - 1], ops[j - 1], disks[j], results[j - 1]);
      StepKeepsAcceptable(parse, disks[j - 1], ops[j - 1], disks[j], results[j - 1], document, vm);
    }
  }

  lemma LeftBehindIsAcceptable(before: Text, next: Text, positions: Positions, e: Env, document: Text -> V.Document,
                               vm: V.SubnetField)
    requires V.Acceptable(document(before), vm) && V.Acceptable(document(next), vm)
    requires TornIsAcceptable(e, document, vm)
    ensures V.Acceptable(document(LeftBehind(before, next, positions, e)), vm)
  {
  }

  lemma StepKeepsAcceptable(parse: Parser, d: Disk, op: Op, d': Disk, r: Result, document: Text -> V.Document,
                            vm: V.SubnetField)
    requires Step(parse, d, op, d', r) && TornIsAcceptable(op.env, document, vm)
    requires DecidedByValidator(op, document, vm) && AcceptableDisk(d, document, vm)
    ensures AcceptableDisk(d', document, vm)
  {
    match op
    case ApplyOp(yaml, otherRules, e) =>
      if !r.Rejected? {
        LeftBehindIsAcceptable(d.topology, yaml, e.positions, e, document, vm);
      }
    case UpdateOp(yaml, otherRules, e) =>
    case ResetOp(e) =>
      if d.baseline.Some? {
        LeftBehindIsAcceptable(d.topology, d.baseline.value, NoPositions, e, document, vm);
      }
  }

  /** Hence no run ever leaves a topology with more than 256 nodes that are not bridges. */
  lemma RunsKeepAtMost256Nodes(parse: Parser, disks: seq<Disk>, ops: seq<Op>, results: seq<Result>,
                               document: Text -> V.Document, vm: V.SubnetField, j: nat)
    requires IsRun(parse, disks, ops, results) && j < |disks|
    requires forall k :: 0 <= k < |ops| ==>
      TornIsAcceptable(ops[k].env, document, vm) && DecidedByValidator(ops[k], document, vm)
    requires AcceptableDisk(disks[0], document, vm)
    ensures V.AddressedCount(document(disks[j].topology).nodes) <= 256
  {
    TopologiesStayAcceptable(parse, disks, ops, results, document, vm, j);
    V.AtMost256Nodes(document(disks[j].topology), vm);
  }
}
