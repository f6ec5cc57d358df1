/** The sandbox transaction of a lab: apply, update and reset over three files (topology, admin
    baseline, annotations) and the deployed lab. Every file write, every stop and start of the lab
    may fail or throw; an `Env` says how each of them goes in one call. */
module Sandbox {
  import opened Sequences

  type Text = string

  // ----- parsed topologies, as far as the transaction looks at them -----

  /** The management network name and subnet; an absent one is empty. */
  datatype Signature = Signature(network: string, subnet: string)

  /** `Broken` makes the YAML parser raise; of a mapping only the signature is singled out. */
  datatype Parsed = Broken | NoMapping | Doc(signature: Signature, rest: string)

  type Parser = Text -> Parsed

  function SignatureOf(p: Parsed): Signature {
    if p.Doc? then p.signature else Signature("", "")
  }

  /** Every component that the reference names is the same in the other signature. */
  predicate Agrees(ref: Signature, other: Signature) {
    && (ref.network != "" ==> other.network == ref.network)
    && (ref.subnet != "" ==> other.subnet == ref.subnet)
  }

  // ----- the state and how external steps may go -----

  /** `deployed` is the text the running lab was started from, if it is known to run one. */
  datatype Disk = Disk(topology: Text, baseline: Option<Text>, annotations: Option<Text>, deployed: Option<Text>)

  function Reference(d: Disk): Text {
    if d.baseline.Some? then d.baseline.value else d.topology
  }

  /** A file write succeeds, or throws, possibly leaving torn contents behind. */
  datatype Write = Done | Throws(torn: Option<Text>)

  /** Stopping (with waiting and forced removal) never counts as failed, but may throw. */
  datatype Stop = Stopped(after: Option<Text>) | StopThrows(after: Option<Text>)

  datatype Start = Started | StartFails(retryable: bool, after: Option<Text>) | StartThrows(after: Option<Text>)

  /** Node positions are written atomically, or there are none to write, or writing throws. */
  datatype Positions = Positions(text: Text) | NoPositions | PositionsThrow

  datatype Restore = Restored | RestoreFails(left: Option<Text>)

  datatype Env = Env(
    referenceReadable: bool,
    resolves: bool,
    baselineWrite: Write,
    readable: bool,
    snapshotReadable: bool,
    backup: bool,
    destroy: Stop,
    yamlWrite: Write,
    positions: Positions,
    start: Start,
    retryDestroy: Stop,
    retryStart: Start,
    rollbackWrite: Write,
    rollbackRestore: Restore,
    rollbackStop: Stop,
    rollbackStart: Start,
    handlerWrite: Write,
    handlerRestore: Restore)

  /** What a file holds after a write of `text`. */
  function Written(before: Text, text: Text, w: Write): Text {
    if w.Done? then text else if w.torn.Some? then w.torn.value else before
  }

  predicate Clean(w: Write) {
    w.Throws? ==> w.torn.None?
  }

  /** Writes that throw leave the file as it was. */
  predicate CleanWrites(e: Env) {
    Clean(e.baselineWrite) && Clean(e.yamlWrite) && Clean(e.rollbackWrite) && Clean(e.handlerWrite)
  }

  // ----- validation, as far as the management identity goes -----

  /** The text parses to a mapping, and the signature check passes; the check is skipped when the
      reference cannot be read or parsed. */
  predicate IdentityOk(parse: Parser, e: Env, ref: Text, yaml: Text) {
    && parse(yaml).Doc?
    && (e.referenceReadable && !parse(ref).Broken? ==> Agrees(SignatureOf(parse(ref)), SignatureOf(parse(yaml))))
  }

  predicate Accepted(parse: Parser, e: Env, d: Disk, yaml: Text, otherRules: bool) {
    otherRules && IdentityOk(parse, e, Reference(d), yaml)
  }

  // ----- what each operation promises -----

  datatype Result =
    | Rejected
    | Unchanged
    | Deployed
    | Failed(rolledBack: bool)
    | NoBaseline
    | Raised

  /** Created at most once, from the topology of that moment, and never changed afterwards. */
  ghost predicate BaselineKept(d: Disk, d': Disk, e: Env) {
    && (d.baseline.Some? ==> d'.baseline == d.baseline)
    && (d.baseline.None? ==>
          || d'.baseline == None
          || (if e.baselineWrite.Done? then d'.baseline == Some(d.topology) else d'.baseline == e.baselineWrite.torn))
  }

  /** The lab starts, at once or at the retry. */
  predicate Starts(e: Env) {
    e.start.Started? ||
    (e.start.StartFails? && e.start.retryable && e.retryDestroy.Stopped? && e.retryStart.Started?)
  }

  predicate StartThrew(e: Env) {
    e.start.StartThrows? ||
    (e.start.StartFails? && e.start.retryable && (e.retryDestroy.StopThrows? || e.retryStart.StartThrows?))
  }

  /** Everything an apply does before it touches the lab goes through. */
  predicate Prepared(d: Disk, e: Env) {
    e.resolves && (d.baseline.Some? || e.baselineWrite.Done?) && e.readable
  }

  predicate Changes(parse: Parser, d: Disk, yaml: Text) {
    parse(d.topology).Broken? || parse(yaml) != parse(d.topology)
  }

  /** The lab is down and the new files are written. */
  predicate FilesWritten(e: Env) {
    e.destroy.Stopped? && e.yamlWrite.Done? && !e.positions.PositionsThrow?
  }

  /** After a failed start, the old file is back and the lab was stopped and started, well or not. */
  predicate RollbackRuns(e: Env) {
    e.rollbackWrite.Done? && e.rollbackStop.Stopped? && !e.rollbackStart.StartThrows?
  }

  /** The `try` of an apply ends in its handler. */
  predicate TryThrows(e: Env) {
    !FilesWritten(e) || StartThrew(e) || (!Starts(e) && !RollbackRuns(e))
  }

  /** The topology file after stopping, writing `next`, starting and, if that fails, writing the old
      text back, up to the first exception. */
  function LeftBehind(before: Text, next: Text, positions: Positions, e: Env): Text {
    if e.destroy.StopThrows? then before
    else
      var written := Written(before, next, e.yamlWrite);
      if e.yamlWrite.Throws? || positions.PositionsThrow? || StartThrew(e) || Starts(e) then written
      else Written(written, before, e.rollbackWrite)
  }

  /** The same with the handler of an apply, which writes the old text back once more. */
  function LeftByTry(before: Text, next: Text, e: Env): Text {
    var left := LeftBehind(before, next, e.positions, e);
    if TryThrows(e) then Written(left, before, e.handlerWrite) else left
  }

  /** Which result an apply has, for every way its environment may go. */
  ghost predicate ApplyResult(parse: Parser, d: Disk, yaml: Text, otherRules: bool, e: Env, r: Result) {
    var accepted := Accepted(parse, e, d, yaml, otherRules);
    var changes := Changes(parse, d, yaml);
    && !r.NoBaseline?
    && (r.Rejected? <==> !accepted)
    && (r.Raised? <==> accepted && (!Prepared(d, e) || (changes && !e.backup)))
    && (r.Unchanged? <==> accepted && Prepared(d, e) && !changes)
    && (r.Deployed? <==> accepted && Prepared(d, e) && changes && e.backup && FilesWritten(e) && Starts(e))
    && (r == Failed(true) <==>
          && accepted && Prepared(d, e) && changes && e.backup && FilesWritten(e) && !Starts(e) && !StartThrew(e)
          && e.rollbackWrite.Done? && e.rollbackStop.Stopped? && e.rollbackStart.Started?)
  }

  /** Apply deploys the new files or puts the old ones back, as far as its last write allows. */
  ghost predicate ApplyPromise(parse: Parser, d: Disk, yaml: Text, otherRules: bool, e: Env, d': Disk, r: Result) {
    && ApplyResult(parse, d, yaml, otherRules, e, r)
    && BaselineKept(d, d', e)
    && (r.Rejected? ==> d' == d)
    && (r.Raised? || r.Unchanged? ==> d'.(baseline := d.baseline) == d)
    && (r.Unchanged? || r.Deployed? || r.Failed? ==> d'.baseline == Some(Reference(d)))
    && (r.Deployed? ==>
          && d'.topology == yaml && d'.deployed == Some(yaml)
          && d'.annotations == if e.positions.Positions? then Some(e.positions.text) else d.annotations)
    && (r.Failed? ==> d'.topology == LeftByTry(d.topology, yaml, e))
    && (r.Failed? && (TryThrows(e) ==> e.handlerWrite.Done?) ==> d'.topology == d.topology)
    && (r.Failed? && e.snapshotReadable && (if TryThrows(e) then e.handlerRestore else e.rollbackRestore).Restored? ==>
          d'.annotations == d.annotations)
    && (r == Failed(true) ==> d'.topology == d.topology && d'.deployed == Some(d.topology))
  }

  /** Update writes the file and, if told, the positions; it neither stops nor starts the lab. */
  ghost predicate UpdatePromise(parse: Parser, d: Disk, yaml: Text, otherRules: bool, e: Env, d': Disk, r: Result) {
    && d'.baseline == d.baseline && d'.deployed == d.deployed
    && (r.Rejected? <==> !Accepted(parse, e, d, yaml, otherRules))
    && (r.Rejected? ==> d' == d)
    && (r.Rejected? || r.Deployed? || r.Raised?)
    && (r.Deployed? <==>
          && Accepted(parse, e, d, yaml, otherRules)
          && e.resolves && e.readable && e.yamlWrite.Done? && !e.positions.PositionsThrow?)
    && (r.Deployed? ==>
          d'.topology == yaml &&
            d'.annotations == if e.positions.Positions? then Some(e.positions.text) else d.annotations)
    && (r.Raised? ==> d'.annotations == d.annotations)
    && (r.Raised? ==>
          d'.topology == if e.resolves && e.readable then Written(d.topology, yaml, e.yamlWrite) else d.topology)
  }

  /** Everything a reset does before it touches the lab goes through. */
  predicate ResetPrepared(d: Disk, e: Env) {
    e.resolves && d.baseline.Some? && e.readable && e.backup
  }

  /** The lab is down and the baseline is written to the topology file. */
  predicate BaselineWritten(d: Disk, e: Env) {
    ResetPrepared(d, e) && e.destroy.Stopped? && e.yamlWrite.Done?
  }

  /** Reset does the same with the baseline; it has no handler for exceptions. */
  ghost predicate ResetPromise(d: Disk, e: Env, d': Disk, r: Result) {
    && d'.baseline == d.baseline && d'.annotations == d.annotations
    && !r.Rejected? && !r.Unchanged?
    && (r.NoBaseline? <==> e.resolves && d.baseline.None?)
    && (r.Deployed? <==> BaselineWritten(d, e) && Starts(e))
    && (r.Failed? <==> BaselineWritten(d, e) && !Starts(e) && !StartThrew(e) && RollbackRuns(e))
    && (r == Failed(true) <==> r.Failed? && e.rollbackStart.Started?)
    && (r.Raised? <==>
          || !e.resolves
          || (d.baseline.Some? && !BaselineWritten(d, e))
          || (BaselineWritten(d, e) && !Starts(e) && (StartThrew(e) || !RollbackRuns(e))))
    && (r.NoBaseline? ==> d' == d)
    && (r.Deployed? ==> d.baseline.Some? && d'.topology == d.baseline.value && d'.deployed == d.baseline)
    && (r.Failed? ==> d'.topology == d.topology)
    && (r == Failed(true) ==> d'.deployed == Some(d.topology))
    && (r.Raised? ==>
          d'.topology == if ResetPrepared(d, e) then LeftBehind(d.topology, d.baseline.value, NoPositions, e)
                         else d.topology)
  }

  // ----- the operations -----

  /** How a block with exceptions ends. */
  datatype Exit = Returned(result: Result) | Threw

  class SandboxHost {
    var topology: Text
    var baseline: Option<Text>
    var annotations: Option<Text>
    var deployed: Option<Text>

    constructor (text: Text)
      ensures State() == Disk(text, None, None, None)
    {
      topology, baseline, annotations, deployed := text, None, None, None;
    }

    function State(): Disk
      reads this
    {
      Disk(topology, baseline, annotations, deployed)
    }

    method WriteTopology(text: Text, w: Write) returns (threw: bool)
      modifies this`topology
      ensures threw <==> w.Throws?
      ensures topology == Written(old(topology), text, w)
    {
      match w
      case Done =>
        topology := text;
        threw := false;
      case Throws(torn) =>
        if torn.Some? {
          topology := torn.value;
        }
        threw := true;
    }

    method StopLab(s: Stop) returns (threw: bool)
      modifies this`deployed
      ensures threw <==> s.StopThrows?
      ensures deployed == s.after
    {
      deployed := s.after;
      threw := s.StopThrows?;
    }

    /** `start_lab` on the topology file. */
    method StartLab(s: Start) returns (ok: bool, threw: bool)
      modifies this`deployed
      ensures ok <==> s.Started?
      ensures threw <==> s.StartThrows?
      ensures deployed == if s.Started? then Some(topology) else s.after
    {
      ok, threw := s.Started?, s.StartThrows?;
      deployed := if s.Started? then Some(topology) else s.after;
    }

    /** Restores the annotations file from its snapshot; never throws. */
    method RestoreAnnotations(existed: bool, original: Option<Text>, restore: Restore)
      modifies this`annotations
      ensures annotations ==
              if restore.RestoreFails? then restore.left
              else if existed then (if original.Some? then original else Some("{}"))
              else None
    {
      match restore
      case Restored =>
        if existed {
          annotations := if original.Some? then original else Some("{}");
        } else {
          annotations := None;
        }
      case RestoreFails(left) =>
        annotations := left;
    }

    /** Start, and once more after a cleanup if the first failure allows a retry. */
    method StartWithRetry(e: Env) returns (ok: bool, threw: bool)
      modifies this`deployed
      ensures threw <==> StartThrew(e)
      ensures ok && !threw <==> Starts(e)
      ensures ok && !threw ==> deployed == Some(topology)
    {
      ok, threw := StartLab(e.start);
      if threw || ok {
        return;
      }
      if e.start.retryable {
        threw := StopLab(e.retryDestroy);
        if threw {
          return;
        }
        ok, threw := StartLab(e.retryStart);
      }
    }

    /** The body of the `try` in apply. */
    method DeployOrRollBack(yaml: Text, original: Text, existed: bool, snapshot: Option<Text>, e: Env)
      returns (exit: Exit)
      requires topology == original
      modifies this`topology, this`annotations, this`deployed
      ensures exit.Threw? <==> TryThrows(e)
      ensures exit.Returned? ==> exit.result.Deployed? || exit.result.Failed?
      ensures exit == Returned(Deployed) <==> FilesWritten(e) && Starts(e)
      ensures exit == Returned(Failed(true)) <==>
                && FilesWritten(e) && !Starts(e) && !StartThrew(e)
                && e.rollbackWrite.Done? && e.rollbackStop.Stopped? && e.rollbackStart.Started?
      ensures exit == Returned(Deployed) ==>
                && topology == yaml && deployed == Some(yaml)
                && annotations == if e.positions.Positions? then Some(e.positions.text) else old(annotations)
      ensures exit.Returned? && exit.result.Failed? ==>
                && topology == original
                && (exit.result.rolledBack ==> deployed == Some(original))
                && (e.rollbackRestore.Restored? ==>
                      annotations == if existed then (if snapshot.Some? then snapshot else Some("{}")) else None)
      ensures topology == LeftBehind(original, yaml, e.positions, e)
    {
      var threw := StopLab(e.destroy);
      if threw {
        return Threw;
      }
      threw := WriteTopology(yaml, e.yamlWrite);
      if threw {
        return Threw;
      }
      match e.positions {
        case Positions(text) => annotations := Some(text);
        case NoPositions =>
        case PositionsThrow => return Threw;
      }
      var ok;
      ok, threw := StartWithRetry(e);
      if threw {
        return Threw;
      }
      if ok {
        return Returned(Deployed);
      }
      threw := WriteTopology(original, e.rollbackWrite);
      if threw {
        return Threw;
      }
      RestoreAnnotations(existed, snapshot, e.rollbackRestore);
      threw := StopLab(e.rollbackStop);
      if threw {
        return Threw;
      }
      ok, threw := StartLab(e.rollbackStart);
      if threw {
        return Threw;
      }
      return Returned(Failed(ok));
    }

    method Apply(parse: Parser, yaml: Text, otherRules: bool, e: Env) returns (r: Result)
      modifies this
      ensures ApplyPromise(parse, old(State()), yaml, otherRules, e, State(), r)
    {
      if !Accepted(parse, e, State(), yaml, otherRules) {
        return Rejected;
      }
      if !e.resolves {
        return Raised;
      }
      if baseline.None? {
        match e.baselineWrite {
          case Done => baseline := Some(topology);
          case Throws(torn) =>
            baseline := torn;
            return Raised;
        }
      }
      if !e.readable {
        return Raised;
      }
      var original := topology;
      var existed := annotations.Some?;
      var snapshot := if e.snapshotReadable then annotations else None;
      if !parse(original).Broken? && parse(yaml) == parse(original) {
        return Unchanged;
      }
      if !e.backup {
        return Raised;
      }
      var exit := DeployOrRollBack(yaml, original, existed, snapshot, e);
      if exit.Returned? {
        return exit.result;
      }
      var _ := WriteTopology(original, e.handlerWrite);
      RestoreAnnotations(existed, snapshot, e.handlerRestore);
      return Failed(false);
    }

    method Update(parse: Parser, yaml: Text, otherRules: bool, e: Env) returns (r: Result)
      modifies this
      ensures UpdatePromise(parse, old(State()), yaml, otherRules, e, State(), r)
    {
      if !Accepted(parse, e, State(), yaml, otherRules) {
        return Rejected;
      }
      if !e.resolves || !e.readable {
        return Raised;
      }
      var threw := WriteTopology(yaml, e.yamlWrite);
      if threw {
        return Raised;
      }
      match e.positions {
        case Positions(text) => annotations := Some(text);
        case NoPositions =>
        case PositionsThrow => return Raised;
      }
      return Deployed;
    }

    method Reset(e: Env) returns (r: Result)
      modifies this
      ensures ResetPromise(old(State()), e, State(), r)
    {
      if !e.resolves {
        return Raised;
      }
      if baseline.None? {
        return NoBaseline;
      }
      if !e.readable || !e.backup {
        return Raised;
      }
      var currentYaml := topology;
      var threw := StopLab(e.destroy);
      if threw {
        return Raised;
      }
      threw := WriteTopology(baseline.value, e.yamlWrite);
      if threw {
        return Raised;
      }
      var ok;
      ok, threw := StartWithRetry(e);
      if threw {
        return Raised;
      }
      if ok {
        return Deployed;
      }
      threw := WriteTopology(currentYaml, e.rollbackWrite);
      if threw {
        return Raised;
      }
      threw := StopLab(e.rollbackStop);
      if threw {
        return Raised;
      }
      ok, threw := StartLab(e.rollbackStart);
      if threw {
        return Raised;
      }
      return Failed(ok);
    }
  }

  // ----- runs -----

  datatype Op =
    | ApplyOp(yaml: Text, otherRules: bool, env: Env)
    | UpdateOp(yaml: Text, otherRules: bool, env: Env)
    | ResetOp(env: Env)

  ghost predicate Step(parse: Parser, d: Disk, op: Op, d': Disk, r: Result) {
    match op
    case ApplyOp(yaml, otherRules, e) => ApplyPromise(parse, d, yaml, otherRules, e, d', r)
    case UpdateOp(yaml, otherRules, e) => UpdatePromise(parse, d, yaml, otherRules, e, d', r)
    case ResetOp(e) => ResetPromise(d, e, d', r)
  }

  /** A sequential run: the disk before each operation, and after the last one. */
  ghost predicate IsRun(parse: Parser, disks: seq<Disk>, ops: seq<Op>, results: seq<Result>) {
    && |disks| == |ops| + 1 && |results| == |ops|
    && forall i :: 0 <= i < |ops| ==> Step(parse, disks[i], ops[i], disks[i + 1], results[i])
  }

  /** The baseline is written at most once: from the moment it exists it never changes. */
  lemma {:induction false} BaselineIsWriteOnce(parse: Parser, disks: seq<Disk>, ops: seq<Op>, results: seq<Result>,
                                               i: nat, j: nat)
    requires IsRun(parse, disks, ops, results) && i <= j < |disks|
    requires disks[i].baseline.Some?
    ensures disks[j].baseline == disks[i].baseline
    decreases j
  {
    if i < j {
      BaselineIsWriteOnce(parse, disks, ops, results, i, j - 1);
      assert Step(parse, disks[j - 1], ops[j - 1], disks[j], results[j - 1]);
    }
  }

  /** The text parses and agrees with every component the anchor names. */
  ghost predicate Matches(parse: Parser, anchor: Text, text: Text) {
    !parse(text).Broken? && Agrees(SignatureOf(parse(anchor)), SignatureOf(parse(text)))
  }

  ghost predicate IdentityKept(parse: Parser, anchor: Text, d: Disk) {
    Matches(parse, anchor, Reference(d)) && Matches(parse, anchor, d.topology)
  }

  lemma StepKeepsIdentity(parse: Parser, anchor: Text, d: Disk, op: Op, d': Disk, r: Result)
    requires Step(parse, d, op, d', r) && IdentityKept(parse, anchor, d)
    requires CleanWrites(op.env) && op.env.referenceReadable
    ensures IdentityKept(parse, anchor, d')
  {
  }

  /** The management identity is immutable: in every sequential run each component named by the
      reference at one moment is the same in the topology file and the reference ever after. */
  lemma {:induction false} IdentityIsImmutable(parse: Parser, disks: seq<Disk>, ops: seq<Op>, results: seq<Result>,
                                               i: nat, j: nat)
    requires IsRun(parse, disks, ops, results) && i <= j < |disks|
    requires forall k :: 0 <= k < |ops| ==> CleanWrites(ops[k].env) && ops[k].env.referenceReadable
    requires !parse(Reference(disks[i])).Broken?
    requires Matches(parse, Reference(disks[i]), disks[i].topology)
    ensures IdentityKept(parse, Reference(disks[i]), disks[j])
    decreases j
  {
    if i < j {
      IdentityIsImmutable(parse, disks, ops, results, i, j - 1);
      assert Step(parse, disks[j - 1], ops[j - 1], disks[j], results[j - 1]);
      StepKeepsIdentity(parse, Reference(disks[i]), disks[j - 1], ops[j - 1], disks[j], results[j - 1]);
    }
  }

  /** From a lab without a baseline, the baseline that appears agrees with every later topology. */
  lemma BaselineAgreesWithTopology(parse: Parser, disks: seq<Disk>, ops: seq<Op>, results: seq<Result>, j: nat)
    requires IsRun(parse, disks, ops, results) && j < |disks|
    requires forall k :: 0 <= k < |ops| ==> CleanWrites(ops[k].env) && ops[k].env.referenceReadable
    requires disks[0].baseline.None? && !parse(disks[0].topology).Broken?
    requires disks[j].baseline.Some?
    ensures Matches(parse, disks[j].baseline.value, disks[j].topology)
  {
    var i := FirstWithBaseline(disks, j);
    assert Step(parse, disks[i - 1], ops[i - 1], disks[i], results[i - 1]);
    IdentityIsImmutable(parse, disks, ops, results, 0, i - 1);
    BaselineIsWriteOnce(parse, disks, ops, results, i, j);
    assert ops[i - 1].ApplyOp? && disks[i].baseline == Some(disks[i - 1].topology);
    assert Matches(parse, disks[i].baseline.value, disks[i].topology);
    IdentityIsImmutable(parse, disks, ops, results, i, j);
  }

  lemma {:induction false} FirstWithBaseline(disks: seq<Disk>, j: nat) returns (i: nat)
    requires j < |disks| && disks[0].baseline.None? && disks[j].baseline.Some?
    ensures 0 < i <= j && disks[i].baseline.Some? && disks[i - 1].baseline.None?
    decreases j
  {
    if disks[j - 1].baseline.None? {
      i := j;
    } else {
      i := FirstWithBaseline(disks, j - 1);
    }
  }

  // ----- what an operation answers -----

  /** Apply and update refuse a text exactly when another rule does, when it is no mapping, or when it drops
      or changes a management name or subnet that the baseline, or without one the topology, has. A
      reference that cannot be read or parsed has none. */
  lemma RejectedIff(parse: Parser, d: Disk, yaml: Text, otherRules: bool, e: Env, d': Disk, r: Result)
    requires ApplyPromise(parse, d, yaml, otherRules, e, d', r) || UpdatePromise(parse, d, yaml, otherRules, e, d', r)
    ensures var ref := parse(if d.baseline.Some? then d.baseline.value else d.topology);
      var named := e.referenceReadable && ref.Doc?;
      r.Rejected? <==>
        || !otherRules || !parse(yaml).Doc?
        || (named && ref.signature.network != "" && parse(yaml).signature.network != ref.signature.network)
        || (named && ref.signature.subnet != "" && parse(yaml).signature.subnet != ref.signature.subnet)
  {
  }

  /** An apply changes nothing exactly when it accepts a text that reads the same as the topology, and gets
      as far as comparing them. */
  lemma UnchangedIff(parse: Parser, d: Disk, yaml: Text, otherRules: bool, e: Env, d': Disk, r: Result)
    requires ApplyPromise(parse, d, yaml, otherRules, e, d', r)
    ensures r.Unchanged? <==>
      && !r.Rejected? && e.resolves && (d.baseline.Some? || e.baselineWrite.Done?) && e.readable
      && parse(yaml) == parse(d.topology)
    ensures r.Unchanged? ==> d' == d.(baseline := Some(if d.baseline.Some? then d.baseline.value else d.topology))
  {
  }

  /** The lab runs what it was started from: at once, or after one failure that may be retried. */
  predicate Runs(e: Env) {
    match e.start
    case Started => true
    case StartFails(retryable, _) => retryable && e.retryDestroy.Stopped? && e.retryStart.Started?
    case StartThrows(_) => false
  }

  /** An apply deploys exactly when nothing before the start goes wrong and the lab then runs. */
  lemma DeployedIff(parse: Parser, d: Disk, yaml: Text, otherRules: bool, e: Env, d': Disk, r: Result)
    requires ApplyPromise(parse, d, yaml, otherRules, e, d', r)
    ensures r.Deployed? <==>
      && !r.Rejected? && e.resolves && (d.baseline.Some? || e.baselineWrite.Done?) && e.readable
      && parse(yaml) != parse(d.topology) && e.backup
      && e.destroy.Stopped? && e.yamlWrite.Done? && !e.positions.PositionsThrow? && Runs(e)
  {
  }

  /** So does a reset, with the baseline and without positions. */
  lemma ResetDeploysIff(d: Disk, e: Env, d': Disk, r: Result)
    requires ResetPromise(d, e, d', r)
    ensures r.Deployed? <==>
      && d.baseline.Some? && e.resolves && e.readable && e.backup && e.destroy.Stopped? && e.yamlWrite.Done? && Runs(e)
  {
  }

  // ----- when an operation is all or nothing -----

  /** An apply fails to restore the topology file exactly when its handler cannot write it. */
  lemma ApplyIsAtomicIff(parse: Parser, d: Disk, yaml: Text, otherRules: bool, e: Env, d': Disk, r: Result)
    requires ApplyPromise(parse, d, yaml, otherRules, e, d', r)
    ensures r.Deployed? || d'.topology == d.topology <==>
            !(&& Accepted(parse, e, d, yaml, otherRules) && Prepared(d, e) && Changes(parse, d, yaml) && e.backup
              && TryThrows(e) && e.handlerWrite.Throws? && LeftByTry(d.topology, yaml, e) != d.topology)
  {
  }

  /** An update is not all or nothing: its rollback only follows a reported failure to write the
      positions, but that failure is always thrown. It changes the file without success exactly when
      its own write throws, or goes through and the positions cannot be written. */
  lemma UpdateIsAtomicIff(parse: Parser, d: Disk, yaml: Text, otherRules: bool, e: Env, d': Disk, r: Result)
    requires UpdatePromise(parse, d, yaml, otherRules, e, d', r)
    ensures r.Deployed? || d' == d <==>
            !(&& Accepted(parse, e, d, yaml, otherRules) && e.resolves && e.readable
              && (e.yamlWrite.Done? ==> e.positions.PositionsThrow?)
              && Written(d.topology, yaml, e.yamlWrite) != d.topology)
  {
  }

  /** The old topology is not written back after the file was touched: the write of the baseline
      throws, a start throws, or a start fails and the write of the old text throws. */
  predicate NotWrittenBack(e: Env) {
    e.yamlWrite.Throws? || StartThrew(e) || (!Starts(e) && e.rollbackWrite.Throws?)
  }

  /** A reset has no handler. It changes the topology file without success exactly when the old
      topology is not written back and the writes did not happen to leave it there. */
  lemma ResetIsAtomicIff(d: Disk, e: Env, d': Disk, r: Result)
    requires ResetPromise(d, e, d', r)
    ensures r.Deployed? || d'.topology == d.topology <==>
            !(&& ResetPrepared(d, e) && e.destroy.Stopped? && NotWrittenBack(e)
              && LeftBehind(d.topology, d.baseline.value, NoPositions, e) != d.topology)
  {
  }

  const SMOOTH: Env := Env(true, true, Done, true, true, true, Stopped(None), Done, NoPositions, Started, Stopped(None),
                           Started, Done, Restored, Stopped(None), Started, Done, Restored)

  /** A failing input: an accepted text, and positions that cannot be written. */
  lemma UpdateMayLeaveTheNewFile()
    ensures exists parse: Parser, d, e, d' ::
      UpdatePromise(parse, d, "new", true, e, d', Raised) && CleanWrites(e) && d.topology == "old" &&
        d'.topology == "new"
  {
    var parse: Parser := text => Doc(Signature("net", "10.0.0.0/24"), text);
    var d, e := Disk("old", None, None, None), SMOOTH.(positions := PositionsThrow);
    assert UpdatePromise(parse, d, "new", true, e, d.(topology := "new"), Raised) && CleanWrites(e);
  }

  /** Another one: a write that throws after it has truncated the file. */
  lemma UpdateMayLeaveATornFile()
    ensures exists parse: Parser, d, e, d' ::
      UpdatePromise(parse, d, "new", true, e, d', Raised) && d.topology == "old" && d'.topology == ""
  {
    var parse: Parser := text => Doc(Signature("net", "10.0.0.0/24"), text);
    var d, e := Disk("old", None, None, None), SMOOTH.(yamlWrite := Throws(Some("")));
    assert UpdatePromise(parse, d, "new", true, e, d.(topology := ""), Raised);
  }

  /** A failing input of the reset: the lab throws when it is started from the baseline. */
  lemma ResetMayLeaveTheBaseline()
    ensures exists d, e, d' ::
      ResetPromise(d, e, d', Raised) && CleanWrites(e) && d.topology == "old" && d'.topology == "base" &&
        d'.deployed == None
  {
    var d, e := Disk("old", Some("base"), None, Some("old")), SMOOTH.(start := StartThrows(None));
    assert ResetPromise(d, e, Disk("base", Some("base"), None, None), Raised) && CleanWrites(e);
  }
}
