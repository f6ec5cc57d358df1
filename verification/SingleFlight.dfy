/** The snapshot refresher under concurrent callers. Shared state is read and written only inside
    sections under one lock; a run is any interleaving of those sections, with collects between
    them that succeed or fail as they like. */
module SingleFlight {
  import opened Sequences

  type Snapshot = seq<string>

  type Caller = nat

  /** The globals guarded by the lock. `begun` and `published` only count: flights are numbered in
      the order they begin, and `published` is the number of the flight the snapshot came from. */
  datatype Shared = Shared(snapshot: Snapshot, inProgress: bool, begun: nat, published: nat)

  /** What a caller does after the section at the top of its loop. */
  datatype Verdict = Fly | Leave(value: Snapshot) | Wait

  /** Where a call is between two sections. */
  datatype Phase =
    | Looping
    | Collecting(flight: nat)
    | Publishing(flight: nat, items: Snapshot)
    | Landing(flight: nat, outcome: Option<Snapshot>)
    | Returned(value: Snapshot, own: bool)
    | Raised

  datatype Call = Call(force: bool, waited: bool, phase: Phase) {
    predicate InFlight() { phase.Collecting? || phase.Publishing? || phase.Landing? }
  }

  datatype System = System(shared: Shared, calls: map<Caller, Call>)

  datatype Action =
    | Begin(c: Caller, force: bool)
    | Enter(c: Caller)
    | CollectOk(c: Caller, items: Snapshot)
    | CollectFails(c: Caller)
    | Publish(c: Caller)
    | Land(c: Caller)

  /** The section at the top of the loop. */
  function EnterSection(g: Shared, force: bool, waited: bool): (Shared, Verdict) {
    if g.inProgress then
      if g.snapshot != [] then (g, Leave(g.snapshot)) else (g, Wait)
    else if waited then (g, Leave(g.snapshot))
    else if !force && g.snapshot != [] then (g, Leave(g.snapshot))
    else (g.(inProgress := true, begun := g.begun + 1), Fly)
  }

  function PublishSection(g: Shared, flight: nat, items: Snapshot): Shared {
    g.(snapshot := items, published := flight)
  }

  function LandSection(g: Shared): Shared {
    g.(inProgress := false)
  }

  function SetPhase(s: System, c: Caller, phase: Phase): map<Caller, Call>
    requires c in s.calls
  {
    s.calls[c := s.calls[c].(phase := phase)]
  }

  /** One step of one caller; a step that is not possible leaves the system as it is. */
  function Do(s: System, a: Action): System {
    if a.Begin? then
      if a.c in s.calls then s else s.(calls := s.calls[a.c := Call(a.force, false, Looping)])
    else if a.c !in s.calls then s
    else
      var call := s.calls[a.c];
      match a
      case Enter(c) =>
        if !call.phase.Looping? then s
        else
          var (g, verdict) := EnterSection(s.shared, call.force, call.waited);
          (match verdict
           case Fly => System(g, SetPhase(s, c, Collecting(g.begun)))
           case Leave(v) => System(g,
             s.calls[c := call.(waited := call.waited || s.shared.inProgress, phase := Returned(v, false))])
           case Wait => System(g, s.calls[c := call.(waited := true)]))
      case CollectOk(c, items) =>
        if call.phase.Collecting? then s.(calls := SetPhase(s, c, Publishing(call.phase.flight, items))) else s
      case CollectFails(c) =>
        if call.phase.Collecting? then s.(calls := SetPhase(s, c, Landing(call.phase.flight, None))) else s
      case Publish(c) =>
        if call.phase.Publishing? then
          System(PublishSection(s.shared, call.phase.flight, call.phase.items),
                 SetPhase(s, c, Landing(call.phase.flight, Some(call.phase.items))))
        else s
      case Land(c) =>
        if call.phase.Landing? then
          System(LandSection(s.shared),
                 SetPhase(s, c, if call.phase.outcome.Some? then Returned(call.phase.outcome.value, true) else Raised))
        else s
  }

  const START: System := System(Shared([], false, 0, 0), map[])

  function Run(s: System, actions: seq<Action>): System {
    if actions == [] then s else Do(Run(s, actions[..|actions| - 1]), actions[|actions| - 1])
  }

  // ----- the invariant -----

  ghost predicate AtMostOneInFlight(s: System) {
    forall c, d :: c in s.calls && d in s.calls && s.calls[c].InFlight() && s.calls[d].InFlight() ==> c == d
  }

  ghost predicate FlagSetExactlyInFlight(s: System) {
    s.shared.inProgress <==> exists c :: c in s.calls && s.calls[c].InFlight()
  }

  /** A caller that waited for somebody else's flight never flies itself. */
  ghost predicate WaitersDoNotFly(s: System) {
    forall c :: c in s.calls && s.calls[c].waited ==> !s.calls[c].InFlight()
  }

  /** The flight in progress is the latest one, and the snapshot is from it or an earlier one. */
  ghost predicate FlightsInOrder(s: System) {
    && s.shared.published <= s.shared.begun
    && (forall c :: c in s.calls && s.calls[c].InFlight() ==> s.calls[c].phase.flight == s.shared.begun)
    && (forall c :: c in s.calls && (s.calls[c].phase.Collecting? || s.calls[c].phase.Publishing?) ==>
          s.shared.published < s.shared.begun)
  }

  ghost predicate Inv(s: System) {
    AtMostOneInFlight(s) && FlagSetExactlyInFlight(s) && WaitersDoNotFly(s) && FlightsInOrder(s)
  }

  lemma EnterKeepsInv(s: System, c: Caller)
    requires Inv(s)
    ensures Inv(Do(s, Enter(c)))
  {
    var s' := Do(s, Enter(c));
    if c in s.calls && s.calls[c].phase.Looping? {
      if s'.calls[c].InFlight() {
        assert !s.shared.inProgress;
      } else {
        assert forall d :: d in s'.calls ==> s'.calls[d].InFlight() == s.calls[d].InFlight();
        assert forall d :: d in s.calls ==> d in s'.calls;
      }
    }
  }

  lemma CollectKeepsInv(s: System, a: Action)
    requires Inv(s) && (a.CollectOk? || a.CollectFails?)
    ensures Inv(Do(s, a))
  {
    var s' := Do(s, a);
    assert forall d :: d in s'.calls ==> s'.calls[d].InFlight() == s.calls[d].InFlight();
    assert forall d :: d in s.calls ==> d in s'.calls;
  }

  lemma PublishKeepsInv(s: System, c: Caller)
    requires Inv(s)
    ensures Inv(Do(s, Publish(c)))
  {
    var s' := Do(s, Publish(c));
    assert forall d :: d in s'.calls ==> s'.calls[d].InFlight() == s.calls[d].InFlight();
    assert forall d :: d in s.calls ==> d in s'.calls;
  }

  lemma LandKeepsInv(s: System, c: Caller)
    requires Inv(s)
    ensures Inv(Do(s, Land(c)))
  {
  }

  lemma BeginKeepsInv(s: System, c: Caller, force: bool)
    requires Inv(s)
    ensures Inv(Do(s, Begin(c, force)))
  {
    var s' := Do(s, Begin(c, force));
    assert forall d :: d in s.calls ==> d in s'.calls && s'.calls[d] == s.calls[d];
  }

  lemma StepKeepsInv(s: System, a: Action)
    requires Inv(s)
    ensures Inv(Do(s, a))
  {
    match a
    case Begin(c, force) => BeginKeepsInv(s, c, force);
    case Enter(c) => EnterKeepsInv(s, c);
    case CollectOk(_, _) => CollectKeepsInv(s, a);
    case CollectFails(_) => CollectKeepsInv(s, a);
    case Publish(c) => PublishKeepsInv(s, c);
    case Land(c) => LandKeepsInv(s, c);
  }

  /** In every interleaving at most one caller collects, the flag is set exactly then, and no
      caller that waited ever collects. */
  lemma {:induction false} EveryRunIsSingleFlight(actions: seq<Action>)
    ensures Inv(Run(START, actions))
    ensures AtMostOneInFlight(Run(START, actions)) && FlagSetExactlyInFlight(Run(START, actions))
    ensures WaitersDoNotFly(Run(START, actions))
  {
    if actions != [] {
      EveryRunIsSingleFlight(actions[..|actions| - 1]);
      StepKeepsInv(Run(START, actions[..|actions| - 1]), actions[|actions| - 1]);
    }
  }

  // ----- the snapshot over a run -----

  /** An older collect never overwrites a newer one. */
  lemma {:induction false} SnapshotNeverGetsOlder(actions: seq<Action>, n: nat)
    requires n <= |actions|
    ensures Run(START, actions[..n]).shared.published <= Run(START, actions).shared.published
    decreases |actions|
  {
    if n < |actions| {
      var init, last := actions[..|actions| - 1], actions[|actions| - 1];
      assert init[..n] == actions[..n];
      SnapshotNeverGetsOlder(init, n);
      EveryRunIsSingleFlight(init);
      var s := Run(START, init);
      if last.Publish? && last.c in s.calls && s.calls[last.c].phase.Publishing? {
        assert s.calls[last.c].InFlight();
      }
    } else {
      assert actions[..n] == actions;
    }
  }

  // ----- what a call returns -----

  /** The value a call has returned or is about to return after its own flight. */
  function Result(call: Call): Option<Snapshot> {
    match call.phase
    case Returned(v, _) => Some(v)
    case Landing(_, outcome) => outcome
    case _ => None
  }

  /** After the first `k` actions the call was under way and `v` was the published snapshot. */
  ghost predicate PublishedDuring(actions: seq<Action>, k: nat, c: Caller, v: Snapshot)
    requires k <= |actions|
  {
    c in Run(START, actions[..k]).calls && Run(START, actions[..k]).shared.snapshot == v
  }

  /** What a call returns was the published snapshot at some moment of the call. */
  lemma {:induction false} ReturnedValueWasPublished(actions: seq<Action>, c: Caller)
    requires c in Run(START, actions).calls && Result(Run(START, actions).calls[c]).Some?
    ensures var value := Result(Run(START, actions).calls[c]).value;
      exists k :: 0 <= k <= |actions| && PublishedDuring(actions, k, c, value)
  {
    var n := |actions| - 1;
    var init, last := actions[..n], actions[n];
    var before, after := Run(START, init), Run(START, actions);
    assert actions[..|actions|] == actions;
    if c in before.calls && Result(before.calls[c]) == Result(after.calls[c]) {
      ReturnedValueWasPublished(init, c);
      var k :| 0 <= k <= |init| && PublishedDuring(init, k, c, Result(before.calls[c]).value);
      assert init[..k] == actions[..k];
      assert PublishedDuring(actions, k, c, Result(after.calls[c]).value);
    } else {
      assert PublishedDuring(actions, |actions|, c, Result(after.calls[c]).value);
    }
  }

  /** A value returned as the caller's own is the complete collect of that very call. */
  lemma {:induction false} OwnValueWasCollected(actions: seq<Action>, c: Caller, v: Snapshot)
    requires c in Run(START, actions).calls
    requires var phase := Run(START, actions).calls[c].phase;
      phase == Returned(v, true) || (phase.Landing? && phase.outcome == Some(v)) ||
        (phase.Publishing? && phase.items == v)
    ensures exists k :: 0 <= k < |actions| && actions[k] == CollectOk(c, v)
  {
    var n := |actions| - 1;
    var init, last := actions[..n], actions[n];
    if last != CollectOk(c, v) {
      OwnValueWasCollected(init, c, v);
      var k :| 0 <= k < |init| && init[k] == CollectOk(c, v);
      assert actions[k] == CollectOk(c, v);
    }
  }

  // ----- calls that come back without a flight of their own -----

  /** Action number `i` publishes a collect. */
  ghost predicate PublishesAt(actions: seq<Action>, i: nat) {
    && i < |actions| && actions[i].Publish?
    && var before := Run(START, actions[..i]);
       actions[i].c in before.calls && before.calls[actions[i].c].phase.Publishing?
  }

  ghost function PublishedAt(actions: seq<Action>, i: nat): Snapshot
    requires PublishesAt(actions, i)
  {
    Run(START, actions[..i]).calls[actions[i].c].phase.items
  }

  ghost predicate LastPublishes(actions: seq<Action>, i: nat) {
    PublishesAt(actions, i) && forall j: nat :: i < j ==> !PublishesAt(actions, j)
  }

  /** Nothing was published yet, or what was published last is empty. */
  ghost predicate NothingOnOffer(actions: seq<Action>) {
    forall i: nat :: LastPublishes(actions, i) ==> PublishedAt(actions, i) == []
  }

  lemma PublishesInPrefix(actions: seq<Action>, n: nat, i: nat)
    requires n <= |actions|
    ensures PublishesAt(actions[..n], i) <==> i < n && PublishesAt(actions, i)
    ensures PublishesAt(actions[..n], i) ==> PublishedAt(actions[..n], i) == PublishedAt(actions, i)
  {
    if i < n {
      assert actions[..n][..i] == actions[..i];
    }
  }

  /** Both runs publish at the same actions, and the same. */
  ghost predicate SamePublications(a: seq<Action>, b: seq<Action>) {
    && (forall i: nat :: PublishesAt(a, i) <==> PublishesAt(b, i))
    && (forall i: nat :: PublishesAt(a, i) ==> PublishedAt(a, i) == PublishedAt(b, i))
  }

  /** `v` is what was published last, or empty if nothing was. */
  ghost predicate IsLatest(actions: seq<Action>, v: Snapshot) {
    (exists i: nat :: LastPublishes(actions, i) && PublishedAt(actions, i) == v) ||
    (v == [] && forall i: nat :: !PublishesAt(actions, i))
  }

  lemma LatestIsTheSame(a: seq<Action>, b: seq<Action>, v: Snapshot)
    requires SamePublications(a, b) && IsLatest(a, v)
    ensures IsLatest(b, v)
  {
    if i: nat :| LastPublishes(a, i) && PublishedAt(a, i) == v {
      assert LastPublishes(b, i);
    }
  }

  lemma LastActionPublishes(actions: seq<Action>)
    requires actions != [] && PublishesAt(actions, |actions| - 1)
    ensures IsLatest(actions, Run(START, actions).shared.snapshot)
  {
    var n := |actions| - 1;
    assert LastPublishes(actions, n);
    assert Run(START, actions).shared.snapshot == PublishedAt(actions, n);
  }

  /** The snapshot is what was published last, and empty before: failed and interrupted refreshes
      leave it alone. */
  lemma {:induction false} SnapshotIsLastPublished(actions: seq<Action>)
    ensures IsLatest(actions, Run(START, actions).shared.snapshot)
    decreases |actions|
  {
    if actions != [] {
      var n := |actions| - 1;
      var init := actions[..n];
      if PublishesAt(actions, n) {
        LastActionPublishes(actions);
      } else {
        SnapshotIsLastPublished(init);
        forall i: nat ensures PublishesAt(init, i) <==> PublishesAt(actions, i)
          ensures PublishesAt(init, i) ==> PublishedAt(init, i) == PublishedAt(actions, i)
        {
          PublishesInPrefix(actions, n, i);
        }
        LatestIsTheSame(init, actions, Run(START, init).shared.snapshot);
      }
    }
  }

  lemma LatestIsUnique(actions: seq<Action>, i: nat, j: nat)
    requires LastPublishes(actions, i) && LastPublishes(actions, j)
    ensures i == j
  {
  }

  lemma SnapshotIsEmptyIff(actions: seq<Action>)
    ensures Run(START, actions).shared.snapshot == [] <==> NothingOnOffer(actions)
  {
    SnapshotIsLastPublished(actions);
    forall i: nat, j: nat | LastPublishes(actions, i) && LastPublishes(actions, j) ensures i == j {
      LatestIsUnique(actions, i, j);
    }
  }

  /** Action number `k` lets the call return at the top of its loop, without a flight of its own. */
  ghost predicate LeavesAt(actions: seq<Action>, k: nat, c: Caller) {
    && k < |actions| && actions[k] == Enter(c)
    && var before := Run(START, actions[..k]);
       c in before.calls && before.calls[c].phase.Looping? && Do(before, Enter(c)).calls[c].phase.Returned?
  }

  /** From then on the call has returned the snapshot of that moment. */
  lemma {:induction false} LeaverHasTheSnapshot(actions: seq<Action>, k: nat, c: Caller)
    requires LeavesAt(actions, k, c)
    ensures c in Run(START, actions).calls
    ensures Run(START, actions).calls[c].phase == Returned(Run(START, actions[..k]).shared.snapshot, false)
    decreases |actions|
  {
    var n := |actions| - 1;
    if k < n {
      assert actions[..n][..k] == actions[..k];
      LeaverHasTheSnapshot(actions[..n], k, c);
    }
  }

  lemma {:induction false} LeaverLeft(actions: seq<Action>, c: Caller)
    requires c in Run(START, actions).calls
    requires Run(START, actions).calls[c].phase.Returned? && !Run(START, actions).calls[c].phase.own
    ensures exists k: nat :: LeavesAt(actions, k, c)
    decreases |actions|
  {
    var n := |actions| - 1;
    var init := actions[..n];
    if c in Run(START, init).calls && Run(START, init).calls[c].phase.Returned? {
      LeaverLeft(init, c);
      var k: nat :| LeavesAt(init, k, c);
      assert init[..k] == actions[..k];
      assert LeavesAt(actions, k, c);
    } else {
      assert LeavesAt(actions, n, c);
    }
  }

  /** When a call comes back with nothing it did not collect itself: exactly when nothing was on
      offer as it left. Such a call has waited for somebody else's flight. */
  lemma WaiterReturnsNothingIff(actions: seq<Action>, c: Caller)
    requires c in Run(START, actions).calls
    ensures var call := Run(START, actions).calls[c];
      call.phase == Returned([], false) <==> exists k: nat :: LeavesAt(actions, k, c) && NothingOnOffer(actions[..k])
  {
    if k: nat :| LeavesAt(actions, k, c) && NothingOnOffer(actions[..k]) {
      LeaverHasTheSnapshot(actions, k, c);
      SnapshotIsEmptyIff(actions[..k]);
    }
    if Run(START, actions).calls[c].phase == Returned([], false) {
      LeaverLeft(actions, c);
      var k: nat :| LeavesAt(actions, k, c);
      LeaverHasTheSnapshot(actions, k, c);
      SnapshotIsEmptyIff(actions[..k]);
    }
  }

  /** Only a call that waited comes back with nothing. */
  lemma {:induction false} OnlyWaitersReturnNothing(actions: seq<Action>, c: Caller)
    requires c in Run(START, actions).calls && Run(START, actions).calls[c].phase == Returned([], false)
    ensures Run(START, actions).calls[c].waited
    decreases |actions|
  {
    var init := actions[..|actions| - 1];
    if c in Run(START, init).calls && Run(START, init).calls[c].phase == Returned([], false) {
      OnlyWaitersReturnNothing(init, c);
    }
  }

  /** The failing input: a caller that insists on a refresh and waits for one that fails comes back
      with the empty snapshot, without having collected itself. */
  lemma WaiterMayReturnNothing()
    ensures exists actions :: Run(START, actions).calls.Keys == {1, 2} &&
              Run(START, actions).calls[2] == Call(true, true, Returned([], false)) &&
              Run(START, actions).calls[1].phase == Raised
  {
    var actions := [Begin(1, true), Begin(2, true), Enter(1), Enter(2), CollectFails(1), Land(1), Enter(2)];
    RunUnfolds(actions);
  }

  lemma RunSnoc(actions: seq<Action>, a: Action)
    ensures Run(START, actions + [a]) == Do(Run(START, actions), a)
  {
    assert (actions + [a])[..|actions|] == actions;
  }

  /** The states along that run: both calls begin, the first one collects, and the second one waits. */
  lemma RunUntilWaiting(actions: seq<Action>)
    requires actions == [Begin(1, true), Begin(2, true), Enter(1), Enter(2)]
    ensures Run(START, actions) ==
      System(Shared([], true, 1, 0), map[1 := Call(true, false, Collecting(1)), 2 := Call(true, true, Looping)])
  {
    assert actions[..1] == [] + [Begin(1, true)] && actions[..2] == actions[..1] + [Begin(2, true)];
    RunSnoc([], Begin(1, true));
    RunSnoc(actions[..1], Begin(2, true));
    assert Run(START, actions[..2]) ==
      System(Shared([], false, 0, 0), map[1 := Call(true, false, Looping), 2 := Call(true, false, Looping)]);
    assert actions[..3] == actions[..2] + [Enter(1)] && actions == actions[..3] + [Enter(2)];
    RunSnoc(actions[..2], Enter(1));
    RunSnoc(actions[..3], Enter(2));
  }

  /** The first call fails, and the second one comes back. */
  lemma RunUnfolds(actions: seq<Action>)
    requires actions == [Begin(1, true), Begin(2, true), Enter(1), Enter(2), CollectFails(1), Land(1), Enter(2)]
    ensures Run(START, actions) == System(Shared([], false, 1, 0),
              map[1 := Call(true, false, Raised), 2 := Call(true, true, Returned([], false))])
  {
    RunUntilWaiting(actions[..4]);
    assert actions[..4] + [CollectFails(1)] == actions[..5] && actions[..5] + [Land(1)] == actions[..6];
    assert actions[..6] + [Enter(2)] == actions;
    RunSnoc(actions[..4], CollectFails(1));
    RunSnoc(actions[..5], Land(1));
    RunSnoc(actions[..6], Enter(2));
  }

  // ----- the sections, on the globals themselves -----

  class Refresher {
    var snapshot: Snapshot
    var refreshInProgress: bool
    ghost var begun: nat
    ghost var published: nat

    ghost function State(): Shared
      reads this
    {
      Shared(snapshot, refreshInProgress, begun, published)
    }

    constructor ()
      ensures State() == START.shared
    {
      snapshot, refreshInProgress, begun, published := [], false, 0, 0;
    }

    method TryEnter(force: bool, waited: bool) returns (verdict: Verdict)
      modifies this
      ensures (State(), verdict) == EnterSection(old(State()), force, waited)
    {
      if refreshInProgress {
        if snapshot != [] {
          return Leave(snapshot);
        }
        return Wait;
      }
      if waited {
        return Leave(snapshot);
      }
      if !force && snapshot != [] {
        return Leave(snapshot);
      }
      refreshInProgress := true;
      begun := begun + 1;
      return Fly;
    }

    method PublishItems(items: Snapshot, ghost flight: nat)
      modifies this
      ensures State() == PublishSection(old(State()), flight, items)
    {
      snapshot := items;
      published := flight;
    }

    method ClearFlag()
      modifies this
      ensures State() == LandSection(old(State()))
    {
      refreshInProgress := false;
    }
  }
}
