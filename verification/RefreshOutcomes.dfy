/** Who refreshes and who takes what is there: the outcome of every pass through the top of the loop
    and of every call, told on the calls and the published collects alone. */
module RefreshOutcomes {
  import opened Sequences
  import opened SingleFlight

  predicate Refreshing(phase: Phase) {
    phase.Collecting? || phase.Publishing? || phase.Landing?
  }

  /** Somebody is between the top of the loop and the end of a flight. */
  ghost predicate Busy(s: System) {
    exists c :: c in s.calls && Refreshing(s.calls[c].phase)
  }

  /** The first time the call begins in the run. */
  ghost predicate BeginsAt(actions: seq<Action>, i: nat, c: Caller) {
    && i < |actions| && actions[i].Begin? && actions[i].c == c
    && forall j :: 0 <= j < i ==> !(actions[j].Begin? && actions[j].c == c)
  }

  lemma StepKeepsForce(s: System, a: Action, c: Caller)
    requires c in s.calls
    ensures c in Do(s, a).calls && Do(s, a).calls[c].force == s.calls[c].force
  {
  }

  lemma BegunByStep(s: System, a: Action, c: Caller)
    requires c !in s.calls
    ensures c in Do(s, a).calls <==> a.Begin? && a.c == c
    ensures c in Do(s, a).calls ==> Do(s, a).calls[c].force == a.force
  {
  }

  /** A call is there from its beginning on, and is forced as it was begun. */
  lemma {:induction false} ForcedAsBegun(actions: seq<Action>, c: Caller)
    ensures c in Run(START, actions).calls <==> exists i :: BeginsAt(actions, i, c)
    ensures forall i: nat :: BeginsAt(actions, i, c) ==> Run(START, actions).calls[c].force == actions[i].force
  {
    if actions != [] {
      var init, a := actions[..|actions| - 1], actions[|actions| - 1];
      var s := Run(START, init);
      ForcedAsBegun(init, c);
      forall i: nat | i < |init| ensures BeginsAt(actions, i, c) <==> BeginsAt(init, i, c) {
      }
      if c in s.calls {
        var i: nat :| BeginsAt(init, i, c);
        assert BeginsAt(actions, i, c);
        StepKeepsForce(s, a, c);
      } else {
        BegunByStep(s, a, c);
        if a.Begin? && a.c == c {
          NeverBegun(init, c);
          assert BeginsAt(actions, |init|, c);
        }
      }
    }
  }

  lemma {:induction false} NeverBegun(actions: seq<Action>, c: Caller)
    requires forall i :: !BeginsAt(actions, i, c)
    ensures forall j :: 0 <= j < |actions| ==> !(actions[j].Begin? && actions[j].c == c)
  {
    if actions != [] {
      var init := actions[..|actions| - 1];
      forall i: nat ensures !BeginsAt(init, i, c) {
        assert !BeginsAt(actions, i, c);
      }
      NeverBegun(init, c);
      assert !BeginsAt(actions, |init|, c);
    }
  }

  /** Every pass through the top of the loop. While somebody refreshes, the call takes a snapshot that is
      not empty, and waits for one that is. With nobody refreshing, a call that has waited, or that is not
      forced and finds something published, takes the snapshot; every other call refreshes. */
  lemma EnterOutcome(actions: seq<Action>, c: Caller)
    requires c in Run(START, actions).calls && Run(START, actions).calls[c].phase.Looping?
    ensures var s := Run(START, actions);
      var call, phase := s.calls[c], Do(s, Enter(c)).calls[c].phase;
      var nothing := NothingOnOffer(actions);
      && (phase.Collecting? <==> !Busy(s) && !call.waited && (call.force || nothing))
      && (phase == Returned(s.shared.snapshot, false) <==>
            (Busy(s) && !nothing) || (!Busy(s) && (call.waited || (!call.force && !nothing))))
      && (phase.Looping? <==> Busy(s) && nothing)
      && Do(s, Enter(c)).calls[c].waited == (call.waited || Busy(s))
      && Do(s, Enter(c)).shared.snapshot == s.shared.snapshot
  {
    EveryRunIsSingleFlight(actions);
    SnapshotIsEmptyIff(actions);
    var s := Run(START, actions);
    assert Busy(s) <==> exists d :: d in s.calls && s.calls[d].InFlight() by {
      if d :| d in s.calls && s.calls[d].InFlight() {
        assert Refreshing(s.calls[d].phase);
      }
    }
  }

  /** A call that takes somebody else's snapshot has waited for a refresh, or did not insist on one and
      found something published. */
  ghost predicate MayTake(call: Call) {
    call.phase.Returned? && !call.phase.own ==> call.waited || (!call.force && call.phase.value != [])
  }

  lemma StepKeepsMayTake(s: System, a: Action)
    requires forall c :: c in s.calls ==> MayTake(s.calls[c])
    ensures forall c :: c in Do(s, a).calls ==> MayTake(Do(s, a).calls[c])
  {
  }

  /** Over every run: a forced call that never met a refresh in progress returns its own collect, or
      raises. */
  lemma {:induction false} ForcedCallsRefresh(actions: seq<Action>)
    ensures forall c :: c in Run(START, actions).calls ==> MayTake(Run(START, actions).calls[c])
  {
    if actions != [] {
      ForcedCallsRefresh(actions[..|actions| - 1]);
      StepKeepsMayTake(Run(START, actions[..|actions| - 1]), actions[|actions| - 1]);
    }
  }

  /** A call raises only if its own collect failed. */
  lemma {:induction false} OnlyFailuresRaise(actions: seq<Action>, c: Caller)
    requires c in Run(START, actions).calls
    requires var phase := Run(START, actions).calls[c].phase; phase.Raised? || (phase.Landing? && phase.outcome.None?)
    ensures exists k :: 0 <= k < |actions| && actions[k] == CollectFails(c)
  {
    var init, a := actions[..|actions| - 1], actions[|actions| - 1];
    if a != CollectFails(c) {
      OnlyFailuresRaise(init, c);
      var k :| 0 <= k < |init| && init[k] == CollectFails(c);
      assert actions[k] == CollectFails(c);
    } else {
      assert actions[|init|] == CollectFails(c);
    }
  }

  /** A flight whose collect succeeds publishes it, returns it to its caller and ends the refresh; one whose
      collect fails leaves the snapshot, raises, and ends the refresh as well. */
  lemma FlightEnds(actions: seq<Action>, c: Caller, items: Snapshot)
    requires var s := Run(START, actions); c in s.calls && s.calls[c].phase.Collecting?
    ensures var s := Run(START, actions);
      var good := Do(Do(Do(s, CollectOk(c, items)), Publish(c)), Land(c));
      && good.shared.snapshot == items && c in good.calls && good.calls[c].phase == Returned(items, true)
      && !Busy(good) && !good.shared.inProgress
    ensures var s := Run(START, actions);
      var bad := Do(Do(s, CollectFails(c)), Land(c));
      && bad.shared.snapshot == s.shared.snapshot && c in bad.calls && bad.calls[c].phase == Raised
      && !Busy(bad) && !bad.shared.inProgress
  {
    var s := Run(START, actions);
    EveryRunIsSingleFlight(actions);
    assert s.calls[c].InFlight();
    forall d | d in s.calls && d != c ensures !Refreshing(s.calls[d].phase) {
      assert !s.calls[d].InFlight();
    }
  }
}
