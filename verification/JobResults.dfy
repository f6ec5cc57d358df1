/** What a job record says about the work itself: the number of routers its worker was given, and one
    result for each router it dealt with, over every interleaving of the lock sections. */
module JobResults {
  import opened Sequences
  import opened BackgroundJobs

  /** In step `i` of the run the worker of `j` stores the number of its routers. */
  ghost predicate Counts(actions: seq<Action>, i: nat, j: JobId, n: nat) {
    && i < |actions| && actions[i] == SetTotal(j, n)
    && var s := Run(START, actions[..i]);
       j in s.workers && s.workers[j].pc.Preparing?
  }

  /** The worker of `j` is about to store the outcome of a router. */
  ghost predicate DealsWith(s: System, a: Action, j: JobId) {
    a.Append? && a.j == j && j in s.workers && s.workers[j].pc.Applying?
  }

  /** The outcomes the worker of `j` stored in the run, in order. */
  ghost function Outcomes(actions: seq<Action>, j: JobId): seq<RouterOutcome> {
    if actions == [] then []
    else
      var init, a := actions[..|actions| - 1], actions[|actions| - 1];
      if DealsWith(Run(START, init), a, j) then Outcomes(init, j) + [a.outcome] else Outcomes(init, j)
  }

  /** The entry tells the router, whether it went well, and what went wrong if it did not. */
  ghost predicate Reports(e: Entry, o: RouterOutcome) {
    && e.node == o.node
    && (e.ok <==> o.Applied?)
    && (o.Applied? ==> e.error == None)
    && (!o.Applied? ==> e.error == Some(o.error))
  }

  // ----- one step -----

  lemma WorkerReports(job: Job, w: Worker, a: Action, stored: bool, found: set<Event>, sees: bool)
    requires OfWorker(a) && JobOk(job, w, sees)
    ensures var job' := WorkerStep(job, w, a, stored, found, sees).0;
      && (if a.Append? && w.pc.Applying?
          then |job'.results| == |job.results| + 1 && job'.results[..|job.results|] == job.results &&
            Reports(job'.results[|job.results|], a.outcome)
          else job'.results == job.results)
      && job'.total == (if a.SetTotal? && w.pc.Preparing? then a.total else job.total)
  {
  }

  lemma OthersKeepRecord(s: System, a: Action, j: JobId)
    requires !OfWorker(a) && j in s.board.jobs
    ensures j in Do(s, a).board.jobs
    ensures Do(s, a).board.jobs[j].results == s.board.jobs[j].results
    ensures Do(s, a).board.jobs[j].total == s.board.jobs[j].total
  {
  }

  lemma NewRecord(s: System, a: Action, j: JobId)
    requires Inv(s) && j !in s.board.jobs && j in Do(s, a).board.jobs
    ensures Do(s, a).board.jobs[j].results == [] && !OfWorker(a)
  {
    if OfWorker(a) && a.j in s.workers {
      WorkerTouchesItsOwn(s, a);
    }
  }

  lemma StepReports(s: System, a: Action, j: JobId)
    requires Inv(s) && j in s.board.jobs
    ensures j in Do(s, a).board.jobs
    ensures var job, job' := s.board.jobs[j], Do(s, a).board.jobs[j];
      && (if DealsWith(s, a, j)
          then |job'.results| == |job.results| + 1 && job'.results[..|job.results|] == job.results &&
            Reports(job'.results[|job.results|], a.outcome)
          else job'.results == job.results)
      && job'.total == (if a.SetTotal? && a.j == j && s.workers[j].pc.Preparing? then a.total else job.total)
  {
    if !OfWorker(a) {
      OthersKeepRecord(s, a, j);
    } else if a.j in s.workers {
      WorkerTouchesItsOwn(s, a);
      WorkerReports(s.board.jobs[a.j], s.workers[a.j], a, a.j in s.board.order, FoundEvent(s.board, a.j),
                    SeesCancel(s, s.workers[a.j]));
    }
  }

  // ----- runs -----

  /** In every run the results of a job are, one for one and in order, the outcomes its worker stored. */
  lemma {:induction false} ResultsAreOutcomes(actions: seq<Action>, j: JobId)
    requires j in Run(START, actions).board.jobs
    ensures var results, outcomes := Run(START, actions).board.jobs[j].results, Outcomes(actions, j);
      |results| == |outcomes| && forall k :: 0 <= k < |results| ==> Reports(results[k], outcomes[k])
  {
    var init, a := actions[..|actions| - 1], actions[|actions| - 1];
    var s := Run(START, init);
    EveryRunKeepsInv(init);
    if j in s.board.jobs {
      ResultsAreOutcomes(init, j);
      StepReports(s, a, j);
    } else {
      NewRecord(s, a, j);
      NoOutcomesYet(init, j);
    }
  }

  lemma {:induction false} NoOutcomesYet(actions: seq<Action>, j: JobId)
    requires j !in Run(START, actions).board.jobs
    ensures Outcomes(actions, j) == []
  {
    if actions != [] {
      var init, a := actions[..|actions| - 1], actions[|actions| - 1];
      EveryRunKeepsInv(init);
      if j in Run(START, init).board.jobs {
        StepReports(Run(START, init), a, j);
      } else {
        NoOutcomesYet(init, j);
      }
    }
  }

  predicate BeyondPreparing(w: Worker) {
    InLoop(w) || w.pc.Stopped?
  }

  /** The worker has stored the number of its routers. */
  ghost predicate HasTotal(s: System, j: JobId, n: nat) {
    j in s.board.jobs && j in s.workers && BeyondPreparing(s.workers[j]) && s.board.jobs[j].total == n
  }

  lemma WorkerStaysBeyond(job: Job, w: Worker, a: Action, stored: bool, found: set<Event>, sees: bool)
    requires OfWorker(a)
    ensures BeyondPreparing(w) ==> BeyondPreparing(WorkerStep(job, w, a, stored, found, sees).1)
    ensures a.SetTotal? && w.pc.Preparing? ==> BeyondPreparing(WorkerStep(job, w, a, stored, found, sees).1)
  {
  }

  lemma TotalStays(s: System, a: Action, j: JobId, n: nat)
    requires Inv(s) && j in s.workers
    requires HasTotal(s, j, n) || (a == SetTotal(j, n) && s.workers[j].pc.Preparing?)
    ensures HasTotal(Do(s, a), j, n)
  {
    StepReports(s, a, j);
    if !OfWorker(a) {
      OthersKeepWorker(s, a, j);
    } else if a.j in s.workers {
      WorkerTouchesItsOwn(s, a);
      WorkerStaysBeyond(s.board.jobs[a.j], s.workers[a.j], a, a.j in s.board.order, FoundEvent(s.board, a.j),
                        SeesCancel(s, s.workers[a.j]));
    }
  }

  lemma {:induction false} TotalIsKept(actions: seq<Action>, i: nat, j: JobId, n: nat)
    requires Counts(actions, i, j, n)
    ensures HasTotal(Run(START, actions), j, n)
    decreases |actions|
  {
    var init, a := actions[..|actions| - 1], actions[|actions| - 1];
    EveryRunKeepsInv(init);
    if i < |init| {
      assert init[..i] == actions[..i];
      TotalIsKept(init, i, j, n);
    }
    TotalStays(Run(START, init), a, j, n);
  }

  lemma AtTheEnd(job: Job, w: Worker, sees: bool)
    requires JobOk(job, w, sees)
    ensures job.status.Completed? ==> |job.results| == job.total
    ensures job.status.Cancelled? ==> |job.results| < job.total
  {
  }

  /** Once the worker has stored the number of its routers, that is the total of the job for good; and a
      job that is completed has exactly one result for each of them, a cancelled one has fewer. */
  lemma TotalIsTheRouters(actions: seq<Action>, i: nat, j: JobId, n: nat)
    requires Counts(actions, i, j, n)
    ensures j in Run(START, actions).board.jobs
    ensures var job := Run(START, actions).board.jobs[j];
      && job.total == n
      && (job.status.Completed? ==> |job.results| == n)
      && (job.status.Cancelled? ==> |job.results| < n)
  {
    var s := Run(START, actions);
    EveryRunKeepsInv(actions);
    TotalIsKept(actions, i, j, n);
    AtTheEnd(s.board.jobs[j], s.workers[j], SeesCancel(s, s.workers[j]));
  }

  /** The worker is in its loop, or has ended the job behind it. */
  ghost predicate PastTheCount(job: Job, w: Worker) {
    InLoop(w) || job.status.Completed? || job.status.Cancelled?
  }

  lemma WorkerWasCounted(job: Job, w: Worker, a: Action, stored: bool, found: set<Event>, sees: bool)
    requires OfWorker(a) && !(a.SetTotal? && w.pc.Preparing?)
    ensures var (job', w') := WorkerStep(job, w, a, stored, found, sees);
      PastTheCount(job', w') ==> PastTheCount(job, w)
  {
  }

  lemma OthersKeepStatus(s: System, a: Action, j: JobId)
    requires !OfWorker(a) && j in s.board.jobs
    ensures j in Do(s, a).board.jobs
    ensures Do(s, a).board.jobs[j].status.Completed? ==> s.board.jobs[j].status.Completed?
    ensures Do(s, a).board.jobs[j].status.Cancelled? ==> s.board.jobs[j].status.Cancelled?
  {
  }

  lemma NewJobIsNotCounted(s: System, a: Action, j: JobId)
    requires Inv(s) && j !in s.board.jobs && j in Do(s, a).board.jobs
    ensures j in Do(s, a).workers && !PastTheCount(Do(s, a).board.jobs[j], Do(s, a).workers[j])
  {
    if !OfWorker(a) {
      OthersKeepWorker(s, a, j);
      NewJobIsFresh(s, a, j);
    } else if a.j in s.workers {
      WorkerTouchesItsOwn(s, a);
    }
  }

  lemma NewJobIsFresh(s: System, a: Action, j: JobId)
    requires !OfWorker(a) && j !in s.board.jobs && j in Do(s, a).board.jobs
    ensures Do(s, a).board.jobs[j] == FRESH && a == Insert(j)
  {
  }

  lemma WasCounted(s: System, a: Action, j: JobId)
    requires Inv(s) && j in s.workers && j in s.board.jobs && !(a.SetTotal? && a.j == j && s.workers[j].pc.Preparing?)
    ensures j in Do(s, a).workers && j in Do(s, a).board.jobs
    ensures PastTheCount(Do(s, a).board.jobs[j], Do(s, a).workers[j]) ==> PastTheCount(s.board.jobs[j], s.workers[j])
  {
    if !OfWorker(a) {
      OthersKeepWorker(s, a, j);
      OthersKeepStatus(s, a, j);
    } else if a.j in s.workers {
      WorkerTouchesItsOwn(s, a);
      if a.j == j {
        WorkerWasCounted(s.board.jobs[j], s.workers[j], a, j in s.board.order, FoundEvent(s.board, j),
                         SeesCancel(s, s.workers[j]));
      }
    }
  }

  /** A job is in its loop, completed or cancelled only if its worker has stored that number. */
  lemma {:induction false} EndedJobsWereCounted(actions: seq<Action>, j: JobId) returns (i: nat, n: nat)
    requires var s := Run(START, actions);
      j in s.workers && j in s.board.jobs && PastTheCount(s.board.jobs[j], s.workers[j])
    ensures Counts(actions, i, j, n)
    decreases |actions|
  {
    var init, a := actions[..|actions| - 1], actions[|actions| - 1];
    var s := Run(START, init);
    EveryRunKeepsInv(init);
    if j !in s.board.jobs {
      NewJobIsNotCounted(s, a, j);
      assert false;
    }
    if a.SetTotal? && a.j == j && s.workers[j].pc.Preparing? {
      i, n := |init|, a.total;
    } else {
      WasCounted(s, a, j);
      i, n := EndedJobsWereCounted(init, j);
      assert init[..i] == actions[..i];
    }
  }

  // ----- cancel calls -----

  /** In step `i` a cancel call finds the job stored and not ended. */
  ghost predicate Cancels(actions: seq<Action>, i: nat, j: JobId) {
    && i < |actions| && actions[i] == CancelMark(j)
    && var s := Run(START, actions[..i]);
       && j in s.board.order && j in s.board.jobs
       && s.board.jobs[j].status !in {Completed, Cancelled, Error}
  }

  ghost predicate Asked(s: System, j: JobId) {
    j in s.board.jobs && s.board.jobs[j].cancelRequested && !s.board.jobs[j].status.Running?
  }

  lemma WorkerKeepsRequest(job: Job, w: Worker, a: Action, stored: bool, found: set<Event>, sees: bool)
    requires OfWorker(a) && job.cancelRequested && !job.status.Running?
    ensures var job' := WorkerStep(job, w, a, stored, found, sees).0; job'.cancelRequested && !job'.status.Running?
  {
  }

  lemma OthersKeepRequest(s: System, a: Action, j: JobId)
    requires !OfWorker(a) && Asked(s, j)
    ensures Asked(Do(s, a), j)
  {
  }

  lemma StepKeepsRequest(s: System, a: Action, j: JobId)
    requires Inv(s) && Asked(s, j)
    ensures Asked(Do(s, a), j)
  {
    if !OfWorker(a) {
      OthersKeepRequest(s, a, j);
    } else if a.j in s.workers {
      WorkerTouchesItsOwn(s, a);
      if a.j == j {
        WorkerKeepsRequest(s.board.jobs[j], s.workers[j], a, j in s.board.order, FoundEvent(s.board, j),
                           SeesCancel(s, s.workers[j]));
      }
    }
  }

  lemma MarkAsks(s: System, j: JobId)
    requires j in s.board.order && j in s.board.jobs && s.board.jobs[j].status !in {Completed, Cancelled, Error}
    ensures Asked(Do(s, CancelMark(j)), j)
    ensures Do(s, CancelMark(j)).signalling == s.signalling + multiset{j}
  {
  }

  /** A cancel call that finds the job stored and not ended goes on to signal it, and is on the record from
      then on: the job never counts as running again. */
  lemma {:induction false} CancelIsRecorded(actions: seq<Action>, i: nat, j: JobId)
    requires Cancels(actions, i, j)
    ensures Asked(Run(START, actions), j)
    ensures Run(START, actions[..i + 1]).signalling == Run(START, actions[..i]).signalling + multiset{j}
    decreases |actions|
  {
    var init, a := actions[..|actions| - 1], actions[|actions| - 1];
    if i < |init| {
      assert init[..i] == actions[..i] && init[..i + 1] == actions[..i + 1];
      CancelIsRecorded(init, i, j);
      EveryRunKeepsInv(init);
      StepKeepsRequest(Run(START, init), a, j);
    } else {
      assert actions[..i + 1] == actions;
      MarkAsks(Run(START, init), j);
    }
  }

  /** Every other cancel call leaves everything as it is. */
  lemma IdleCancel(s: System, j: JobId)
    requires j !in s.board.order || j !in s.board.jobs || s.board.jobs[j].status in {Completed, Cancelled, Error}
    ensures Do(s, CancelMark(j)) == s
  {
  }

  // ----- jobs dropped before their worker starts -----

  /** In step `i` the worker of `j` starts and does not find its job in the store any more. */
  ghost predicate FindsNothing(actions: seq<Action>, i: nat, j: JobId) {
    && i < |actions| && actions[i] == FetchJob(j)
    && var s := Run(START, actions[..i]);
       && j in s.workers && s.workers[j].pc.Fetching? && j !in s.board.order
  }

  ghost predicate Abandoned(s: System, j: JobId) {
    j in s.workers && j in s.board.jobs && s.workers[j].pc.Stopped? && j !in s.board.order
  }

  lemma OthersLeaveAbandoned(s: System, a: Action, j: JobId)
    requires !OfWorker(a) && j in s.board.jobs && j !in s.board.order
    ensures j in Do(s, a).board.jobs && Do(s, a).board.jobs[j] == s.board.jobs[j]
  {
  }

  lemma WorkerStaysStopped(job: Job, w: Worker, a: Action, stored: bool, found: set<Event>, sees: bool)
    requires OfWorker(a)
    ensures w.pc.Stopped? ==> WorkerStep(job, w, a, stored, found, sees).0 == job
    ensures w.pc.Stopped? ==> WorkerStep(job, w, a, stored, found, sees).1.pc.Stopped?
    ensures a.FetchJob? && w.pc.Fetching? && !stored ==>
      WorkerStep(job, w, a, stored, found, sees) == (job, w.(pc := Stopped))
  {
  }

  lemma StaysAbandoned(s: System, a: Action, j: JobId)
    requires Inv(s) && j in s.workers
    requires Abandoned(s, j) || (a == FetchJob(j) && s.workers[j].pc.Fetching? && j !in s.board.order)
    ensures Abandoned(Do(s, a), j) && Do(s, a).board.jobs[j] == s.board.jobs[j]
  {
    StepOnJob(s, a, j);
    if !OfWorker(a) {
      OthersKeepWorker(s, a, j);
      OthersLeaveAbandoned(s, a, j);
    } else if a.j in s.workers {
      WorkerTouchesItsOwn(s, a);
      WorkerStaysStopped(s.board.jobs[a.j], s.workers[a.j], a, a.j in s.board.order, FoundEvent(s.board, a.j),
                         SeesCancel(s, s.workers[a.j]));
    }
  }

  /** Such a job is never worked on: its record stays as it is, without an end. */
  lemma {:induction false} DroppedJobsStayAsTheyAre(actions: seq<Action>, i: nat, j: JobId)
    requires FindsNothing(actions, i, j)
    ensures Abandoned(Run(START, actions), j)
    ensures j in Run(START, actions[..i]).board.jobs
    ensures Run(START, actions).board.jobs[j] == Run(START, actions[..i]).board.jobs[j]
    decreases |actions|
  {
    var init, a := actions[..|actions| - 1], actions[|actions| - 1];
    EveryRunKeepsInv(init);
    if i < |init| {
      assert init[..i] == actions[..i];
      DroppedJobsStayAsTheyAre(init, i, j);
    }
    StaysAbandoned(Run(START, init), a, j);
  }

  // ----- workers that find no lab, or die -----

  lemma NoLabEnds(s: System, j: JobId)
    requires j in s.workers && j in s.board.jobs && s.workers[j].pc.Preparing?
    ensures j in Do(s, NoLab(j)).board.jobs
    ensures Do(s, NoLab(j)).board.jobs[j] == s.board.jobs[j].(status := Error, error := Some("Lab not found"))
  {
  }

  /** A worker that finds no lab ends its job with that error, for good and without results. */
  lemma NoLabIsFinal(actions: seq<Action>, i: nat, j: JobId)
    requires i < |actions| && actions[i] == NoLab(j)
    requires j in Run(START, actions[..i]).workers && Run(START, actions[..i]).workers[j].pc.Preparing?
    ensures j in Run(START, actions).board.jobs
    ensures var job := Run(START, actions).board.jobs[j];
      job.status == Error && job.error == Some("Lab not found") && job.results == [] && job.ok == None
  {
    var until := actions[..i + 1];
    assert until[..i] == actions[..i] && until[|until| - 1] == NoLab(j);
    EveryRunKeepsInv(actions[..i]);
    NoLabEnds(Run(START, actions[..i]), j);
    TerminalIsFinal(actions, i + 1, j);
    EveryRunKeepsInv(until);
    assert JobOk(Run(START, until).board.jobs[j], Run(START, until).workers[j],
                 SeesCancel(Run(START, until), Run(START, until).workers[j]));
  }

  /** In step `i` the worker of `j`, which has started, dies. */
  ghost predicate Dies(actions: seq<Action>, i: nat, j: JobId) {
    && i < |actions| && actions[i] == Die(j)
    && var s := Run(START, actions[..i]);
       j in s.workers && !s.workers[j].pc.Inserted? && !s.workers[j].pc.Registered?
  }

  lemma WorkerStops(job: Job, w: Worker, a: Action, stored: bool, found: set<Event>, sees: bool)
    requires OfWorker(a) && (w.pc.Stopped? || (a.Die? && !w.pc.Inserted? && !w.pc.Registered?))
    ensures WorkerStep(job, w, a, stored, found, sees).0 == job
    ensures WorkerStep(job, w, a, stored, found, sees).1.pc.Stopped?
  {
  }

  lemma StaysDead(s: System, a: Action, j: JobId)
    requires Inv(s) && j in s.workers
    requires s.workers[j].pc.Stopped? || (a == Die(j) && !s.workers[j].pc.Inserted? && !s.workers[j].pc.Registered?)
    ensures j in Do(s, a).workers && j in Do(s, a).board.jobs && Do(s, a).workers[j].pc.Stopped?
    ensures Do(s, a).board.jobs[j].results == s.board.jobs[j].results
  {
    StepReports(s, a, j);
    if !OfWorker(a) {
      OthersKeepWorker(s, a, j);
    } else if a.j in s.workers {
      WorkerTouchesItsOwn(s, a);
      if a.j == j {
        WorkerStops(s.board.jobs[j], s.workers[j], a, j in s.board.order, FoundEvent(s.board, j),
                    SeesCancel(s, s.workers[j]));
      }
    }
  }

  /** A worker that dies stores nothing more. */
  lemma {:induction false} DeadWorkersStoreNothing(actions: seq<Action>, i: nat, j: JobId)
    requires Dies(actions, i, j)
    ensures j in Run(START, actions).workers && Run(START, actions).workers[j].pc.Stopped?
    ensures j in Run(START, actions).board.jobs && j in Run(START, actions[..i]).board.jobs
    ensures Run(START, actions).board.jobs[j].results == Run(START, actions[..i]).board.jobs[j].results
    decreases |actions|
  {
    var init, a := actions[..|actions| - 1], actions[|actions| - 1];
    EveryRunKeepsInv(init);
    if i < |init| {
      assert init[..i] == actions[..i];
      DeadWorkersStoreNothing(init, i, j);
    }
    StaysDead(Run(START, init), a, j);
  }
}
