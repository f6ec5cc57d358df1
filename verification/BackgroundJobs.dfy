/** Background reconfigure jobs: starters, cancellers and one worker per job interleave at the
    granularity of the lock sections. A job record outlives its removal from the store, because
    its worker holds on to it; the store itself keeps the most recently started jobs. */
module BackgroundJobs {
  import opened Sequences

  type JobId = nat

  const MAX_JOBS: nat := 30

  datatype Status = Running | Cancelling | Completed | Cancelled | Error {
    predicate Terminal() { Completed? || Cancelled? || Error? }
  }

  /** One entry of the results: a router, and what went wrong with it if anything did. */
  datatype Entry = Entry(node: string, ok: bool, error: Option<string>)

  /** `ok` is absent until the job has run to its end. */
  datatype Job = Job(status: Status, results: seq<Entry>, total: nat, completedCount: nat, successCount: nat,
                     cancelRequested: bool, ok: Option<bool>, error: Option<string>)

  /** An event object, created for a job. */
  datatype Event = Event(job: JobId, serial: nat)

  /** The globals: the order of the keys of the job dictionary, the records, the event dictionary
      and the events that are set. */
  datatype Board = Board(order: seq<JobId>, jobs: map<JobId, Job>, events: map<JobId, Event>, fired: set<Event>,
                         serial: nat)

  /** How one router ends: applied, failed while applying, or skipped before connecting. */
  datatype RouterOutcome =
    | Applied(node: string)
    | Failed(node: string, error: string)
    | SkippedEarly(node: string, error: string)

  // ----- the lock sections -----

  const FRESH: Job := Job(Running, [], 0, 0, 0, false, None, None)

  function InsertSection(b: Board, j: JobId): Board {
    var order := b.order + [j];
    var jobs := b.jobs[j := FRESH];
    if |order| > MAX_JOBS then b.(order := order[1..], jobs := jobs, events := b.events - {order[0]})
    else b.(order := order, jobs := jobs)
  }

  function RegisterSection(b: Board, j: JobId): Board {
    b.(events := b.events[j := Event(j, b.serial)], serial := b.serial + 1)
  }

  /** First section of a cancel; the flag tells whether the second one follows. */
  function MarkSection(b: Board, j: JobId): (Board, bool) {
    if j !in b.order || j !in b.jobs || b.jobs[j].status.Terminal() then (b, false)
    else (b.(jobs := b.jobs[j := b.jobs[j].(status := Cancelling, cancelRequested := true)]), true)
  }

  function SignalSection(b: Board, j: JobId): Board {
    var b' := if j in b.events then b else RegisterSection(b, j);
    b'.(fired := b'.fired + {b'.events[j]})
  }

  /** Sections that touch nothing but the record of one job. */
  function Put(b: Board, j: JobId, job: Job): Board {
    b.(jobs := b.jobs[j := job])
  }

  function EntryOf(outcome: RouterOutcome): Entry {
    Entry(outcome.node, outcome.Applied?, if outcome.Applied? then None else Some(outcome.error))
  }

  /** Appends one result; early skips leave the success counter alone. */
  function Appended(job: Job, outcome: RouterOutcome, success: nat): Job {
    job.(results := job.results + [EntryOf(outcome)],
         completedCount := job.completedCount + 1,
         successCount := if outcome.SkippedEarly? then job.successCount else success)
  }

  function Ended(job: Job, cancelled: bool, success: nat): Job {
    job.(status := if cancelled then Cancelled else Completed,
         successCount := success,
         ok := Some(!cancelled && job.total > 0 && success == job.total),
         error := if cancelled then Some("Cancelled by user") else job.error)
  }

  // ----- the processes -----

  datatype Pc =
    | Inserted
    | Registered
    | Fetching
    | HasJob
    | Preparing
    | Looping
    | Applying
    | Finishing(cancelled: bool)
    | Stopped

  /** Worker of a job: the event it captured, what is left to do, its own success counter, and how
      many results it appended after that event was set. */
  datatype Worker = Worker(pc: Pc, event: set<Event>, remaining: nat, success: nat, late: nat)

  datatype System = System(board: Board, workers: map<JobId, Worker>, signalling: multiset<JobId>, started: seq<JobId>)

  const START: System := System(Board([], map[], map[], {}, 0), map[], multiset{}, [])

  datatype Action =
    | Insert(j: JobId)
    | Register(j: JobId)
    | Spawn(j: JobId)
    | CancelMark(j: JobId)
    | CancelSignal(j: JobId)
    | FetchJob(j: JobId)
    | FetchEvent(j: JobId)
    | NoLab(j: JobId)
    | SetTotal(j: JobId, total: nat)
    | CheckCancel(j: JobId)
    | Append(j: JobId, outcome: RouterOutcome)
    | Finish(j: JobId)
    | Die(j: JobId)

  /** The event the worker captured is set. */
  predicate SeesCancel(s: System, w: Worker) {
    w.event * s.board.fired != {}
  }

  function FoundEvent(b: Board, j: JobId): set<Event> {
    if j in b.events then {b.events[j]} else {}
  }

  /** One step; a step that is not possible leaves the system as it is. */
  function Do(s: System, a: Action): System {
    var b, j := s.board, a.j;
    if a.Insert? then
      if j in b.jobs then s
      else System(InsertSection(b, j), s.workers[j := Worker(Inserted, {}, 0, 0, 0)], s.signalling, s.started + [j])
    else if a.CancelMark? then
      var (b', marked) := MarkSection(b, j);
      s.(board := b', signalling := if marked then s.signalling + multiset{j} else s.signalling)
    else if a.CancelSignal? then
      if j in s.signalling then s.(board := SignalSection(b, j), signalling := s.signalling - multiset{j}) else s
    else if j !in s.workers || j !in b.jobs then s
    else
      var w := s.workers[j];
      var (job', w') := WorkerStep(b.jobs[j], w, a, j in b.order, FoundEvent(b, j), SeesCancel(s, w));
      var b' := if a.Register? && w.pc.Inserted? then RegisterSection(b, j) else b;
      s.(board := Put(b', j, job'), workers := s.workers[j := w'])
  }

  /** A step of the job's own thread (or of its starter), which sees of the globals only whether
      the job is stored, which event is registered for it, and whether its own event is set. */
  function WorkerStep(job: Job, w: Worker, a: Action, stored: bool, found: set<Event>, sees: bool): (Job, Worker)
    requires !a.Insert? && !a.CancelMark? && !a.CancelSignal?
  {
    match a
    case Register(_) => (job, if w.pc.Inserted? then w.(pc := Registered) else w)
    case Spawn(_) => (job, if w.pc.Registered? then w.(pc := Fetching) else w)
    case FetchJob(_) => (job, if w.pc.Fetching? then w.(pc := if stored then HasJob else Stopped) else w)
    case FetchEvent(_) => (job, if w.pc.HasJob? then w.(pc := Preparing, event := found) else w)
    case NoLab(_) =>
      if w.pc.Preparing? then (job.(status := Error, error := Some("Lab not found")), w.(pc := Stopped)) else (job, w)
    case SetTotal(_, total) =>
      if w.pc.Preparing? then (job.(total := total), w.(pc := Looping, remaining := total)) else (job, w)
    case CheckCancel(_) =>
      (job, if w.pc.Looping? then
              w.(pc := if w.remaining == 0 then Finishing(false) else if sees then Finishing(true) else Applying)
            else w)
    case Append(_, outcome) =>
      if w.pc.Applying? && w.remaining > 0 then
        var success := if outcome.Applied? then w.success + 1 else w.success;
        (Appended(job, outcome, success),
         w.(pc := Looping, remaining := w.remaining - 1, success := success,
            late := if sees then w.late + 1 else w.late))
      else (job, w)
    case Finish(_) =>
      if w.pc.Finishing? then (Ended(job, w.pc.cancelled, w.success), w.(pc := Stopped)) else (job, w)
    case Die(_) => (job, if w.pc.Inserted? || w.pc.Registered? then w else w.(pc := Stopped))
  }

  function Run(s: System, actions: seq<Action>): System {
    if actions == [] then s else Do(Run(s, actions[..|actions| - 1]), actions[|actions| - 1])
  }

  // ----- the invariant -----

  ghost function CountOk(results: seq<Entry>): nat {
    if results == [] then 0 else CountOk(results[..|results| - 1]) + if results[|results| - 1].ok then 1 else 0
  }

  /** The worker has fixed the number of routers and not yet stopped. */
  predicate InLoop(w: Worker) {
    w.pc.Looping? || w.pc.Applying? || w.pc.Finishing?
  }

  /** What holds of one job, its worker, and whether the worker's event is set. */
  ghost predicate JobOk(job: Job, w: Worker, sees: bool) {
    && job.completedCount == |job.results|
    && job.successCount == CountOk(job.results) == w.success
    && (InLoop(w) ==> job.completedCount + w.remaining == job.total)
    && (!InLoop(w) && !w.pc.Stopped? ==> job.results == [] && w.late == 0 && (w.pc.Preparing? || w.event == {}))
    && (w.pc.Applying? ==> w.remaining > 0)
    && (job.status.Terminal() ==> w.pc.Stopped?)
    && (w.pc == Finishing(false) ==> w.remaining == 0)
    && (w.pc == Finishing(true) ==> w.remaining > 0 && job.cancelRequested)
    && (job.status.Completed? ==>
          job.completedCount == job.total && job.ok == Some(job.total > 0 && job.successCount == job.total))
    && (job.status.Cancelled? ==>
          job.cancelRequested && job.completedCount < job.total && job.ok == Some(false) &&
            job.error == Some("Cancelled by user"))
    && (!job.status.Terminal() ==> job.ok == None && job.error == None)
    && (job.status.Error? ==> job.results == [] && job.ok == None && job.error == Some("Lab not found"))
    && (sees ==> job.cancelRequested)
    && w.late <= 1
    && (w.late == 1 ==> sees && !w.pc.Applying?)
  }

  ghost predicate JobsOk(s: System) {
    && s.board.jobs.Keys == s.workers.Keys
    && forall j :: j in s.workers ==> JobOk(s.board.jobs[j], s.workers[j], SeesCancel(s, s.workers[j]))
  }

  /** Registered events belong to the job they are registered for; serial numbers are never reused. */
  ghost predicate RegisteredOk(b: Board) {
    forall j :: j in b.events ==> b.events[j].job == j && b.events[j].serial < b.serial
  }

  ghost predicate CapturedOk(workers: map<JobId, Worker>, serial: nat) {
    forall j, e :: j in workers && e in workers[j].event ==> e.job == j && e.serial < serial
  }

  ghost predicate Requested(jobs: map<JobId, Job>, j: JobId) {
    j in jobs && jobs[j].cancelRequested
  }

  /** Only events of jobs with a request are set, and only such jobs are being signalled. */
  ghost predicate OnlyRequested(b: Board, signalling: multiset<JobId>) {
    && (forall e :: e in b.fired ==> Requested(b.jobs, e.job) && e.serial < b.serial)
    && (forall j :: j in signalling ==> Requested(b.jobs, j))
  }

  ghost predicate EventsOwned(s: System) {
    RegisteredOk(s.board) && CapturedOk(s.workers, s.board.serial) && OnlyRequested(s.board, s.signalling)
  }

  function Last(s: seq<JobId>, n: nat): seq<JobId> {
    if |s| <= n then s else s[|s| - n..]
  }

  /** The store is exactly the last thirty jobs started. */
  ghost predicate StoreIsLatest(s: System) {
    && s.board.order == Last(s.started, 30)
    && (forall j :: j in s.started <==> j in s.board.jobs)
    && (forall i, k :: 0 <= i < k < |s.started| ==> s.started[i] != s.started[k])
  }

  ghost predicate Inv(s: System) {
    JobsOk(s) && EventsOwned(s) && StoreIsLatest(s)
  }

  ghost predicate OfWorker(a: Action) {
    !a.Insert? && !a.CancelMark? && !a.CancelSignal?
  }

  lemma CountOkSnoc(results: seq<Entry>, e: Entry)
    ensures CountOk(results + [e]) == CountOk(results) + if e.ok then 1 else 0
  {
    assert (results + [e])[..|results|] == results;
  }

  lemma WorkerStepKeepsJob(job: Job, w: Worker, a: Action, stored: bool, found: set<Event>, sees: bool, sees': bool)
    requires OfWorker(a) && JobOk(job, w, sees)
    requires if a.FetchEvent? && w.pc.HasJob? then sees' ==> job.cancelRequested else sees' == sees
    ensures var (job', w') := WorkerStep(job, w, a, stored, found, sees); JobOk(job', w', sees')
  {
    if a.Append? {
      CountOkSnoc(job.results, EntryOf(a.outcome));
    }
  }

  // ----- jobs -----

  /** A worker's step is the step of `WorkerStep` on its own record, and touches no other. */
  lemma WorkerTouchesItsOwn(s: System, a: Action)
    requires JobsOk(s) && OfWorker(a) && a.j in s.workers
    ensures var s', j := Do(s, a), a.j;
      var (job', w') := WorkerStep(s.board.jobs[j], s.workers[j], a, j in s.board.order, FoundEvent(s.board, j),
        SeesCancel(s, s.workers[j]));
      && s'.workers == s.workers[j := w'] && s'.board.jobs == s.board.jobs[j := job'] && s'.board.fired == s.board.fired
  {
  }

  lemma WorkerKeepsJobs(s: System, a: Action)
    requires JobsOk(s) && EventsOwned(s) && OfWorker(a)
    ensures JobsOk(Do(s, a))
  {
    if a.j in s.workers {
      var s', j := Do(s, a), a.j;
      WorkerTouchesItsOwn(s, a);
      FetchedIsRequested(s, a);
      WorkerStepKeepsJob(s.board.jobs[j], s.workers[j], a, j in s.board.order, FoundEvent(s.board, j),
                         SeesCancel(s, s.workers[j]), SeesCancel(s', s'.workers[j]));
    }
  }

  /** Only fetching an event changes what a worker sees by its own step. */
  lemma FetchedIsRequested(s: System, a: Action)
    requires JobsOk(s) && EventsOwned(s) && OfWorker(a) && a.j in s.workers
    ensures var s', j := Do(s, a), a.j;
      if a.FetchEvent? && s.workers[j].pc.HasJob? then SeesCancel(s', s'.workers[j]) ==> s.board.jobs[j].cancelRequested
      else SeesCancel(s', s'.workers[j]) == SeesCancel(s, s.workers[j])
  {
    WorkerTouchesItsOwn(s, a);
    if a.FetchEvent? && s.workers[a.j].pc.HasJob? && SeesCancel(Do(s, a), Do(s, a).workers[a.j]) {
      assert s.board.events[a.j] in s.board.fired;
    }
  }

  lemma InsertKeepsJobs(s: System, j: JobId)
    requires JobsOk(s)
    ensures JobsOk(Do(s, Insert(j)))
  {
  }

  lemma MarkKeepsJobs(s: System, j: JobId)
    requires JobsOk(s)
    ensures JobsOk(Do(s, CancelMark(j)))
  {
    var s' := Do(s, CancelMark(j));
    forall k | k in s'.workers ensures JobOk(s'.board.jobs[k], s'.workers[k], SeesCancel(s', s'.workers[k])) {
      assert s'.workers[k] == s.workers[k];
      assert JobOk(s.board.jobs[k], s.workers[k], SeesCancel(s, s.workers[k]));
    }
  }

  lemma SignalKeepsJobs(s: System, j: JobId)
    requires JobsOk(s) && EventsOwned(s)
    ensures JobsOk(Do(s, CancelSignal(j)))
  {
    if j in s.signalling {
      var s' := Do(s, CancelSignal(j));
      forall k | k in s'.workers ensures JobOk(s'.board.jobs[k], s'.workers[k], SeesCancel(s', s'.workers[k])) {
        assert s'.workers[k] == s.workers[k] && s'.board.jobs[k] == s.board.jobs[k];
        SignalledEvents(s, j, k);
      }
    }
  }

  /** Signalling `j` lets a worker see a cancel only if it is the worker of `j`. */
  lemma SignalledEvents(s: System, j: JobId, k: JobId)
    requires EventsOwned(s) && j in s.signalling && k in s.workers
    ensures var s' := Do(s, CancelSignal(j));
      && (SeesCancel(s, s.workers[k]) ==> SeesCancel(s', s.workers[k]))
      && (SeesCancel(s', s.workers[k]) ==> SeesCancel(s, s.workers[k]) || k == j)
  {
  }

  // ----- events -----

  /** Requests are never withdrawn, and nobody is signalled without one. */
  lemma RequestsStay(b: Board, signalling: multiset<JobId>, b': Board, signalling': multiset<JobId>)
    requires OnlyRequested(b, signalling) && b'.fired == b.fired && b'.serial >= b.serial
    requires forall k :: Requested(b.jobs, k) ==> Requested(b'.jobs, k)
    requires forall k :: k in signalling' ==> k in signalling || Requested(b'.jobs, k)
    ensures OnlyRequested(b', signalling')
  {
  }

  lemma InsertKeepsEvents(s: System, j: JobId)
    requires JobsOk(s) && EventsOwned(s)
    ensures EventsOwned(Do(s, Insert(j)))
  {
    if j !in s.board.jobs {
      var s' := Do(s, Insert(j));
      assert s'.board.jobs == s.board.jobs[j := FRESH];
      RequestsStay(s.board, s.signalling, s'.board, s'.signalling);
      assert RegisteredOk(s'.board);
      assert CapturedOk(s'.workers, s'.board.serial);
    }
  }

  lemma MarkKeepsEvents(s: System, j: JobId)
    requires JobsOk(s) && EventsOwned(s)
    ensures EventsOwned(Do(s, CancelMark(j)))
  {
    var s' := Do(s, CancelMark(j));
    assert s'.workers == s.workers && s'.board.events == s.board.events;
    RequestsStay(s.board, s.signalling, s'.board, s'.signalling);
  }

  lemma SignalKeepsEvents(s: System, j: JobId)
    requires EventsOwned(s)
    ensures EventsOwned(Do(s, CancelSignal(j)))
  {
    if j in s.signalling {
      var b := if j in s.board.events then s.board else RegisterSection(s.board, j);
      assert RegisteredOk(b) && CapturedOk(s.workers, b.serial);
      assert Requested(b.jobs, j);
      assert forall k :: k in s.signalling - multiset{j} ==> k in s.signalling;
    }
  }

  lemma WorkerStepAndCancel(job: Job, w: Worker, a: Action, stored: bool, found: set<Event>, sees: bool)
    requires OfWorker(a)
    ensures var (job', w') := WorkerStep(job, w, a, stored, found, sees);
      job'.cancelRequested == job.cancelRequested && w'.event <= w.event + found
  {
  }

  lemma CapturedStays(workers: map<JobId, Worker>, j: JobId, w: Worker, found: set<Event>, serial: nat, serial': nat)
    requires CapturedOk(workers, serial) && serial <= serial' && j in workers && w.event <= workers[j].event + found
    requires forall e :: e in found ==> e.job == j && e.serial < serial
    ensures CapturedOk(workers[j := w], serial')
  {
  }

  lemma WorkerKeepsEvents(s: System, a: Action)
    requires JobsOk(s) && EventsOwned(s) && OfWorker(a) && a.j in s.workers
    ensures EventsOwned(Do(s, a))
  {
    var j, w := a.j, s.workers[a.j];
    var found, sees := FoundEvent(s.board, j), SeesCancel(s, w);
    var (job', w') := WorkerStep(s.board.jobs[j], w, a, j in s.board.order, found, sees);
    var b := if a.Register? && w.pc.Inserted? then RegisterSection(s.board, j) else s.board;
    WorkerStepAndCancel(s.board.jobs[j], w, a, j in s.board.order, found, sees);
    CapturedStays(s.workers, j, w', found, s.board.serial, b.serial);
    assert RegisteredOk(Put(b, j, job'));
    RequestsStay(s.board, s.signalling, Put(b, j, job'), s.signalling);
  }

  // ----- the store -----

  lemma InsertKeepsStore(s: System, j: JobId)
    requires StoreIsLatest(s) && j !in s.board.jobs
    ensures StoreIsLatest(Do(s, Insert(j)))
  {
  }

  lemma OthersKeepKeys(s: System, a: Action)
    requires !a.Insert?
    ensures var s' := Do(s, a);
      s'.started == s.started && s'.board.order == s.board.order && s'.board.jobs.Keys == s.board.jobs.Keys
  {
  }

  lemma StepKeepsInv(s: System, a: Action)
    requires Inv(s)
    ensures Inv(Do(s, a))
  {
    match a {
      case Insert(j) => InsertKeepsJobs(s, j); InsertKeepsEvents(s, j);
      case CancelMark(j) => MarkKeepsJobs(s, j); MarkKeepsEvents(s, j);
      case CancelSignal(j) => SignalKeepsJobs(s, j); SignalKeepsEvents(s, j);
      case _ =>
        WorkerKeepsJobs(s, a);
        if a.j in s.workers {
          WorkerKeepsEvents(s, a);
        }
    }
    if !a.Insert? {
      OthersKeepKeys(s, a);
      assert forall j :: j in Do(s, a).board.jobs <==> j in s.board.jobs.Keys;
    } else if a.j !in s.board.jobs {
      InsertKeepsStore(s, a.j);
    }
  }

  /** In every interleaving the counters match the results, a completed job has processed all its
      routers, a cancelled one was asked to cancel and left some over, a worker appends at most one
      result after its event is set, and the store holds the last thirty jobs. */
  lemma {:induction false} EveryRunKeepsInv(actions: seq<Action>)
    ensures Inv(Run(START, actions))
  {
    if actions != [] {
      EveryRunKeepsInv(actions[..|actions| - 1]);
      StepKeepsInv(Run(START, actions[..|actions| - 1]), actions[|actions| - 1]);
    }
  }

  // ----- what the invariant says of a finished job -----

  lemma {:induction false} AllOkIff(results: seq<Entry>)
    ensures CountOk(results) <= |results|
    ensures CountOk(results) == |results| <==> forall e :: e in results ==> e.ok
  {
    if results != [] {
      var init, last := results[..|results| - 1], results[|results| - 1];
      AllOkIff(init);
      assert results == init + [last];
      assert forall e :: e in results <==> e in init || e == last;
    }
  }

  /** What a job record says at any moment of any run. In particular a job is reported as ok exactly
      when it completed, had routers, and each of them is ok. */
  lemma JobFacts(actions: seq<Action>, j: JobId)
    requires j in Run(START, actions).board.jobs
    ensures var job := Run(START, actions).board.jobs[j];
      && job.completedCount == |job.results| && job.successCount == CountOk(job.results)
      && (job.status.Completed? ==> job.completedCount == job.total)
      && (job.status.Cancelled? ==> job.cancelRequested && job.completedCount < job.total)
      && (job.ok == Some(true) <==>
            job.status.Completed? && job.results != [] && forall e :: e in job.results ==> e.ok)
  {
    EveryRunKeepsInv(actions);
    AllOkIff(Run(START, actions).board.jobs[j].results);
  }

  lemma StepKeepsTerminal(s: System, a: Action, j: JobId)
    requires JobsOk(s) && j in s.board.jobs && s.board.jobs[j].status.Terminal()
    ensures j in Do(s, a).board.jobs && Do(s, a).board.jobs[j] == s.board.jobs[j]
  {
    assert s.workers[j].pc.Stopped?;
    if !OfWorker(a) {
      OthersKeepTerminal(s, a, j);
    } else if a.j in s.workers {
      WorkerTouchesItsOwn(s, a);
      if a.j == j {
        StoppedStays(s.board.jobs[j], s.workers[j], a, j in s.board.order, FoundEvent(s.board, j),
          SeesCancel(s, s.workers[j]));
      }
    }
  }

  lemma OthersKeepTerminal(s: System, a: Action, j: JobId)
    requires !OfWorker(a) && j in s.board.jobs && s.board.jobs[j].status.Terminal()
    ensures j in Do(s, a).board.jobs && Do(s, a).board.jobs[j] == s.board.jobs[j]
  {
  }

  lemma StoppedStays(job: Job, w: Worker, a: Action, stored: bool, found: set<Event>, sees: bool)
    requires OfWorker(a) && w.pc.Stopped?
    ensures WorkerStep(job, w, a, stored, found, sees).0 == job
  {
  }

  /** A terminal status is never left: the whole record is frozen, whoever still acts on it. */
  lemma {:induction false} TerminalIsFinal(actions: seq<Action>, n: nat, j: JobId)
    requires n <= |actions|
    requires j in Run(START, actions[..n]).board.jobs && Run(START, actions[..n]).board.jobs[j].status.Terminal()
    ensures j in Run(START, actions).board.jobs
    ensures Run(START, actions).board.jobs[j] == Run(START, actions[..n]).board.jobs[j]
    decreases |actions|
  {
    if n == |actions| {
      assert actions[..n] == actions;
    } else {
      var init := actions[..|actions| - 1];
      assert init[..n] == actions[..n];
      TerminalIsFinal(init, n, j);
      EveryRunKeepsInv(init);
      StepKeepsTerminal(Run(START, init), actions[|actions| - 1], j);
    }
  }

  /** One check of the event by a looping worker. */
  lemma AfterCheck(s: System, j: JobId)
    requires j in s.workers && j in s.board.jobs && s.workers[j].pc.Looping?
    ensures var s' := Do(s, CheckCancel(j));
      && j in s'.workers && s'.board == s.board
      && s'.workers[j] == s.workers[j].(pc := if s.workers[j].remaining == 0 then Finishing(false)
                                              else if SeesCancel(s, s.workers[j]) then Finishing(true) else Applying)
  {
  }

  lemma AfterFinish(s: System, j: JobId)
    requires j in s.workers && j in s.board.jobs && s.workers[j].pc.Finishing?
    ensures var s' := Do(s, Finish(j));
      j in s'.board.jobs && s'.board.jobs[j] == Ended(s.board.jobs[j], s.workers[j].pc.cancelled, s.workers[j].success)
  {
  }

  // ----- when a signal reaches the worker -----

  /** Signalling reaches a worker if and only if the event it captured is the one registered at that
      moment; it reaches no other worker. */
  lemma SignalIsSeenIff(s: System, j: JobId, k: JobId)
    requires EventsOwned(s) && j in s.signalling && k in s.workers
    ensures SeesCancel(Do(s, CancelSignal(j)), s.workers[k]) <==>
            SeesCancel(s, s.workers[k]) || (j == k && FoundEvent(s.board, j) * s.workers[k].event != {})
  {
    var w, created := s.workers[k], Event(j, s.board.serial);
    var e := if j in s.board.events then s.board.events[j] else created;
    assert Do(s, CancelSignal(j)).board.fired == s.board.fired + {e};
    assert created !in w.event;
    assert w.event * (s.board.fired + {e}) == if e in w.event then w.event * s.board.fired + {e}
      else w.event * s.board.fired;
    assert FoundEvent(s.board, j) * w.event == if j in s.board.events && e in w.event then {e} else {};
  }

  /** A signal, the worker's next check, and the end of the loop if that check ends it. The job ends as
      cancelled if and only if routers are left and the signal reaches the worker, or an earlier one
      did; a signal that comes when no router is left lets it complete. */
  lemma SignalCancelsIff(s: System, j: JobId)
    requires Inv(s) && j in s.signalling && j in s.workers && s.workers[j].pc.Looping?
    ensures var w := s.workers[j];
      var s' := Do(Do(Do(s, CancelSignal(j)), CheckCancel(j)), Finish(j));
      && j in s'.board.jobs
      && (s'.board.jobs[j].status.Cancelled? <==>
            w.remaining > 0 && (SeesCancel(s, w) || FoundEvent(s.board, j) * w.event != {}))
      && (s'.board.jobs[j].status.Completed? <==> w.remaining == 0)
      && s'.board.jobs[j].results == s.board.jobs[j].results
  {
    var s1 := Do(s, CancelSignal(j));
    var s2 := Do(s1, CheckCancel(j));
    SignalIsSeenIff(s, j, j);
    SignalTouchesNoJob(s, j);
    AfterCheck(s1, j);
    assert JobOk(s.board.jobs[j], s.workers[j], SeesCancel(s, s.workers[j]));
    if s2.workers[j].pc.Finishing? {
      AfterFinish(s2, j);
    } else {
      NoFinish(s2, j);
    }
  }

  lemma SignalTouchesNoJob(s: System, j: JobId)
    ensures Do(s, CancelSignal(j)).workers == s.workers && Do(s, CancelSignal(j)).board.jobs == s.board.jobs
  {
  }

  lemma NoFinish(s: System, j: JobId)
    requires j in s.workers && j in s.board.jobs && !s.workers[j].pc.Finishing?
    ensures j in Do(s, Finish(j)).board.jobs && Do(s, Finish(j)).board.jobs[j] == s.board.jobs[j]
  {
  }

  /** A worker that has its event comes to see a request in no other way. */
  lemma OnlySignalsAreSeen(s: System, a: Action, j: JobId)
    requires j in s.workers && j in s.board.jobs && a != CancelSignal(j) && EventsOwned(s)
    requires InLoop(s.workers[j]) || s.workers[j].pc.Preparing?
    ensures SeesCancel(Do(s, a), Do(s, a).workers[j]) <==> SeesCancel(s, s.workers[j])
  {
    if a.CancelSignal? && a.j in s.signalling {
      SignalIsSeenIff(s, a.j, j);
    }
  }

  // ----- what one step does to one job -----

  lemma StoredOnce(s: System)
    requires StoreIsLatest(s)
    ensures forall i, k :: 0 <= i < k < |s.board.order| ==> s.board.order[i] != s.board.order[k]
    ensures forall k :: 0 <= k < |s.board.order| ==> s.board.order[k] in s.board.jobs
  {
  }

  lemma DroppedWithItsEvent(b: Board, i: JobId, j: JobId)
    requires i != j && forall m, k :: 0 <= m < k < |b.order| ==> b.order[m] != b.order[k]
    ensures var b' := InsertSection(b, i);
      && (j in b'.order ==> j in b.order)
      && FoundEvent(b', j) == if j in b.order && j !in b'.order then {} else FoundEvent(b, j)
  {
    var order := b.order + [i];
    if |order| > MAX_JOBS {
      assert order[1..] == b.order[1..] + [i];
      if j in b.order && j != order[0] {
        var k :| 0 <= k < |b.order| && b.order[k] == j;
        assert b.order[1..][k - 1] == j;
      }
    }
  }

  lemma InsertOnJob(s: System, i: JobId, j: JobId)
    requires Inv(s) && j in s.workers
    ensures var s' := Do(s, Insert(i));
      && (j in s'.board.order ==> j in s.board.order)
      && FoundEvent(s'.board, j) ==
         if j in s.board.order && j !in s'.board.order then {} else FoundEvent(s.board, j)
  {
    if i !in s.board.jobs {
      StoredOnce(s);
      assert Do(s, Insert(i)).board == InsertSection(s.board, i);
      DroppedWithItsEvent(s.board, i, j);
    }
  }

  lemma SignalOnJob(s: System, i: JobId, j: JobId)
    ensures var s' := Do(s, CancelSignal(i));
      && s'.board.order == s.board.order
      && FoundEvent(s'.board, j) ==
         if i == j && i in s.signalling && i !in s.board.events then {Event(j, s.board.serial)}
         else FoundEvent(s.board, j)
  {
  }

  lemma WorkerOnJob(s: System, a: Action, j: JobId)
    requires OfWorker(a)
    ensures var s' := Do(s, a);
      && s'.board.order == s.board.order
      && FoundEvent(s'.board, j) ==
         if a == Register(j) && j in s.workers && j in s.board.jobs && s.workers[j].pc.Inserted?
           then {Event(j, s.board.serial)}
         else FoundEvent(s.board, j)
  {
  }

  /** A step changes the place of a job in the store and the event registered for it only by dropping
      it, by registering it, and by a signal that finds no event. */
  lemma StepOnJob(s: System, a: Action, j: JobId)
    requires Inv(s) && j in s.workers
    ensures var s' := Do(s, a);
      && (j in s'.board.order ==> j in s.board.order)
      && FoundEvent(s'.board, j) ==
         if j in s.board.order && j !in s'.board.order then {}
         else if (a == Register(j) && s.workers[j].pc.Inserted?)
                 || (a == CancelSignal(j) && j in s.signalling && j !in s.board.events) then {Event(j, s.board.serial)}
         else FoundEvent(s.board, j)
  {
    match a {
      case Insert(i) => InsertOnJob(s, i, j);
      case CancelMark(i) => assert FoundEvent(Do(s, a).board, j) == FoundEvent(s.board, j);
      case CancelSignal(i) => SignalOnJob(s, i, j);
      case _ => WorkerOnJob(s, a, j);
    }
  }

  lemma WorkerStepOnWorker(job: Job, w: Worker, a: Action, stored: bool, found: set<Event>, sees: bool)
    requires OfWorker(a)
    ensures var w' := WorkerStep(job, w, a, stored, found, sees).1;
      && (w'.pc.Inserted? <==> w.pc.Inserted? && !a.Register?)
      && w'.event == (if a.FetchEvent? && w.pc.HasJob? then found else w.event)
      && (w'.pc.HasJob? ==> w.pc.HasJob? || w.pc.Fetching?)
      && (a.FetchEvent? ==> !w'.pc.HasJob?)
  {
  }

  lemma OthersKeepWorker(s: System, a: Action, j: JobId)
    requires JobsOk(s) && !OfWorker(a)
    ensures j in s.workers ==> j in Do(s, a).workers && Do(s, a).workers[j] == s.workers[j]
    ensures j !in s.workers && j in Do(s, a).workers ==> Do(s, a).workers[j] == Worker(Inserted, {}, 0, 0, 0)
  {
  }

  lemma StepOnWorker(s: System, a: Action, j: JobId)
    requires Inv(s) && j in s.workers
    ensures var s', w := Do(s, a), s.workers[j];
      && j in s'.workers
      && (s'.workers[j].pc.Inserted? <==> w.pc.Inserted? && a != Register(j))
      && s'.workers[j].event == (if a == FetchEvent(j) && w.pc.HasJob? then FoundEvent(s.board, j) else w.event)
      && (s'.workers[j].pc.HasJob? ==> w.pc.HasJob? || w.pc.Fetching?)
      && (a == FetchEvent(j) ==> !s'.workers[j].pc.HasJob?)
  {
    if !OfWorker(a) {
      OthersKeepWorker(s, a, j);
    } else if a.j in s.workers {
      WorkerTouchesItsOwn(s, a);
      WorkerStepOnWorker(s.board.jobs[a.j], s.workers[a.j], a, a.j in s.board.order, FoundEvent(s.board, a.j),
                         SeesCancel(s, s.workers[a.j]));
    }
  }

  lemma NewWorker(s: System, a: Action, j: JobId)
    requires Inv(s) && j !in s.workers
    ensures j in Do(s, a).workers ==> Do(s, a).workers[j].pc.Inserted? && Do(s, a).workers[j].event == {}
  {
    if !OfWorker(a) {
      OthersKeepWorker(s, a, j);
    } else if a.j in s.workers {
      WorkerTouchesItsOwn(s, a);
    }
  }

  // ----- which signals of a run a worker sees -----

  /** The event a signal sets. */
  function SignalledEvent(b: Board, j: JobId): Event {
    if j in b.events then b.events[j] else Event(j, b.serial)
  }

  /** Step `i` of the run is a signal, and sets `e`. */
  ghost predicate Sets(actions: seq<Action>, i: nat, e: Event) {
    && i < |actions| && actions[i].CancelSignal?
    && var s := Run(START, actions[..i]);
       actions[i].j in s.signalling && e == SignalledEvent(s.board, actions[i].j)
  }

  /** In step `k` of the run the worker of `j` fetches its event. */
  ghost predicate Fetches(actions: seq<Action>, k: nat, j: JobId) {
    && k < |actions| && actions[k] == FetchEvent(j)
    && var s := Run(START, actions[..k]);
       j in s.workers && s.workers[j].pc.HasJob?
  }

  /** In step `k` the worker of `j` fetches `e`, the event registered for its job at that moment. */
  ghost predicate FetchesEvent(actions: seq<Action>, k: nat, j: JobId, e: Event) {
    Fetches(actions, k, j) && e in FoundEvent(Run(START, actions[..k]).board, j)
  }

  function Captured(s: System, j: JobId): set<Event> {
    if j in s.workers then s.workers[j].event else {}
  }

  lemma SetsSnoc(init: seq<Action>, a: Action, e: Event)
    ensures (exists i :: Sets(init + [a], i, e)) <==> (exists i :: Sets(init, i, e)) || Sets(init + [a], |init|, e)
  {
    var actions := init + [a];
    forall i: nat | i < |init| ensures Sets(actions, i, e) <==> Sets(init, i, e) {
      assert actions[..i] == init[..i];
    }
  }

  lemma FetchesSnoc(init: seq<Action>, a: Action, j: JobId, e: Event)
    ensures (exists k :: FetchesEvent(init + [a], k, j, e)) <==>
            (exists k :: FetchesEvent(init, k, j, e)) || FetchesEvent(init + [a], |init|, j, e)
  {
    var actions := init + [a];
    forall k: nat | k < |init| ensures FetchesEvent(actions, k, j, e) <==> FetchesEvent(init, k, j, e) {
      assert actions[..k] == init[..k];
    }
  }

  lemma SignalSets(b: Board, j: JobId)
    ensures SignalSection(b, j).fired == b.fired + {SignalledEvent(b, j)}
  {
  }

  lemma OthersSetNothing(s: System, a: Action)
    requires a.Insert? || a.CancelMark?
    ensures Do(s, a).board.fired == s.board.fired
  {
  }

  lemma StepSets(s: System, a: Action, e: Event)
    requires Inv(s)
    ensures e in Do(s, a).board.fired <==>
            e in s.board.fired || (a.CancelSignal? && a.j in s.signalling && e == SignalledEvent(s.board, a.j))
  {
    if a.CancelSignal? {
      SignalSets(s.board, a.j);
    } else if !OfWorker(a) {
      OthersSetNothing(s, a);
    } else if a.j in s.workers {
      WorkerTouchesItsOwn(s, a);
    }
  }

  /** The events that are set are those set by the signals of the run. */
  lemma {:induction false} FiredIffSet(actions: seq<Action>, e: Event)
    ensures e in Run(START, actions).board.fired <==> exists i :: Sets(actions, i, e)
  {
    if actions != [] {
      var init, a := actions[..|actions| - 1], actions[|actions| - 1];
      assert actions == init + [a] && actions[..|init|] == init;
      FiredIffSet(init, e);
      SetsSnoc(init, a, e);
      EveryRunKeepsInv(init);
      StepSets(Run(START, init), a, e);
    }
  }

  lemma StepCaptures(s: System, a: Action, j: JobId, e: Event)
    requires Inv(s)
    ensures e in Captured(Do(s, a), j) <==>
            || e in Captured(s, j)
            || (a == FetchEvent(j) && j in s.workers && s.workers[j].pc.HasJob? && e in FoundEvent(s.board, j))
  {
    if j in s.workers {
      assert JobOk(s.board.jobs[j], s.workers[j], SeesCancel(s, s.workers[j]));
      StepOnWorker(s, a, j);
    } else {
      NewWorker(s, a, j);
    }
  }

  /** What a worker holds is the event that was registered when it fetched. */
  lemma {:induction false} CapturedIffFetched(actions: seq<Action>, j: JobId, e: Event)
    ensures e in Captured(Run(START, actions), j) <==> exists k :: FetchesEvent(actions, k, j, e)
  {
    if actions != [] {
      var init, a := actions[..|actions| - 1], actions[|actions| - 1];
      assert actions == init + [a] && actions[..|init|] == init;
      CapturedIffFetched(init, j, e);
      FetchesSnoc(init, a, j, e);
      EveryRunKeepsInv(init);
      StepCaptures(Run(START, init), a, j, e);
    }
  }

  /** At any moment of any run, a worker sees a request if and only if some signal, before or after
      the worker fetched its event, set the event that was registered when it fetched. */
  lemma RequestIsSeenIff(actions: seq<Action>, j: JobId)
    requires j in Run(START, actions).workers
    ensures SeesCancel(Run(START, actions), Run(START, actions).workers[j]) <==>
            exists e, k, i :: FetchesEvent(actions, k, j, e) && Sets(actions, i, e)
  {
    var s := Run(START, actions);
    if SeesCancel(s, s.workers[j]) {
      var e :| e in s.workers[j].event * s.board.fired;
      CapturedIffFetched(actions, j, e);
      FiredIffSet(actions, e);
    }
    if e, k, i :| FetchesEvent(actions, k, j, e) && Sets(actions, i, e) {
      CapturedIffFetched(actions, j, e);
      FiredIffSet(actions, e);
      assert e in s.workers[j].event * s.board.fired;
    }
  }

  /** The job is registered and still stored. */
  predicate Live(s: System, j: JobId) {
    j in s.board.order && j in s.workers && !s.workers[j].pc.Inserted?
  }

  /** Step `i` signals the job while it is live. */
  ghost predicate SignalsLive(actions: seq<Action>, i: nat, j: JobId) {
    && i < |actions| && actions[i] == CancelSignal(j)
    && var s := Run(START, actions[..i]);
       j in s.signalling && Live(s, j)
  }

  lemma SignalsLiveSnoc(init: seq<Action>, a: Action, j: JobId)
    ensures (exists i :: SignalsLive(init + [a], i, j)) <==>
            || (exists i :: SignalsLive(init, i, j))
            || (a == CancelSignal(j) && j in Run(START, init).signalling && Live(Run(START, init), j))
  {
    var actions := init + [a];
    assert actions[..|init|] == init;
    forall i: nat | i < |init| ensures SignalsLive(actions, i, j) <==> SignalsLive(init, i, j) {
      assert actions[..i] == init[..i];
    }
    if a == CancelSignal(j) && j in Run(START, init).signalling && Live(Run(START, init), j) {
      assert SignalsLive(actions, |init|, j);
    }
  }

  /** The event of a live job stays the same until the job is dropped. */
  lemma LiveStays(s: System, a: Action, j: JobId)
    requires Inv(s) && Live(s, j) && j in s.board.events
    ensures var s' := Do(s, a);
      j in s'.board.order ==> Live(s', j) && j in s'.board.events && s'.board.events[j] == s.board.events[j]
  {
    StepOnJob(s, a, j);
    StepOnWorker(s, a, j);
    assert s.board.events[j] in FoundEvent(s.board, j);
  }

  /** Registering is the only way to become live, and makes an event that nobody has set. */
  lemma BecomesLive(s: System, a: Action, j: JobId)
    requires Inv(s) && !Live(s, j) && Live(Do(s, a), j)
    ensures a == Register(j) && j in s.workers && s.workers[j].pc.Inserted?
    ensures j in Do(s, a).board.events && Do(s, a).board.events[j] !in Do(s, a).board.fired
  {
    if j in s.workers {
      StepOnJob(s, a, j);
      StepOnWorker(s, a, j);
      WorkerTouchesItsOwn(s, a);
      assert Event(j, s.board.serial) in FoundEvent(Do(s, a).board, j);
    } else {
      NewWorker(s, a, j);
    }
  }

  /** The event of a live job is set exactly when the job was signalled since it became live. */
  lemma {:induction false} LiveEventIsSetIff(actions: seq<Action>, j: JobId)
    ensures var s := Run(START, actions);
      && (Live(s, j) ==> j in s.board.events)
      && (Live(s, j) ==> (s.board.events[j] in s.board.fired <==> exists i :: SignalsLive(actions, i, j)))
      && ((exists i :: SignalsLive(actions, i, j)) ==> j in s.workers && !s.workers[j].pc.Inserted?)
  {
    if actions != [] {
      var init, a := actions[..|actions| - 1], actions[|actions| - 1];
      assert actions == init + [a];
      var s := Run(START, init);
      LiveEventIsSetIff(init, j);
      EveryRunKeepsInv(init);
      SignalsLiveSnoc(init, a, j);
      LiveStep(s, a, j);
      if j in s.workers {
        StepOnWorker(s, a, j);
      }
    }
  }

  lemma LiveStep(s: System, a: Action, j: JobId)
    requires Inv(s) && (Live(s, j) ==> j in s.board.events)
    ensures var s' := Do(s, a);
      && (Live(s', j) ==> j in s'.board.events)
      && (Live(s, j) && Live(s', j) ==>
            (s'.board.events[j] in s'.board.fired <==>
             s.board.events[j] in s.board.fired || (a == CancelSignal(j) && j in s.signalling)))
      && (!Live(s, j) && Live(s', j) ==>
            && s'.board.events[j] !in s'.board.fired
            && a == Register(j) && j in s.workers && s.workers[j].pc.Inserted?)
  {
    if Live(s, j) {
      LiveStays(s, a, j);
      StepSets(s, a, s.board.events[j]);
    } else if Live(Do(s, a), j) {
      BecomesLive(s, a, j);
    }
  }

  /** The worker of `j` has fetched its event while the job was stored. */
  ghost predicate FetchedInTime(actions: seq<Action>, j: JobId) {
    exists k: nat :: Fetches(actions, k, j) && j in Run(START, actions[..k]).board.order
  }

  lemma FetchedInTimeSnoc(init: seq<Action>, a: Action, j: JobId)
    ensures FetchedInTime(init + [a], j) <==>
            || FetchedInTime(init, j)
            || (&& a == FetchEvent(j) && Live(Run(START, init), j)
                && Run(START, init).workers[j].pc.HasJob?)
  {
    var actions := init + [a];
    assert actions[..|init|] == init;
    forall k: nat | k < |init| ensures Fetches(actions, k, j) <==> Fetches(init, k, j) {
      assert actions[..k] == init[..k];
    }
    if FetchedInTime(init, j) {
      var k: nat :| Fetches(init, k, j) && j in Run(START, init[..k]).board.order;
      assert Fetches(actions, k, j) && actions[..k] == init[..k];
    }
    if FetchedInTime(actions, j) {
      var k: nat :| Fetches(actions, k, j) && j in Run(START, actions[..k]).board.order;
      if k < |init| {
        assert Fetches(init, k, j) && actions[..k] == init[..k];
      }
    }
    if a == FetchEvent(j) && Live(Run(START, init), j) && Run(START, init).workers[j].pc.HasJob? {
      assert Fetches(actions, |init|, j);
    }
  }

  /** The worker holds one event: the registered one as long as the job is stored, and another one
      than may be registered later. */
  ghost predicate Holds(s: System, j: JobId, e: Event) {
    && j in s.workers && s.workers[j].event == {e}
    && (e in FoundEvent(s.board, j) <==> j in s.board.order)
  }

  lemma HoldsStays(s: System, a: Action, j: JobId, e: Event)
    requires Inv(s) && Holds(s, j, e)
    ensures Holds(Do(s, a), j, e)
  {
    assert JobOk(s.board.jobs[j], s.workers[j], SeesCancel(s, s.workers[j]));
    assert e in s.workers[j].event && e.serial < s.board.serial;
    StepOnJob(s, a, j);
    StepOnWorker(s, a, j);
  }

  lemma FetchHolds(s: System, j: JobId)
    requires Inv(s) && Live(s, j) && j in s.board.events && s.workers[j].pc.HasJob?
    ensures Holds(Do(s, FetchEvent(j)), j, s.board.events[j])
    ensures Do(s, FetchEvent(j)).board.fired == s.board.fired
  {
    WorkerTouchesItsOwn(s, FetchEvent(j));
  }

  lemma {:induction false} HeldEventIsSetIff(actions: seq<Action>, j: JobId) returns (e: Event)
    requires FetchedInTime(actions, j)
    ensures var s := Run(START, actions);
      Holds(s, j, e) && (e in s.board.fired <==> exists i :: SignalsLive(actions, i, j))
  {
    var init, a := actions[..|actions| - 1], actions[|actions| - 1];
    assert actions == init + [a];
    var s := Run(START, init);
    EveryRunKeepsInv(init);
    FetchedInTimeSnoc(init, a, j);
    SignalsLiveSnoc(init, a, j);
    if FetchedInTime(init, j) {
      e := HeldEventIsSetIff(init, j);
      HoldsStays(s, a, j, e);
      StepSets(s, a, e);
      HeldIsSignalledIff(s, j, e);
    } else {
      LiveEventIsSetIff(init, j);
      e := s.board.events[j];
      FetchHolds(s, j);
    }
  }

  /** A signal reaches the held event exactly while the job is live. */
  lemma HeldIsSignalledIff(s: System, j: JobId, e: Event)
    requires Inv(s) && Holds(s, j, e)
    ensures forall i :: i in s.signalling ==> (e == SignalledEvent(s.board, i) <==> i == j && Live(s, j))
  {
    assert JobOk(s.board.jobs[j], s.workers[j], SeesCancel(s, s.workers[j]));
    assert e in s.workers[j].event && e.job == j && e.serial < s.board.serial;
  }

  /** The exact condition in terms of the job alone: a worker that fetched its event while its job was
      stored sees a request if and only if the job was signalled while it was registered and stored. */
  lemma TimelyRequestIsSeenIff(actions: seq<Action>, j: JobId)
    requires FetchedInTime(actions, j)
    ensures var s := Run(START, actions);
      && j in s.workers
      && (SeesCancel(s, s.workers[j]) <==> exists i :: SignalsLive(actions, i, j))
  {
    var e := HeldEventIsSetIff(actions, j);
    var s := Run(START, actions);
    assert s.workers[j].event * s.board.fired == if e in s.board.fired then {e} else {};
  }

  // ----- signals that are lost -----

  /** A job that is not registered yet, with or without a request. */
  ghost predicate Unregistered(s: System, j: JobId) {
    Inv(s) && j in s.workers && j in s.board.order && s.workers[j].pc.Inserted?
  }

  /** On its way to the event that was registered last, which nobody has set. */
  ghost predicate Approaching(s: System, j: JobId, pc: Pc) {
    && j in s.workers && j in s.board.jobs && j in s.board.order && s.workers[j].pc == pc && s.workers[j].event == {}
    && j in s.board.events && s.board.events[j] !in s.board.fired
  }

  lemma RegisterApproaches(s: System, j: JobId)
    requires Unregistered(s, j)
    ensures Approaching(Do(s, Register(j)), j, Registered)
    ensures Do(s, Register(j)).board.jobs == s.board.jobs && Do(s, Register(j)).signalling == s.signalling
  {
    assert JobOk(s.board.jobs[j], s.workers[j], SeesCancel(s, s.workers[j]));
    assert Event(j, s.board.serial) !in s.board.fired;
    assert s.board.jobs[j := s.board.jobs[j]] == s.board.jobs;
  }

  lemma SpawnApproaches(s: System, j: JobId)
    requires Approaching(s, j, Registered)
    ensures Approaching(Do(s, Spawn(j)), j, Fetching)
    ensures Do(s, Spawn(j)).board.jobs == s.board.jobs && Do(s, Spawn(j)).signalling == s.signalling
  {
    assert s.board.jobs[j := s.board.jobs[j]] == s.board.jobs;
  }

  lemma FetchJobApproaches(s: System, j: JobId)
    requires Approaching(s, j, Fetching)
    ensures Approaching(Do(s, FetchJob(j)), j, HasJob)
    ensures Do(s, FetchJob(j)).board.jobs == s.board.jobs && Do(s, FetchJob(j)).signalling == s.signalling
  {
    assert s.board.jobs[j := s.board.jobs[j]] == s.board.jobs;
  }

  lemma FetchEventArrives(s: System, j: JobId)
    requires Approaching(s, j, HasJob)
    ensures var t := Do(s, FetchEvent(j));
      && j in t.workers && t.workers[j].pc.Preparing? && !SeesCancel(t, t.workers[j])
      && t.board.jobs == s.board.jobs && t.signalling == s.signalling
  {
    assert s.board.jobs[j := s.board.jobs[j]] == s.board.jobs;
    assert {s.board.events[j]} * s.board.fired == {};
  }

  /** Registration replaces the event of the job: whatever was signalled before, the worker that
      then starts does not see it. */
  lemma LateRegistrationLosesSignals(s: System, j: JobId)
    requires Unregistered(s, j)
    ensures var t := Do(Do(Do(Do(s, Register(j)), Spawn(j)), FetchJob(j)), FetchEvent(j));
      && j in t.workers && t.workers[j].pc.Preparing? && !SeesCancel(t, t.workers[j])
      && t.board.jobs == s.board.jobs && t.signalling == s.signalling
  {
    var s1 := Do(s, Register(j));
    RegisterApproaches(s, j);
    SpawnApproaches(s1, j);
    FetchJobApproaches(Do(s1, Spawn(j)), j);
    FetchEventArrives(Do(Do(s1, Spawn(j)), FetchJob(j)), j);
  }

  const MARKED: Job := FRESH.(status := Cancelling, cancelRequested := true)

  lemma InsertedRun()
    ensures Run(START, [Insert(0)]) ==
      System(Board([0], map[0 := FRESH], map[], {}, 0), map[0 := Worker(Inserted, {}, 0, 0, 0)], multiset{}, [0])
  {
    assert [Insert(0)][..0] == [];
    assert Run(START, [Insert(0)]) == Do(START, Insert(0));
  }

  lemma MarkedRun()
    ensures Run(START, [Insert(0), CancelMark(0)]) ==
      System(Board([0], map[0 := MARKED], map[], {}, 0), map[0 := Worker(Inserted, {}, 0, 0, 0)], multiset{0}, [0])
  {
    InsertedRun();
    assert [Insert(0), CancelMark(0)][..1] == [Insert(0)];
  }

  /** The input on which this loses a request: marked and signalled before the registration. */
  lemma SignalBeforeRegistration()
    ensures exists actions ::
      var s := Run(START, actions);
      Unregistered(s, 0) && s.board.jobs[0].cancelRequested && s.signalling == multiset{} && s.board.fired != {}
  {
    var actions := [Insert(0), CancelMark(0), CancelSignal(0)];
    MarkedRun();
    EveryRunKeepsInv(actions);
    assert actions[..2] == [Insert(0), CancelMark(0)];
    var s := Do(Run(START, actions[..2]), CancelSignal(0));
    assert Event(0, 0) in s.board.fired;
    assert Run(START, actions) == s;
  }

  // ----- the sections, on the globals themselves -----

  class JobBoard {
    var order: seq<JobId>
    var jobs: map<JobId, Job>
    var events: map<JobId, Event>
    var fired: set<Event>
    var serial: nat

    function State(): Board
      reads this
    {
      Board(order, jobs, events, fired, serial)
    }

    constructor ()
      ensures State() == START.board
    {
      order, jobs, events, fired, serial := [], map[], map[], {}, 0;
    }

    method InsertJob(j: JobId)
      modifies this
      ensures State() == InsertSection(old(State()), j)
    {
      jobs := jobs[j := FRESH];
      order := order + [j];
      if |order| > MAX_JOBS {
        var oldest := order[0];
        order := order[1..];
        events := events - {oldest};
      }
    }

    method RegisterEvent(j: JobId)
      modifies this
      ensures State() == RegisterSection(old(State()), j)
    {
      events := events[j := Event(j, serial)];
      serial := serial + 1;
    }

    method MarkCancelled(j: JobId) returns (marked: bool)
      modifies this
      ensures (State(), marked) == MarkSection(old(State()), j)
    {
      if j !in order || j !in jobs {
        return false;
      }
      if jobs[j].status.Terminal() {
        return false;
      }
      var job := jobs[j];
      if !job.status.Cancelling? {
        job := job.(status := Cancelling);
      }
      jobs := jobs[j := job.(cancelRequested := true)];
      return true;
    }

    method SignalCancel(j: JobId)
      modifies this
      ensures State() == SignalSection(old(State()), j)
    {
      if j !in events {
        RegisterEvent(j);
      }
      fired := fired + {events[j]};
    }

    method AppendResult(j: JobId, outcome: RouterOutcome, success: nat)
      requires j in jobs
      modifies this
      ensures State() == Put(old(State()), j, Appended(old(jobs[j]), outcome, success))
    {
      var job := jobs[j];
      job := job.(results := job.results + [EntryOf(outcome)]);
      job := job.(completedCount := job.completedCount + 1);
      if !outcome.SkippedEarly? {
        job := job.(successCount := success);
      }
      jobs := jobs[j := job];
    }

    method FinishJob(j: JobId, cancelled: bool, success: nat)
      requires j in jobs
      modifies this
      ensures State() == Put(old(State()), j, Ended(old(jobs[j]), cancelled, success))
    {
      var job := jobs[j].(ok := Some(jobs[j].total > 0 && success == jobs[j].total));
      job := job.(successCount := success);
      if cancelled {
        job := job.(status := Cancelled, ok := Some(false), error := Some("Cancelled by user"));
      } else {
        job := job.(status := Completed);
      }
      jobs := jobs[j := job];
    }
  }
}
