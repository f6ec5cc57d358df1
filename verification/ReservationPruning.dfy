/** Lazy pruning cannot be observed: as long as the clock does not go back, a store that forgets
    expired entries whenever it is called answers every call like a store that forgets nothing. */
module ReservationPruning {
  import opened Sequences
  import opened Reservations

  ghost predicate WellFormed(d: Data) {
    forall k, e :: k in d && e in d[k] ==> e.start < e.end
  }

  /** Two lists that differ only in entries expired before `now`. */
  ghost predicate SameLive(a: seq<Entry>, b: seq<Entry>, now: Time) {
    Live(a, now) == Live(b, now)
  }

  /** Two calendars that differ only in entries expired before `now`. */
  ghost predicate Agree(a: Data, b: Data, now: Time) {
    forall k :: SameLive(Entries(a, k), Entries(b, k), now)
  }

  ghost predicate AgreeIfSaved(a: Option<Data>, b: Option<Data>, now: Time) {
    (a.Some? <==> b.Some?) && (a.Some? ==> Agree(a.value, b.value, now))
  }

  // ----- lists -----

  /** Searches that only accept live entries give the same result on both lists. */
  lemma SearchAgrees(a: seq<Entry>, b: seq<Entry>, now: Time, p: Entry -> bool)
    requires SameLive(a, b, now)
    requires forall e :: e in a + b && p(e) ==> LiveAt(now)(e)
    ensures First(a, p) == First(b, p)
    ensures SameLive(RemoveFirst(a, p), RemoveFirst(b, p), now)
    ensures forall x :: LiveAt(now)(x) ==> SameLive(ReplaceFirst(a, p, x), ReplaceFirst(b, p, x), now)
  {
    assert forall e :: e in a || e in b ==> e in a + b;
    FirstThroughFilter(a, LiveAt(now), p);
    FirstThroughFilter(b, LiveAt(now), p);
    RemoveThroughFilter(a, LiveAt(now), p);
    RemoveThroughFilter(b, LiveAt(now), p);
    forall x | LiveAt(now)(x) ensures SameLive(ReplaceFirst(a, p, x), ReplaceFirst(b, p, x), now) {
      ReplaceThroughFilter(a, LiveAt(now), p, x);
      ReplaceThroughFilter(b, LiveAt(now), p, x);
    }
  }

  lemma SortAgrees(a: seq<Entry>, b: seq<Entry>, now: Time)
    requires SameLive(a, b, now)
    ensures SameLive(SortBy(a, StartOf()), SortBy(b, StartOf()), now)
  {
    FilterSort(a, StartOf(), LiveAt(now));
    FilterSort(b, StartOf(), LiveAt(now));
  }

  lemma AppendKeptAgrees(a: seq<Entry>, b: seq<Entry>, now: Time, p: Entry -> bool, x: Entry)
    requires SameLive(a, b, now)
    ensures SameLive(Filter(a, p) + [x], Filter(b, p) + [x], now)
  {
    FilterCommutes(a, p, LiveAt(now));
    FilterCommutes(b, p, LiveAt(now));
    FilterAppend(Filter(a, p), [x], LiveAt(now));
    FilterAppend(Filter(b, p), [x], LiveAt(now));
  }

  /** From `now` on, expired entries carry no load. */
  lemma {:induction false} ListLoadOfLive(q: Query, k: Key, es: seq<Entry>, now: Time, t: Time)
    requires t >= now
    ensures ListLoad(q, k, Live(es, now), t) == ListLoad(q, k, es, t)
  {
    if es != [] {
      var init, last := es[..|es| - 1], es[|es| - 1];
      ListLoadOfLive(q, k, init, now, t);
      FilterSnoc(es, |init|, LiveAt(now));
      assert es[..|init| + 1] == es;
      if LiveAt(now)(last) {
        assert Live(es, now)[..|Live(init, now)|] == Live(init, now);
      }
    }
  }

  lemma {:induction false} LatestActiveOfLive(es: seq<Entry>, now: Time)
    ensures LatestActive(Live(es, now), now) == LatestActive(es, now)
  {
    if es != [] {
      var n := |es| - 1;
      LatestActiveOfLive(es[..n], now);
      FilterSnoc(es, n, LiveAt(now));
      assert es[..n + 1] == es;
      var f := Live(es[..n], now);
      assert (f + [es[n]])[..|f|] == f;
    }
  }

  lemma {:induction false} LastActiveOfLive(es: seq<Entry>, now: Time)
    ensures LastActive(Live(es, now), now) == LastActive(es, now)
  {
    if es != [] {
      var n := |es| - 1;
      LastActiveOfLive(es[..n], now);
      FilterSnoc(es, n, LiveAt(now));
      assert es[..n + 1] == es;
      var f := Live(es[..n], now);
      assert (f + [es[n]])[..|f|] == f;
    }
  }

  lemma UpcomingOfLive(es: seq<Entry>, now: Time)
    requires forall e :: e in es ==> e.start < e.end
    ensures Upcoming(Live(es, now), now) == Upcoming(es, now)
  {
    FilterAbsorb(es, LiveAt(now), FutureAt(now));
  }

  // ----- calendars -----

  lemma LoadAgrees(q: Query, a: Data, b: Data, now: Time, t: Time)
    requires Agree(a, b, now) && t >= now
    ensures Load(q, a, t) == Load(q, b, t)
  {
    var labs := a.Keys + b.Keys;
    forall k | k in labs ensures ListLoad(q, k, Entries(a, k), t) == ListLoad(q, k, Entries(b, k), t) {
      assert SameLive(Entries(a, k), Entries(b, k), now);
      ListLoadOfLive(q, k, Entries(a, k), now, t);
      ListLoadOfLive(q, k, Entries(b, k), now, t);
    }
    LabsLoadPointwise(q, q, a, b, labs, t);
    LoadOverMore(q, a, labs, t);
    LoadOverMore(q, b, labs, t);
  }

  lemma FullAgrees(q: Query, a: Data, b: Data, now: Time, start: Time, end: Time)
    requires Agree(a, b, now) && start >= now
    ensures Full(q, a, start, end) <==> Full(q, b, start, end)
  {
    forall t | start <= t < end ensures Load(q, a, t) == Load(q, b, t) {
      LoadAgrees(q, a, b, now, t);
    }
  }

  lemma PutAgrees(a: Data, b: Data, now: Time, key: Key, es: seq<Entry>, es': seq<Entry>)
    requires Agree(a, b, now) && SameLive(es, es', now)
    ensures Agree(Put(a, key, es), Put(b, key, es'), now)
  {
    forall k ensures SameLive(Entries(Put(a, key, es), k), Entries(Put(b, key, es'), k), now) {
      assert SameLive(Entries(a, k), Entries(b, k), now);
      assert Entries(Put(a, key, es), k) == if k == key then es else Entries(a, k);
      assert Entries(Put(b, key, es'), k) == if k == key then es' else Entries(b, k);
    }
  }

  lemma PruneAgrees(d: Data, now: Time)
    ensures Agree(Prune(d, now), d, now)
  {
    forall k ensures SameLive(Entries(Prune(d, now), k), Entries(d, k), now) {
      if k in d {
        FilterAbsorb(d[k], LiveAt(now), LiveAt(now));
        assert Entries(Prune(d, now), k) == Live(d[k], now);
      }
    }
  }

  lemma AgreeLater(a: Data, b: Data, now: Time, later: Time)
    requires Agree(a, b, now) && now <= later
    ensures Agree(a, b, later)
  {
    forall k ensures SameLive(Entries(a, k), Entries(b, k), later) {
      assert SameLive(Entries(a, k), Entries(b, k), now);
      FilterAbsorb(Entries(a, k), LiveAt(now), LiveAt(later));
      FilterAbsorb(Entries(b, k), LiveAt(now), LiveAt(later));
    }
  }

  lemma AgreeTransitive(a: Data, b: Data, c: Data, now: Time)
    requires Agree(a, b, now) && Agree(b, c, now)
    ensures Agree(a, c, now)
  {
  }

  // ----- decisions -----

  lemma BookedListAgrees(a: Data, b: Data, now: Time, key: Key, booked: Entry)
    requires Agree(a, b, now)
    ensures Agree(Put(a, key, WithBooked(Entries(a, key), booked)), Put(b, key, WithBooked(Entries(b, key), booked)),
      now)
  {
    var es, es' := Entries(a, key), Entries(b, key);
    var p := NotReplaced(booked.owner, booked.start, booked.end);
    assert SameLive(es, es', now);
    AppendKeptAgrees(es, es', now, p, booked);
    SortAgrees(Filter(es, p) + [booked], Filter(es', p) + [booked], now);
    PutAgrees(a, b, now, key, WithBooked(es, booked), WithBooked(es', booked));
  }

  lemma BookingAgrees(a: Data, b: Data, now: Time, key: Key, booked: Entry)
    requires Agree(a, b, now) && booked.start >= now
    ensures DecideBooking(a, key, booked).answer == DecideBooking(b, key, booked).answer
    ensures AgreeIfSaved(DecideBooking(a, key, booked).saved, DecideBooking(b, key, booked).saved, now)
  {
    assert SameLive(Entries(a, key), Entries(b, key), now);
    SearchAgrees(Entries(a, key), Entries(b, key), now, ForeignIn(booked.owner, booked.start, booked.end));
    FullAgrees(Query(booked.owner, SkipLab(key)), a, b, now, booked.start, booked.end);
    BookedListAgrees(a, b, now, key, booked);
  }

  lemma MoveAgrees(a: Data, b: Data, now: Time, key: Key, id: string, e: Entry, start: Time, length: int)
    requires Agree(a, b, now) && WellFormed(a) && WellFormed(b)
    ensures DecideMove(a, now, key, id, e, start, length).answer == DecideMove(b, now, key, id, e, start, length).answer
    ensures AgreeIfSaved(DecideMove(a, now, key, id, e, start, length).saved,
                         DecideMove(b, now, key, id, e, start, length).saved, now)
  {
    if start >= now && 0 < length <= MAX_DURATION {
      var es, es' := Entries(a, key), Entries(b, key);
      assert SameLive(es, es', now);
      SearchAgrees(es, es', now, ForeignIn(e.owner, start, start + length));
      FullAgrees(Query(e.owner, SkipEntry(key, id)), a, b, now, start, start + length);
      MovedListAgrees(a, b, now, key, id, Moved(e, start, length));
    }
  }

  lemma MovedListAgrees(a: Data, b: Data, now: Time, key: Key, id: string, moved: Entry)
    requires Agree(a, b, now) && WellFormed(a) && WellFormed(b) && LiveAt(now)(moved)
    ensures Agree(Put(a, key, WithMoved(Entries(a, key), now, id, moved)),
                  Put(b, key, WithMoved(Entries(b, key), now, id, moved)), now)
  {
    var es, es' := Entries(a, key), Entries(b, key);
    assert SameLive(es, es', now);
    SearchAgrees(es, es', now, FutureWithId(now, id));
    SortAgrees(ReplaceFirst(es, FutureWithId(now, id), moved), ReplaceFirst(es', FutureWithId(now, id), moved), now);
    PutAgrees(a, b, now, key, WithMoved(es, now, id, moved), WithMoved(es', now, id, moved));
  }

  lemma UpdateAgrees(a: Data, b: Data, now: Time, key: Key, id: string, newStart: Option<Time>, newLength: Option<int>)
    requires Agree(a, b, now) && WellFormed(a) && WellFormed(b)
    ensures DecideUpdate(a, now, key, id, newStart, newLength).answer ==
      DecideUpdate(b, now, key, id, newStart, newLength).answer
    ensures AgreeIfSaved(DecideUpdate(a, now, key, id, newStart, newLength).saved,
                         DecideUpdate(b, now, key, id, newStart, newLength).saved, now)
  {
    var es, es' := Entries(a, key), Entries(b, key);
    assert SameLive(es, es', now);
    SearchAgrees(es, es', now, FutureWithId(now, id));
    var target := First(es, FutureWithId(now, id));
    if target.Some? {
      var e := target.value;
      MoveAgrees(a, b, now, key, id, e,
                 if newStart.Some? then newStart.value else e.start,
                 if newLength.Some? then newLength.value else e.duration);
    }
  }

  lemma ExtendAgrees(a: Data, b: Data, now: Time, key: Key, additional: int)
    requires Agree(a, b, now)
    ensures DecideExtend(a, now, key, additional).answer == DecideExtend(b, now, key, additional).answer
    ensures AgreeIfSaved(DecideExtend(a, now, key, additional).saved, DecideExtend(b, now, key, additional).saved, now)
  {
    var es, es' := Entries(a, key), Entries(b, key);
    assert SameLive(es, es', now);
    SearchAgrees(es, es', now, ActiveAt(now));
    var active := First(es, ActiveAt(now));
    if additional > 0 && active.Some? {
      FirstSome(es, ActiveAt(now));
      var longer := Lengthened(active.value, additional);
      assert LiveAt(now)(longer);
      PutAgrees(a, b, now, key, ReplaceFirst(es, ActiveAt(now), longer), ReplaceFirst(es', ActiveAt(now), longer));
    }
  }

  lemma RemovalAgrees(a: Data, b: Data, now: Time, key: Key, p: Entry -> bool)
    requires Agree(a, b, now)
    requires forall e :: e in Entries(a, key) + Entries(b, key) && p(e) ==> LiveAt(now)(e)
    ensures DecideRemoval(a, key, p).answer == DecideRemoval(b, key, p).answer
    ensures AgreeIfSaved(DecideRemoval(a, key, p).saved, DecideRemoval(b, key, p).saved, now)
  {
    var es, es' := Entries(a, key), Entries(b, key);
    assert SameLive(es, es', now);
    SearchAgrees(es, es', now, p);
    PutAgrees(a, b, now, key, RemoveFirst(es, p), RemoveFirst(es', p));
  }

  lemma ActiveLabsAgree(a: Data, b: Data, now: Time, user: string)
    requires Agree(a, b, now)
    ensures ActiveLabs(a, user, now) == ActiveLabs(b, user, now)
  {
    forall k ensures k in ActiveLabs(a, user, now) <==> k in ActiveLabs(b, user, now) {
      assert SameLive(Entries(a, k), Entries(b, k), now);
      SearchAgrees(Entries(a, k), Entries(b, k), now, OwnActive(user, now));
    }
  }

  lemma ViewsAgree(a: Data, b: Data, now: Time, key: Key)
    requires Agree(a, b, now) && WellFormed(a) && WellFormed(b)
    ensures LatestActive(Entries(a, key), now) == LatestActive(Entries(b, key), now)
    ensures LastActive(Entries(a, key), now) == LastActive(Entries(b, key), now)
    ensures Upcoming(Entries(a, key), now) == Upcoming(Entries(b, key), now)
  {
    var es, es' := Entries(a, key), Entries(b, key);
    assert SameLive(es, es', now);
    LatestActiveOfLive(es, now);
    LatestActiveOfLive(es', now);
    LastActiveOfLive(es, now);
    LastActiveOfLive(es', now);
    UpcomingOfLive(es, now);
    UpcomingOfLive(es', now);
  }

  /** Every operation decides alike on calendars that differ only in expired entries. */
  lemma DecideAgrees(a: Data, b: Data, now: Time, op: Op)
    requires Agree(a, b, now) && WellFormed(a) && WellFormed(b)
    ensures Decide(a, now, op).answer == Decide(b, now, op).answer
    ensures AgreeIfSaved(Decide(a, now, op).saved, Decide(b, now, op).saved, now)
  {
    match op
    case Reserve(key, owner, length, at, id) =>
      BookingAgrees(a, b, now, key, Booked(owner, if at.Some? && at.value >= now then at.value else now, length, id));
    case Update(key, id, newStart, newLength) => UpdateAgrees(a, b, now, key, id, newStart, newLength);
    case Extend(key, additional) => ExtendAgrees(a, b, now, key, additional);
    case Cancel(key, id) => RemovalAgrees(a, b, now, key, FutureWithId(now, id));
    case Release(key) => RemovalAgrees(a, b, now, key, ActiveAt(now));
    case Get(key) => ViewsAgree(a, b, now, key);
    case ListScheduled(key) => ViewsAgree(a, b, now, key);
    case Attach(key) => ViewsAgree(a, b, now, key);
    case CountActive(user) => ActiveLabsAgree(a, b, now, user);
  }

  // ----- well-formedness is kept -----

  function Proper(): Entry -> bool { (e: Entry) => e.start < e.end }

  lemma WellFormedAsAll(d: Data)
    ensures WellFormed(d) <==> EntriesAll(d, Proper())
  {
    if EntriesAll(d, Proper()) {
      forall k, e | k in d && e in d[k] ensures e.start < e.end {
        assert Proper()(e);
      }
    }
  }

  lemma DecideWellFormed(d: Data, now: Time, op: Op)
    requires WellFormed(d)
    ensures Decide(d, now, op).saved.Some? ==> WellFormed(Decide(d, now, op).saved.value)
  {
    if Decide(d, now, op).saved.Some? {
      if op.Extend? {
        FirstSome(Entries(d, op.key), ActiveAt(now));
      }
      WellFormedAsAll(d);
      SavedEntries(d, now, op, Proper());
      WellFormedAsAll(Decide(d, now, op).saved.value);
    }
  }

  lemma PruneWellFormed(d: Data, now: Time)
    requires WellFormed(d)
    ensures WellFormed(Prune(d, now))
  {
    WellFormedAsAll(d);
    PrunedEntries(d, now, Proper());
    WellFormedAsAll(Prune(d, now));
  }

  // ----- steps and runs -----

  lemma StepAgrees(pruned: Data, full: Data, now: Time, op: Op)
    requires Agree(pruned, full, now) && WellFormed(pruned) && WellFormed(full)
    ensures Step(pruned, now, op).1 == StepKeepingAll(full, now, op).1
    ensures Agree(Step(pruned, now, op).0, StepKeepingAll(full, now, op).0, now)
    ensures WellFormed(Step(pruned, now, op).0) && WellFormed(StepKeepingAll(full, now, op).0)
  {
    var working := Prune(pruned, now);
    PruneAgrees(pruned, now);
    PruneWellFormed(pruned, now);
    AgreeTransitive(working, pruned, full, now);
    DecideAgrees(working, full, now, op);
    DecideAgrees(pruned, full, now, op);
    DecideWellFormed(working, now, op);
    DecideWellFormed(full, now, op);
  }

  /** The pruning store and the store that keeps everything give the same answers to every run. */
  lemma {:induction false} PruningIsInvisible(pruned: Data, full: Data, now: Time, calls: seq<Call>)
    requires Agree(pruned, full, now) && WellFormed(pruned) && WellFormed(full)
    requires ClockNeverGoesBack(calls) && (calls != [] ==> now <= calls[0].now)
    ensures Answers(pruned, calls) == AnswersKeepingAll(full, calls)
    decreases |calls|
  {
    if calls != [] {
      var c := calls[0];
      AgreeLater(pruned, full, now, c.now);
      StepAgrees(pruned, full, c.now, c.op);
      assert ClockNeverGoesBack(calls[1..]);
      PruningIsInvisible(Step(pruned, c.now, c.op).0, StepKeepingAll(full, c.now, c.op).0, c.now, calls[1..]);
    }
  }

  /** The same from a common, well-formed calendar such as the empty one. */
  lemma PruningIsInvisibleFrom(d: Data, calls: seq<Call>)
    requires WellFormed(d) && ClockNeverGoesBack(calls)
    ensures Answers(d, calls) == AnswersKeepingAll(d, calls)
  {
    if calls != [] {
      PruningIsInvisible(d, d, calls[0].now, calls);
    }
  }

  // ----- which clocks hide the pruning -----

  function CallsAt(times: seq<Time>, ops: seq<Op>): (calls: seq<Call>)
    requires |ops| == |times|
    ensures |calls| == |times| && forall i :: 0 <= i < |calls| ==> calls[i] == Call(times[i], ops[i])
  {
    if times == [] then [] else [Call(times[0], ops[0])] + CallsAt(times[1..], ops[1..])
  }

  /** At these times, some calls on some well-formed calendar answer differently with pruning. */
  ghost predicate PruningShows(times: seq<Time>) {
    exists d, ops :: WellFormed(d) && |ops| == |times| && Differ(d, times, ops)
  }

  ghost predicate Differ(d: Data, times: seq<Time>, ops: seq<Op>)
    requires |ops| == |times|
  {
    Answers(d, CallsAt(times, ops)) != AnswersKeepingAll(d, CallsAt(times, ops))
  }

  /** A lab with one entry, that ends at `end`. */
  function OneEntry(end: Time): Data {
    map[EXAMPLE_LAB := [Entry("r1", "ann", end - 1, end, 1, false)]]
  }

  /** An entry that ends at the earlier time is pruned at the later one, and missed afterwards. */
  lemma MissedEntry(later: Time, earlier: Time)
    requires later > earlier
    ensures var d := OneEntry(earlier);
      && Step(d, later, Get(EXAMPLE_LAB)).0 == map[] && Step(map[], earlier, Get(EXAMPLE_LAB)).1 == Found(None)
      && StepKeepingAll(d, later, Get(EXAMPLE_LAB)).0 == d &&
        StepKeepingAll(d, earlier, Get(EXAMPLE_LAB)).1 != Found(None)
  {
    var e := Entry("r1", "ann", earlier - 1, earlier, 1, false);
    var d := OneEntry(earlier);
    assert [e] == [e] + [];
    FilterCons(e, [], LiveAt(later));
    assert Live(d[EXAMPLE_LAB], later) == [];
    assert Prune(d, later) == map[];
    assert SomethingExpired(d, later) by {
      assert |Live(d[EXAMPLE_LAB], later)| != |d[EXAMPLE_LAB]|;
    }
    assert LatestActive([e], earlier) == Some(e);
  }

  lemma SecondAnswers(d: Data, calls: seq<Call>)
    requires |calls| >= 2
    ensures |Answers(d, calls)| >= 2 && |AnswersKeepingAll(d, calls)| >= 2
    ensures Answers(d, calls)[1] == Step(Step(d, calls[0].now, calls[0].op).0, calls[1].now, calls[1].op).1
    ensures AnswersKeepingAll(d, calls)[1] ==
      StepKeepingAll(StepKeepingAll(d, calls[0].now, calls[0].op).0, calls[1].now, calls[1].op).1
  {
    assert calls[1..][0] == calls[1];
  }

  /** A descent between the first two times shows at once. */
  lemma FirstDescentShows(times: seq<Time>)
    requires |times| >= 2 && times[0] > times[1]
    ensures PruningShows(times)
  {
    var d := OneEntry(times[1]);
    var ops := [Get(EXAMPLE_LAB), Get(EXAMPLE_LAB)] + seq(|times| - 2, _ => CountActive(""));
    MissedEntry(times[0], times[1]);
    SecondAnswers(d, CallsAt(times, ops));
    assert WellFormed(d) && Differ(d, times, ops);
  }

  /** A call that changes nothing can be put in front. */
  lemma IdleInFront(d: Data, times: seq<Time>, ops: seq<Op>)
    requires times != [] && |ops| == |times| - 1 && Differ(d, times[1..], ops)
    ensures Differ(d, times, [CountActive("")] + ops)
  {
    var more := [CountActive("")] + ops;
    var calls := CallsAt(times, more);
    assert more[1..] == ops && calls[1..] == CallsAt(times[1..], ops);
    assert Answers(d, calls)[1..] == Answers(d, calls[1..]);
    assert AnswersKeepingAll(d, calls)[1..] == AnswersKeepingAll(d, calls[1..]);
  }

  lemma ShowsLater(times: seq<Time>)
    requires times != [] && PruningShows(times[1..])
    ensures PruningShows(times)
  {
    var d, ops :| WellFormed(d) && |ops| == |times[1..]| && Differ(d, times[1..], ops);
    IdleInFront(d, times, ops);
    var more := [CountActive("")] + ops;
    assert WellFormed(d) && |more| == |times| && Differ(d, times, more);
  }

  lemma {:induction false} DescentShows(times: seq<Time>, i: nat)
    requires i + 1 < |times| && times[i] > times[i + 1]
    ensures PruningShows(times)
  {
    if i == 0 {
      FirstDescentShows(times);
    } else {
      DescentShows(times[1..], i - 1);
      ShowsLater(times);
    }
  }

  lemma {:induction false} NextDescent(times: seq<Time>, i: nat, j: nat) returns (k: nat)
    requires i < j < |times| && times[i] > times[j]
    ensures k + 1 < |times| && times[k] > times[k + 1]
    decreases j
  {
    if times[j - 1] > times[j] {
      k := j - 1;
    } else {
      k := NextDescent(times, i, j - 1);
    }
  }

  /** The clock condition is exact: pruning is invisible for all calendars and all operations if and
      only if the times of the calls never go back. */
  lemma PruningShowsIff(times: seq<Time>)
    ensures PruningShows(times) <==> exists i, j :: 0 <= i < j < |times| && times[i] > times[j]
  {
    if i, j :| 0 <= i < j < |times| && times[i] > times[j] {
      var k := NextDescent(times, i, j);
      DescentShows(times, k);
    } else {
      forall d, ops | WellFormed(d) && |ops| == |times| ensures !Differ(d, times, ops) {
        PruningIsInvisibleFrom(d, CallsAt(times, ops));
      }
    }
  }
}
