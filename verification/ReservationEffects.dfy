/** What every operation does to the calendar and what it answers, told on the entries themselves:
    which entries stay, which go, which is new, and when a call is refused. Only field values, numbers
    of occurrences and positions in the lists are used here. */
module ReservationEffects {
  import opened Sequences
  import opened Reservations
  import opened ReservationPruning
  import opened ReservationCounts

  // ----- keys -----

  /** Labs of VMs without a colon in their id are told apart by their keys. */
  lemma KeysTellLabsApart(vm: string, lab: string, vm': string, lab': string)
    requires ':' !in vm && ':' !in vm' && KeyOf(vm, lab) == KeyOf(vm', lab')
    ensures vm == vm' && lab == lab'
  {
    var key := KeyOf(vm, lab);
    assert key[|vm|] == ':' && key[|vm'|] == ':';
    assert forall i :: 0 <= i < |vm| ==> key[i] == vm[i] && key[i] in vm;
    assert forall i :: 0 <= i < |vm'| ==> key[i] == vm'[i] && key[i] in vm';
    assert vm == key[..|vm|] && vm' == key[..|vm'|];
    assert lab == key[|vm| + 2..] && lab' == key[|vm'| + 2..];
  }

  /** With a colon they are not. */
  lemma ColonsBlurKeys()
    ensures KeyOf("a::b", "c") == KeyOf("a", "b::c")
  {
  }

  // ----- what changes -----

  /** Expired entries go, `gone` goes from the lab `key`, and `added` is there once more. */
  ghost predicate Exchanges(d: Data, d': Data, now: Time, key: Key, gone: Option<Entry>, added: Option<Entry>) {
    && (forall k, e ::
          Held(d', k, e) + One(k == key && gone == Some(e)) ==
            HeldLive(d, now, k, e) + One(k == key && added == Some(e)))
    && (forall k :: k in d' ==> d'[k] != [])
  }

  function Single(e: Option<Entry>): multiset<Entry> {
    if e.Some? then multiset{e.value} else multiset{}
  }

  lemma PutExchanges(d: Data, now: Time, key: Key, es: seq<Entry>, gone: Option<Entry>, added: Option<Entry>)
    requires multiset(es) + Single(gone) == multiset(Entries(Prune(d, now), key)) + Single(added)
    ensures Exchanges(d, Put(Prune(d, now), key, es), now, key, gone, added)
  {
    var working := Prune(d, now);
    forall k, e
      ensures Held(Put(working, key, es), k, e) + One(k == key && gone == Some(e)) ==
        HeldLive(d, now, k, e) + One(k == key && added == Some(e))
    {
      PruneHeld(d, now, k, e);
      PutHeld(working, key, es, k, e);
      assert Single(gone)[e] == One(gone == Some(e)) && Single(added)[e] == One(added == Some(e));
      assert (multiset(es) + Single(gone))[e] == (multiset(Entries(working, key)) + Single(added))[e];
    }
  }

  lemma ReplacementExchanges(d: Data, now: Time, key: Key, p: Entry -> bool, added: Entry)
    requires First(Entries(Prune(d, now), key), p).Some?
    ensures var es := Entries(Prune(d, now), key);
      var gone := First(es, p);
      && Exchanges(d, Put(Prune(d, now), key, ReplaceFirst(es, p, added)), now, key, gone, Some(added))
      && Exchanges(d, Put(Prune(d, now), key, SortBy(ReplaceFirst(es, p, added), StartOf())), now, key, gone,
           Some(added))
      && Exchanges(d, Put(Prune(d, now), key, RemoveFirst(es, p)), now, key, gone, None)
  {
    var es := Entries(Prune(d, now), key);
    ChangeCount(es, p, added);
    SortPermutes(ReplaceFirst(es, p, added), StartOf());
    PutExchanges(d, now, key, ReplaceFirst(es, p, added), First(es, p), Some(added));
    PutExchanges(d, now, key, SortBy(ReplaceFirst(es, p, added), StartOf()), First(es, p), Some(added));
    PutExchanges(d, now, key, RemoveFirst(es, p), First(es, p), None);
  }

  lemma PruningExchangesNothing(d: Data, now: Time, k: Key, e: Entry)
    ensures Held(Prune(d, now), k, e) == HeldLive(d, now, k, e)
    ensures !SomethingExpired(d, now) ==> Held(d, k, e) == HeldLive(d, now, k, e)
  {
    PruneHeld(d, now, k, e);
    if k in d && |Live(d[k], now)| == |d[k]| {
      NothingFiltered(d[k], LiveAt(now));
    }
  }

  lemma {:induction false} NothingFiltered(es: seq<Entry>, p: Entry -> bool)
    ensures |Filter(es, p)| <= |es|
    ensures |Filter(es, p)| == |es| ==> Filter(es, p) == es
  {
    if es != [] {
      NothingFiltered(es[1..], p);
    }
  }

  /** A view, or a search that finds nothing, changes nothing but may drop what has expired. */
  ghost predicate OnlyPrunes(d: Data, d': Data, now: Time) {
    forall k, e :: Held(d', k, e) == HeldLive(d, now, k, e)
  }

  lemma SavedOrNot(d: Data, now: Time, op: Op)
    requires SavesPruning(op) && Decide(Prune(d, now), now, op).saved.None?
    ensures OnlyPrunes(d, Step(d, now, op).0, now)
  {
    forall k, e ensures Held(Step(d, now, op).0, k, e) == HeldLive(d, now, k, e) {
      PruningExchangesNothing(d, now, k, e);
    }
  }

  // ----- reserve -----

  function Foreign(owner: string, start: Time, end: Time): Entry -> bool {
    (e: Entry) => e.owner != owner && e.start < end && start < e.end
  }

  /** Somebody else has an entry on the lab that shares an instant with the slot. */
  ghost predicate Taken(d: Data, key: Key, owner: string, start: Time, end: Time) {
    exists e :: e in Listed(d, key) && Foreign(owner, start, end)(e)
  }

  lemma ForeignInPruned(d: Data, now: Time, key: Key, owner: string, start: Time, end: Time)
    requires start >= now
    ensures var held := First(Entries(Prune(d, now), key), ForeignIn(owner, start, end));
      && (held.Some? <==> Taken(d, key, owner, start, end))
      && (forall i: nat :: IsFirst(Listed(d, key), i, Foreign(owner, start, end)) ==> held == Some(Listed(d, key)[i]))
  {
    FirstInPruned(d, now, key, ForeignIn(owner, start, end), Foreign(owner, start, end));
    IsFirstIff(Listed(d, key), Foreign(owner, start, end));
    FirstSome(Listed(d, key), Foreign(owner, start, end));
  }

  /** What is answered to the wish for a slot: who holds it first, then whether the owner has too many
      at once; otherwise the entry is saved. */
  predicate SlotAnswer(answer: Answer, taken: bool, crowded: bool, entry: Entry) {
    && (answer.Refused? && answer.reason.HeldBy? <==> taken)
    && (answer == Refused(TooManyAtOnce) <==> !taken && crowded)
    && (answer == Saved(entry) <==> !taken && !crowded)
  }

  /** The start a reservation gets: the one asked for, but no earlier than now. */
  function StartFor(at: Option<Time>, now: Time): Time {
    if at.Some? && at.value >= now then at.value else now
  }

  /** A call that never saves the pruning alone saves what it decides, or nothing. */
  lemma OneCall(d: Data, now: Time, op: Op)
    requires !op.CountActive? && !SavesPruning(op)
    ensures var decision := Decide(Prune(d, now), now, op);
      Step(d, now, op) == (if decision.saved.Some? then decision.saved.value else d, decision.answer)
  {
  }

  lemma DecidesBooking(d: Data, now: Time, key: Key, owner: string, length: int, at: Option<Time>, id: string)
    requires 0 < length <= 6 * HOUR
    ensures var start := StartFor(at, now);
      Decide(d, now, Reserve(key, owner, length, at, id)) ==
        DecideBooking(d, key, Entry(id, owner, start, start + length, length, false))
  {
  }

  lemma ReserveDecides(d: Data, now: Time, key: Key, owner: string, length: int, at: Option<Time>, id: string)
    requires 0 < length <= 6 * HOUR
    ensures var start := StartFor(at, now);
      var (d', answer) := Step(d, now, Reserve(key, owner, length, at, id));
      var decision := DecideBooking(Prune(d, now), key, Entry(id, owner, start, start + length, length, false));
      answer == decision.answer && d' == if decision.saved.Some? then decision.saved.value else d
  {
    OneCall(d, now, Reserve(key, owner, length, at, id));
    DecidesBooking(Prune(d, now), now, key, owner, length, at, id);
  }

  lemma SlotInPruned(d: Data, now: Time, key: Key, id: Option<string>, owner: string, start: Time, end: Time)
    requires start >= now
    ensures First(Entries(Prune(d, now), key), ForeignIn(owner, start, end)).Some? <==> Taken(d, key, owner, start, end)
    ensures Full(Query(owner, SkipOf(key, id)), Prune(d, now), start, end) <==> Crowded(d, owner, key, id, start, end)
  {
    ForeignInPruned(d, now, key, owner, start, end);
    CrowdedInPruned(d, now, owner, key, id, start, end);
  }

  lemma BookingAnswer(d: Data, now: Time, key: Key, b: Entry)
    requires b.start >= now
    ensures SlotAnswer(DecideBooking(Prune(d, now), key, b).answer, Taken(d, key, b.owner, b.start, b.end),
              Crowded(d, b.owner, key, None, b.start, b.end), b)
  {
    SlotInPruned(d, now, key, None, b.owner, b.start, b.end);
  }

  lemma BadLengths(d: Data, now: Time, key: Key, owner: string, length: int, at: Option<Time>, id: string)
    requires length <= 0 || length > 6 * HOUR
    ensures Step(d, now, Reserve(key, owner, length, at, id)) == (d, Refused(BadDuration))
  {
  }

  /** When a reservation is refused, and why: by its length, by an overlapping entry of somebody else on
      the lab, and by two entries of the owner on other labs at once. Otherwise it is saved exactly as
      asked for. */
  lemma ReserveAnswer(d: Data, now: Time, key: Key, owner: string, length: int, at: Option<Time>, id: string)
    ensures var (d', answer) := Step(d, now, Reserve(key, owner, length, at, id));
      var start := StartFor(at, now);
      && (answer == Refused(BadDuration) <==> length <= 0 || length > 6 * HOUR)
      && (0 < length <= 6 * HOUR ==>
            SlotAnswer(answer, Taken(d, key, owner, start, start + length),
              Crowded(d, owner, key, None, start, start + length),
              Entry(id, owner, start, start + length, length, false)))
      && (!answer.Saved? ==> d' == d)
  {
    if 0 < length <= 6 * HOUR {
      var start := StartFor(at, now);
      ReserveDecides(d, now, key, owner, length, at, id);
      BookingAnswer(d, now, key, Entry(id, owner, start, start + length, length, false));
      RefusedSavesNothing(Prune(d, now), key, Entry(id, owner, start, start + length, length, false));
    } else {
      BadLengths(d, now, key, owner, length, at, id);
    }
  }

  lemma RefusedSavesNothing(d: Data, key: Key, b: Entry)
    ensures var decision := DecideBooking(d, key, b);
      decision.answer != Refused(BadDuration) && (decision.answer.Saved? <==> decision.saved.Some?)
      && (decision.answer.Saved? ==> decision == Decision(Saved(b), Some(Put(d, key, WithBooked(Entries(d, key), b)))))
  {
  }

  /** The refusal names the owner of the first entry in the way. */
  lemma ReserveNamesTheHolder(d: Data, now: Time, key: Key, owner: string, length: int, at: Option<Time>, id: string,
                              i: nat)
    requires 0 < length <= 6 * HOUR
    requires IsFirst(Listed(d, key), i, Foreign(owner, StartFor(at, now), StartFor(at, now) + length))
    ensures Step(d, now, Reserve(key, owner, length, at, id)).1 == Refused(HeldBy(Listed(d, key)[i].owner))
  {
    ReserveDecides(d, now, key, owner, length, at, id);
    ForeignInPruned(d, now, key, owner, StartFor(at, now), StartFor(at, now) + length);
  }

  /** An own entry of the lab that shares an instant with the new one, which takes its place. */
  predicate Displaced(key: Key, b: Entry, k: Key, e: Entry) {
    k == key && e.owner == b.owner && e.start < b.end && b.start < e.end
  }

  lemma BookedCount(es: seq<Entry>, key: Key, b: Entry, x: Entry)
    ensures multiset(WithBooked(es, b))[x] == (if Displaced(key, b, key, x) then 0 else multiset(es)[x]) + One(x == b)
  {
    var p := NotReplaced(b.owner, b.start, b.end);
    SortPermutes(Filter(es, p) + [b], StartOf());
    FilterCount(es, p, x);
  }

  /** Every entry that is not expired and not displaced stays, and the new one is there. */
  ghost predicate Books(d: Data, d': Data, now: Time, key: Key, b: Entry) {
    && (forall k, e ::
          Held(d', k, e) == (if Displaced(key, b, k, e) then 0 else HeldLive(d, now, k, e)) + One(k == key && e == b))
    && (forall k :: k in d' ==> d'[k] != [])
  }

  lemma BookingBooks(d: Data, now: Time, key: Key, b: Entry)
    ensures Books(d, Put(Prune(d, now), key, WithBooked(Entries(Prune(d, now), key), b)), now, key, b)
  {
    var es := Entries(Prune(d, now), key);
    forall k, e
      ensures Held(Put(Prune(d, now), key, WithBooked(es, b)), k, e) ==
        (if Displaced(key, b, k, e) then 0 else HeldLive(d, now, k, e)) + One(k == key && e == b)
    {
      PruneHeld(d, now, k, e);
      BookedCount(es, key, b, e);
      PutHeld(Prune(d, now), key, WithBooked(es, b), k, e);
    }
  }

  lemma ReserveSaves(d: Data, now: Time, key: Key, owner: string, length: int, at: Option<Time>, id: string, b: Entry)
    requires Step(d, now, Reserve(key, owner, length, at, id)).1.Saved?
    requires b == Entry(id, owner, StartFor(at, now), StartFor(at, now) + length, length, false)
    ensures Step(d, now, Reserve(key, owner, length, at, id)) ==
      (Put(Prune(d, now), key, WithBooked(Entries(Prune(d, now), key), b)), Saved(b))
  {
    if 0 < length <= 6 * HOUR {
      ReserveDecides(d, now, key, owner, length, at, id);
      RefusedSavesNothing(Prune(d, now), key, b);
    } else {
      BadLengths(d, now, key, owner, length, at, id);
    }
  }

  /** What an accepted reservation stores: exactly what was asked for; and what it leaves: every entry
      that is not expired and is not an own overlapping one of the same lab. */
  lemma ReserveEffect(d: Data, now: Time, key: Key, owner: string, length: int, at: Option<Time>, id: string)
    requires Step(d, now, Reserve(key, owner, length, at, id)).1.Saved?
    ensures var (d', answer) := Step(d, now, Reserve(key, owner, length, at, id));
      var start := StartFor(at, now);
      answer.entry == Entry(id, owner, start, start + length, length, false) && Books(d, d', now, key, answer.entry)
  {
    var b := Entry(id, owner, StartFor(at, now), StartFor(at, now) + length, length, false);
    ReserveSaves(d, now, key, owner, length, at, id, b);
    BookingBooks(d, now, key, b);
  }

  // ----- update -----

  function ScheduledAs(now: Time, id: string): Entry -> bool {
    (e: Entry) => e.id == id && e.start > now && e.end >= now
  }

  lemma NothingToUpdate(d: Data, now: Time, key: Key, id: string, newStart: Option<Time>, newLength: Option<int>)
    ensures var (d', answer) := Step(d, now, Update(key, id, newStart, newLength));
      && (answer == Found(None) <==> forall e :: e in Listed(d, key) ==> !ScheduledAs(now, id)(e))
      && (!answer.Saved? ==> d' == d)
  {
    OneCall(d, now, Update(key, id, newStart, newLength));
    FirstInPruned(d, now, key, FutureWithId(now, id), ScheduledAs(now, id));
    FirstSome(Listed(d, key), ScheduledAs(now, id));
  }

  lemma UpdateDecides(d: Data, now: Time, key: Key, id: string, newStart: Option<Time>, newLength: Option<int>, i: nat)
    requires IsFirst(Listed(d, key), i, ScheduledAs(now, id))
    ensures var (d', answer) := Step(d, now, Update(key, id, newStart, newLength));
      var e := Listed(d, key)[i];
      var decision := DecideMove(Prune(d, now), now, key, id, e,
        if newStart.Some? then newStart.value else e.start, if newLength.Some? then newLength.value else e.duration);
      answer == decision.answer && d' == if decision.saved.Some? then decision.saved.value else d
  {
    FirstInPruned(d, now, key, FutureWithId(now, id), ScheduledAs(now, id));
    IsFirstIff(Listed(d, key), ScheduledAs(now, id));
  }

  lemma MoveVerdict(d: Data, now: Time, key: Key, id: string, e: Entry, start: Time, length: int)
    requires start >= now && 0 < length <= 6 * HOUR
    ensures SlotAnswer(DecideMove(d, now, key, id, e, start, length).answer,
              First(Entries(d, key), ForeignIn(e.owner, start, start + length)).Some?,
              Full(Query(e.owner, SkipEntry(key, id)), d, start, start + length),
              Entry(e.id, e.owner, start, start + length, length, e.extended))
  {
  }

  lemma MoveAnswer(d: Data, now: Time, key: Key, id: string, e: Entry, start: Time, length: int)
    requires start >= now && 0 < length <= 6 * HOUR
    ensures SlotAnswer(DecideMove(Prune(d, now), now, key, id, e, start, length).answer,
              Taken(d, key, e.owner, start, start + length), Crowded(d, e.owner, key, Some(id), start, start + length),
              Entry(e.id, e.owner, start, start + length, length, e.extended))
  {
    MoveVerdict(Prune(d, now), now, key, id, e, start, length);
    SlotInPruned(d, now, key, Some(id), e.owner, start, start + length);
  }

  lemma MoveDecides(d: Data, now: Time, key: Key, id: string, e: Entry, start: Time, length: int)
    ensures var decision := DecideMove(d, now, key, id, e, start, length);
      && (decision.answer == Refused(StartInThePast) <==> start < now)
      && (decision.answer == Refused(BadDuration) <==> start >= now && (length <= 0 || length > 6 * HOUR))
      && (decision.answer.Saved? <==> decision.saved.Some?)
      && (decision.answer.Saved? ==>
            decision.answer.entry == Entry(e.id, e.owner, start, start + length, length, e.extended))
  {
  }

  /** The start and the length an update gives its entry: those asked for, else the old ones. */
  function MovedAs(e: Entry, newStart: Option<Time>, newLength: Option<int>): Entry {
    var start := if newStart.Some? then newStart.value else e.start;
    var length := if newLength.Some? then newLength.value else e.duration;
    Entry(e.id, e.owner, start, start + length, length, e.extended)
  }

  /** An update of the first future entry with the id: why it is refused, or that the entry is saved with
      the start and the length asked for and everything else kept. */
  lemma UpdateAnswer(d: Data, now: Time, key: Key, id: string, newStart: Option<Time>, newLength: Option<int>, i: nat)
    requires IsFirst(Listed(d, key), i, ScheduledAs(now, id))
    ensures var answer, e := Step(d, now, Update(key, id, newStart, newLength)).1, Listed(d, key)[i];
      var m := MovedAs(e, newStart, newLength);
      && (answer == Refused(StartInThePast) <==> m.start < now)
      && (answer == Refused(BadDuration) <==> m.start >= now && (m.duration <= 0 || m.duration > 6 * HOUR))
      && (m.start >= now && 0 < m.duration <= 6 * HOUR ==>
            SlotAnswer(answer, Taken(d, key, e.owner, m.start, m.end),
              Crowded(d, e.owner, key, Some(id), m.start, m.end), m))
      && (answer.Saved? ==> answer == Saved(m))
  {
    var e := Listed(d, key)[i];
    var m := MovedAs(e, newStart, newLength);
    UpdateDecides(d, now, key, id, newStart, newLength, i);
    MoveDecides(Prune(d, now), now, key, id, e, m.start, m.duration);
    if m.start >= now && 0 < m.duration <= 6 * HOUR {
      MoveAnswer(d, now, key, id, e, m.start, m.duration);
    }
  }

  /** An accepted update puts the moved entry in the place of the old one, and changes nothing else. */
  lemma UpdateEffect(d: Data, now: Time, key: Key, id: string, newStart: Option<Time>, newLength: Option<int>, i: nat)
    requires IsFirst(Listed(d, key), i, ScheduledAs(now, id))
    requires Step(d, now, Update(key, id, newStart, newLength)).1.Saved?
    ensures var (d', answer) := Step(d, now, Update(key, id, newStart, newLength));
      Exchanges(d, d', now, key, Some(Listed(d, key)[i]), Some(answer.entry))
  {
    var e := Listed(d, key)[i];
    var m := MovedAs(e, newStart, newLength);
    UpdateDecides(d, now, key, id, newStart, newLength, i);
    MoveDecides(Prune(d, now), now, key, id, e, m.start, m.duration);
    MovedExchanges(d, now, key, id, e, m.start, m.duration, i);
  }

  lemma MovedExchanges(d: Data, now: Time, key: Key, id: string, e: Entry, start: Time, length: int, i: nat)
    requires IsFirst(Listed(d, key), i, ScheduledAs(now, id)) && e == Listed(d, key)[i]
    requires DecideMove(Prune(d, now), now, key, id, e, start, length).saved.Some?
    ensures Exchanges(d, DecideMove(Prune(d, now), now, key, id, e, start, length).saved.value, now, key, Some(e),
              Some(Entry(e.id, e.owner, start, start + length, length, e.extended)))
  {
    FirstInPruned(d, now, key, FutureWithId(now, id), ScheduledAs(now, id));
    IsFirstIff(Listed(d, key), ScheduledAs(now, id));
    ReplacementExchanges(d, now, key, FutureWithId(now, id), Moved(e, start, length));
  }

  // ----- extend, cancel, release -----

  function Running(now: Time): Entry -> bool {
    (e: Entry) => e.start <= now && now <= e.end
  }

  lemma NothingToExtend(d: Data, now: Time, key: Key, additional: int)
    ensures var (d', answer) := Step(d, now, Extend(key, additional));
      && (answer == Refused(BadExtension) <==> additional <= 0)
      && (answer == Refused(NoActiveReservation) <==>
            additional > 0 && forall e :: e in Listed(d, key) ==> !Running(now)(e))
      && (!answer.Saved? ==> d' == d)
  {
    FirstInPruned(d, now, key, ActiveAt(now), Running(now));
    FirstSome(Listed(d, key), Running(now));
  }

  /** An extension of the first active entry: accepted in its last hour and up to seven hours in all,
      and then the end and the duration grow and nothing else changes. */
  lemma ExtendEffect(d: Data, now: Time, key: Key, additional: int, i: nat)
    requires additional > 0 && IsFirst(Listed(d, key), i, Running(now))
    ensures var (d', answer) := Step(d, now, Extend(key, additional));
      var e := Listed(d, key)[i];
      var longer := Entry(e.id, e.owner, e.start, e.end + additional, e.duration + additional, true);
      && (answer == Refused(OutsideExtensionWindow) <==> e.end - now > HOUR)
      && (answer == Refused(TotalDurationReached) <==> e.end - now <= HOUR && e.duration >= 7 * HOUR)
      && (answer == Refused(ExtensionTooLong) <==>
            e.end - now <= HOUR && e.duration < 7 * HOUR && e.duration + additional > 7 * HOUR)
      && (answer == Saved(longer) <==> e.end - now <= HOUR && e.duration + additional <= 7 * HOUR)
      && (answer.Saved? ==> answer == Saved(longer) && Exchanges(d, d', now, key, Some(e), Some(longer)))
  {
    FirstInPruned(d, now, key, ActiveAt(now), Running(now));
    IsFirstIff(Listed(d, key), Running(now));
    ReplacementExchanges(d, now, key, ActiveAt(now), Lengthened(Listed(d, key)[i], additional));
  }

  /** A cancellation takes the first future entry with the id out of the calendar, and answers it. */
  lemma CancelEffect(d: Data, now: Time, key: Key, id: string, i: nat)
    requires IsFirst(Listed(d, key), i, ScheduledAs(now, id))
    ensures var (d', answer) := Step(d, now, Cancel(key, id));
      answer == Found(Some(Listed(d, key)[i])) && Exchanges(d, d', now, key, Some(Listed(d, key)[i]), None)
  {
    FirstInPruned(d, now, key, FutureWithId(now, id), ScheduledAs(now, id));
    IsFirstIff(Listed(d, key), ScheduledAs(now, id));
    ReplacementExchanges(d, now, key, FutureWithId(now, id), Listed(d, key)[i]);
  }

  lemma NothingToCancel(d: Data, now: Time, key: Key, id: string)
    requires forall e :: e in Listed(d, key) ==> !ScheduledAs(now, id)(e)
    ensures var (d', answer) := Step(d, now, Cancel(key, id));
      answer == Found(None) && OnlyPrunes(d, d', now)
  {
    FirstInPruned(d, now, key, FutureWithId(now, id), ScheduledAs(now, id));
    FirstSome(Listed(d, key), ScheduledAs(now, id));
    SavedOrNot(d, now, Cancel(key, id));
  }

  /** A release takes the first active entry out of the calendar, and answers it. */
  lemma ReleaseEffect(d: Data, now: Time, key: Key, i: nat)
    requires IsFirst(Listed(d, key), i, Running(now))
    ensures var (d', answer) := Step(d, now, Release(key));
      answer == Found(Some(Listed(d, key)[i])) && Exchanges(d, d', now, key, Some(Listed(d, key)[i]), None)
  {
    FirstInPruned(d, now, key, ActiveAt(now), Running(now));
    IsFirstIff(Listed(d, key), Running(now));
    ReplacementExchanges(d, now, key, ActiveAt(now), Listed(d, key)[i]);
  }

  lemma NothingToRelease(d: Data, now: Time, key: Key)
    requires forall e :: e in Listed(d, key) ==> !Running(now)(e)
    ensures Step(d, now, Release(key)) == (d, Found(None))
  {
    FirstInPruned(d, now, key, ActiveAt(now), Running(now));
    FirstSome(Listed(d, key), Running(now));
  }

  // ----- the views -----

  /** Get answers the active entry that started last, the first of several, and nothing without one. */
  lemma GetAnswer(d: Data, now: Time, key: Key)
    ensures var (d', answer) := Step(d, now, Get(key));
      && answer.Found? && OnlyPrunes(d, d', now)
      && (answer.result.None? <==> forall e :: e in Listed(d, key) ==> !Running(now)(e))
      && (answer.result.Some? ==>
            exists i: nat :: LatestAt(Listed(d, key), now, i) && answer.result.value == Listed(d, key)[i])
  {
    SavedOrNot(d, now, Get(key));
    LatestActiveOfLive(Listed(d, key), now);
    LatestActiveOfLive(Entries(Prune(d, now), key), now);
    LiveTwice(Listed(d, key), now);
    LatestActiveAt(Listed(d, key), now);
  }

  lemma LiveTwice(es: seq<Entry>, now: Time)
    ensures Live(Live(es, now), now) == Live(es, now)
  {
    FilterMembers(es, LiveAt(now));
    FilterAll(Live(es, now), LiveAt(now));
  }

  ghost predicate LatestAt(es: seq<Entry>, now: Time, i: nat) {
    && i < |es| && Running(now)(es[i])
    && (forall j :: 0 <= j < |es| && Running(now)(es[j]) ==> es[j].start <= es[i].start)
    && (forall j :: 0 <= j < i && Running(now)(es[j]) ==> es[j].start < es[i].start)
  }

  lemma {:induction false} LatestActiveAt(es: seq<Entry>, now: Time)
    ensures LatestActive(es, now).None? <==> forall e :: e in es ==> !Running(now)(e)
    ensures LatestActive(es, now).Some? ==>
      exists i: nat :: LatestAt(es, now, i) && LatestActive(es, now).value == es[i]
  {
    if es != [] {
      var n := |es| - 1;
      var init, last := es[..n], es[n];
      assert es == init + [last];
      LatestActiveAt(init, now);
      if LatestActive(init, now).Some? {
        var i: nat :| LatestAt(init, now, i) && LatestActive(init, now).value == init[i];
        LatestOfLonger(init, last, now, i);
      } else if Running(now)(last) {
        assert forall j :: 0 <= j < n ==> es[j] in init;
        assert LatestAt(es, now, n);
      }
    }
  }

  lemma LatestOfLonger(init: seq<Entry>, last: Entry, now: Time, i: nat)
    requires LatestAt(init, now, i)
    ensures LatestAt(init + [last], now, if Running(now)(last) && last.start > init[i].start then |init| else i)
  {
  }

  /** The scheduled entries of a lab, in order of start, entries with one start in their old order. */
  ghost predicate ListsUpcoming(d: Data, now: Time, key: Key, listed: seq<Entry>) {
    && (forall i, j :: 0 <= i < j < |listed| ==> listed[i].start <= listed[j].start)
    && (forall e :: multiset(listed)[e] == if e.start > now then HeldLive(d, now, key, e) else 0)
    && (forall t :: Filter(listed, StartsAt(t)) == Filter(Filter(Listed(d, key), Awaited(now)), StartsAt(t)))
  }

  function StartsAt(t: Time): Entry -> bool {
    (e: Entry) => e.start == t
  }

  function Awaited(now: Time): Entry -> bool {
    (e: Entry) => e.start > now && e.end >= now
  }

  lemma UpcomingIsListed(d: Data, now: Time, key: Key)
    ensures ListsUpcoming(d, now, key, Upcoming(Entries(Prune(d, now), key), now))
  {
    var es := Listed(d, key);
    var live := Live(es, now);
    var waiting := Filter(live, FutureAt(now));
    SortSorted(waiting, StartOf());
    assert forall i, j :: 0 <= i < j < |SortBy(waiting, StartOf())| ==>
      StartOf()(SortBy(waiting, StartOf())[i]) <= StartOf()(SortBy(waiting, StartOf())[j]);
    forall e ensures multiset(SortBy(waiting, StartOf()))[e] == if e.start > now then HeldLive(d, now, key, e) else 0 {
      SortCount(waiting, e);
      FilterCount(live, FutureAt(now), e);
      FilterCount(es, LiveAt(now), e);
    }
    FilterBoth(es, LiveAt(now), FutureAt(now), Awaited(now));
    forall t ensures Filter(SortBy(waiting, StartOf()), StartsAt(t)) == Filter(waiting, StartsAt(t)) {
      SortIsStable(waiting, StartOf(), StartsAt(t), t);
    }
  }

  lemma ListAnswer(d: Data, now: Time, key: Key)
    ensures var (d', answer) := Step(d, now, ListScheduled(key));
      answer.Scheduled? && OnlyPrunes(d, d', now) && ListsUpcoming(d, now, key, answer.entries)
  {
    SavedOrNot(d, now, ListScheduled(key));
    UpcomingIsListed(d, now, key);
  }

  /** Attach shows the active entry met last, and the scheduled ones. */
  lemma AttachAnswer(d: Data, now: Time, key: Key)
    ensures var (d', answer) := Step(d, now, Attach(key));
      && answer.Attached? && OnlyPrunes(d, d', now) && ListsUpcoming(d, now, key, answer.upcoming)
      && (answer.current.None? <==> forall e :: e in Listed(d, key) ==> !Running(now)(e))
      && (answer.current.Some? ==>
            exists i: nat :: LastAt(Listed(d, key), now, i) && answer.current.value == Listed(d, key)[i])
  {
    SavedOrNot(d, now, Attach(key));
    UpcomingIsListed(d, now, key);
    LastActiveOfLive(Listed(d, key), now);
    LastActiveOfLive(Entries(Prune(d, now), key), now);
    LiveTwice(Listed(d, key), now);
    LastActiveAt(Listed(d, key), now);
  }

  ghost predicate LastAt(es: seq<Entry>, now: Time, i: nat) {
    i < |es| && Running(now)(es[i]) && forall j :: i < j < |es| ==> !Running(now)(es[j])
  }

  lemma {:induction false} LastActiveAt(es: seq<Entry>, now: Time)
    ensures LastActive(es, now).None? <==> forall e :: e in es ==> !Running(now)(e)
    ensures LastActive(es, now).Some? ==> exists i: nat :: LastAt(es, now, i) && LastActive(es, now).value == es[i]
  {
    if es != [] {
      var n := |es| - 1;
      assert es == es[..n] + [es[n]];
      LastActiveAt(es[..n], now);
      if Running(now)(es[n]) {
        assert LastAt(es, now, n);
      } else if LastActive(es[..n], now).Some? {
        var i: nat :| LastAt(es[..n], now, i) && LastActive(es[..n], now).value == es[..n][i];
        assert LastAt(es, now, i);
      }
    }
  }

  /** The number answered is that of the labs on which the user has an active entry. */
  lemma CountAnswer(d: Data, now: Time, user: string)
    ensures var labs := set k | k in d && exists e :: e in d[k] && e.owner == user && e.start <= now <= e.end;
      Step(d, now, CountActive(user)) == (d, Number(|labs|))
  {
    var labs := set k | k in d && exists e :: e in d[k] && e.owner == user && e.start <= now <= e.end;
    forall k ensures k in labs <==> k in ActiveLabs(d, user, now) {
      if k in d {
        FirstSome(d[k], OwnActive(user, now));
      }
    }
    assert labs == ActiveLabs(d, user, now);
  }
}
