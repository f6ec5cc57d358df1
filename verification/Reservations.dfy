/** The reservation calendar as a state machine on values. `Decide` is what each operation
    answers and which calendar it saves when it works on the calendar it is given; `Step` adds
    the lazy pruning every operation does first. Time is a count of microseconds, slots are
    half-open, owners are compared after lower-casing and are kept lower-cased here. */
module Reservations {
  import opened Sequences

  const HOUR: int := 3_600_000_000
  const MAX_DURATION: int := 6 * HOUR
  const MAX_TOTAL_DURATION: int := 7 * HOUR
  const EXTENSION_WINDOW: int := HOUR
  const MAX_SIMULTANEOUS: nat := 2

  type Key = string
  type Time = int

  datatype Entry = Entry(id: string, owner: string, start: Time, end: Time, duration: int, extended: bool)

  /** Lab key to its entries; a lab without entries has no key. */
  type Data = map<Key, seq<Entry>>

  datatype Refusal =
    | BadDuration
    | StartInThePast
    | HeldBy(holder: string)
    | TooManyAtOnce
    | BadExtension
    | NoActiveReservation
    | OutsideExtensionWindow
    | TotalDurationReached
    | ExtensionTooLong

  datatype Op =
    | Reserve(key: Key, owner: string, length: int, at: Option<Time>, freshId: string)
    | Update(key: Key, id: string, newStart: Option<Time>, newLength: Option<int>)
    | Extend(key: Key, additional: int)
    | Cancel(key: Key, id: string)
    | Release(key: Key)
    | Get(key: Key)
    | ListScheduled(key: Key)
    | Attach(key: Key)
    | CountActive(user: string)

  datatype Answer =
    | Refused(reason: Refusal)
    | Saved(entry: Entry)
    | Found(result: Option<Entry>)
    | Scheduled(entries: seq<Entry>)
    | Attached(current: Option<Entry>, upcoming: seq<Entry>)
    | Number(n: nat)

  function KeyOf(vmId: string, labName: string): Key {
    vmId + "::" + labName
  }

  /** A lab for inputs on which a statement fails. */
  const EXAMPLE_LAB: Key := "vm::lab"

  // ----- the entry predicates of the source -----

  predicate Overlap(startA: Time, endA: Time, startB: Time, endB: Time) {
    startA < endB && startB < endA
  }

  function StartOf(): Entry -> int { (e: Entry) => e.start }

  /** Kept by pruning at `now`. */
  function LiveAt(now: Time): Entry -> bool { (e: Entry) => e.end >= now }

  /** Active: closed at both ends. */
  function ActiveAt(now: Time): Entry -> bool { (e: Entry) => e.start <= now <= e.end }

  function FutureAt(now: Time): Entry -> bool { (e: Entry) => e.start > now }

  function FutureWithId(now: Time, id: string): Entry -> bool { (e: Entry) => e.id == id && e.start > now }

  /** Held by someone else on an overlapping slot. */
  function ForeignIn(owner: string, start: Time, end: Time): Entry -> bool {
    (e: Entry) => Overlap(start, end, e.start, e.end) && e.owner != owner
  }

  /** Not an own entry that the new slot replaces. */
  function NotReplaced(owner: string, start: Time, end: Time): Entry -> bool {
    (e: Entry) => !(e.owner == owner && Overlap(start, end, e.start, e.end))
  }

  function OwnActive(user: string, now: Time): Entry -> bool {
    (e: Entry) => e.owner == user && e.start <= now <= e.end
  }

  // ----- the store -----

  function Entries(d: Data, key: Key): seq<Entry> {
    if key in d then d[key] else []
  }

  function Put(d: Data, key: Key, es: seq<Entry>): Data {
    if es == [] then d - {key} else d[key := es]
  }

  function Live(es: seq<Entry>, now: Time): seq<Entry> {
    Filter(es, LiveAt(now))
  }

  function Prune(d: Data, now: Time): Data {
    map k | k in d && Live(d[k], now) != [] :: Live(d[k], now)
  }

  predicate SomethingExpired(d: Data, now: Time) {
    exists k :: k in d && |Live(d[k], now)| != |d[k]|
  }

  // ----- who is counted in the simultaneity rule -----

  datatype Skip = SkipNothing | SkipLab(key: Key) | SkipEntry(key: Key, id: string)

  datatype Query = Query(owner: string, skip: Skip)

  predicate Counted(q: Query, k: Key, e: Entry) {
    && e.owner == q.owner
    && match q.skip
       case SkipNothing => true
       case SkipLab(key) => k != key
       case SkipEntry(key, id) => !(k == key && e.id == id)
  }

  /** Counted entries of one list that cover the instant `t`. */
  ghost function ListLoad(q: Query, k: Key, es: seq<Entry>, t: Time): nat {
    if es == [] then 0
    else
      var e := es[|es| - 1];
      ListLoad(q, k, es[..|es| - 1], t) + if Counted(q, k, e) && e.start <= t < e.end then 1 else 0
  }

  /** Counted entries of the given labs that cover the instant `t`. */
  ghost function LabsLoad(q: Query, d: Data, labs: set<Key>, t: Time): nat {
    if labs == {} then 0
    else
      var k :| k in labs;
      ListLoad(q, k, Entries(d, k), t) + LabsLoad(q, d, labs - {k}, t)
  }

  ghost function Load(q: Query, d: Data, t: Time): nat {
    LabsLoad(q, d, d.Keys, t)
  }

  /** Some instant of the slot already carries as many counted entries as one owner may hold. */
  ghost predicate Full(q: Query, d: Data, start: Time, end: Time) {
    exists t :: start <= t < end && Load(q, d, t) + 1 > MAX_SIMULTANEOUS
  }

  // ----- the read views -----

  /** The active entry with the latest start; the first of several with that start. */
  function LatestActive(es: seq<Entry>, now: Time): Option<Entry> {
    if es == [] then None
    else
      var before := LatestActive(es[..|es| - 1], now);
      var e := es[|es| - 1];
      if ActiveAt(now)(e) && (before.None? || e.start > before.value.start) then Some(e) else before
  }

  /** The active entry met last. */
  function LastActive(es: seq<Entry>, now: Time): Option<Entry> {
    if es == [] then None
    else if ActiveAt(now)(es[|es| - 1]) then Some(es[|es| - 1])
    else LastActive(es[..|es| - 1], now)
  }

  function Upcoming(es: seq<Entry>, now: Time): seq<Entry> {
    SortBy(Filter(es, FutureAt(now)), StartOf())
  }

  ghost function ActiveLabs(d: Data, user: string, now: Time): set<Key> {
    set k | k in d && First(d[k], OwnActive(user, now)).Some?
  }

  // ----- the operations on the calendar they are given -----

  /** An answer, and the calendar to save if the operation saves one. */
  datatype Decision = Decision(answer: Answer, saved: Option<Data>)

  function Booked(owner: string, start: Time, length: int, id: string): Entry {
    Entry(id, owner, start, start + length, length, false)
  }

  /** A lab's list after a booking: own overlapped entries go, the new one is sorted in. */
  function WithBooked(es: seq<Entry>, booked: Entry): seq<Entry> {
    SortBy(Filter(es, NotReplaced(booked.owner, booked.start, booked.end)) + [booked], StartOf())
  }

  /** A lab's list after an update of its future entry with that id. */
  function WithMoved(es: seq<Entry>, now: Time, id: string, moved: Entry): seq<Entry> {
    SortBy(ReplaceFirst(es, FutureWithId(now, id), moved), StartOf())
  }

  /** The second half of a reservation: the checks on the slot and the booking. */
  ghost function DecideBooking(d: Data, key: Key, booked: Entry): Decision {
    var es := Entries(d, key);
    var foreign := First(es, ForeignIn(booked.owner, booked.start, booked.end));
    if foreign.Some? then Decision(Refused(HeldBy(foreign.value.owner)), None)
    else if Full(Query(booked.owner, SkipLab(key)), d, booked.start, booked.end)
      then Decision(Refused(TooManyAtOnce), None)
    else Decision(Saved(booked), Some(Put(d, key, WithBooked(es, booked))))
  }

  ghost function DecideReserve(d: Data, now: Time, key: Key, owner: string, length: int, at: Option<Time>,
                               id: string): Decision {
    if length <= 0 || length > MAX_DURATION then Decision(Refused(BadDuration), None)
    else DecideBooking(d, key, Booked(owner, if at.Some? && at.value >= now then at.value else now, length, id))
  }

  function Moved(e: Entry, start: Time, length: int): Entry {
    e.(start := start, end := start + length, duration := length)
  }

  /** The second half of an update: the entry `e` is to occupy another slot. */
  ghost function DecideMove(d: Data, now: Time, key: Key, id: string, e: Entry, start: Time, length: int): Decision {
    if start < now then Decision(Refused(StartInThePast), None)
    else if length <= 0 || length > MAX_DURATION then Decision(Refused(BadDuration), None)
    else
      var es := Entries(d, key);
      var foreign := First(es, ForeignIn(e.owner, start, start + length));
      if foreign.Some? then Decision(Refused(HeldBy(foreign.value.owner)), None)
      else if Full(Query(e.owner, SkipEntry(key, id)), d, start, start + length)
        then Decision(Refused(TooManyAtOnce), None)
      else
        var moved := Moved(e, start, length);
        Decision(Saved(moved), Some(Put(d, key, WithMoved(es, now, id, moved))))
  }

  ghost function DecideUpdate(d: Data, now: Time, key: Key, id: string, newStart: Option<Time>,
                              newLength: Option<int>): Decision {
    var target := First(Entries(d, key), FutureWithId(now, id));
    if target.None? then Decision(Found(None), None)
    else
      var e := target.value;
      DecideMove(d, now, key, id, e,
                 if newStart.Some? then newStart.value else e.start,
                 if newLength.Some? then newLength.value else e.duration)
  }

  function Lengthened(e: Entry, additional: int): Entry {
    e.(end := e.end + additional, duration := e.duration + additional, extended := true)
  }

  /** Why an active entry may not be extended, if it may not. */
  function ExtensionRefusal(e: Entry, now: Time, additional: int): Option<Refusal> {
    if now < e.end - EXTENSION_WINDOW then Some(OutsideExtensionWindow)
    else if MAX_TOTAL_DURATION - e.duration <= 0 then Some(TotalDurationReached)
    else if additional > MAX_TOTAL_DURATION - e.duration then Some(ExtensionTooLong)
    else None
  }

  function DecideExtend(d: Data, now: Time, key: Key, additional: int): Decision {
    if additional <= 0 then Decision(Refused(BadExtension), None)
    else
      var es := Entries(d, key);
      var active := First(es, ActiveAt(now));
      if active.None? then Decision(Refused(NoActiveReservation), None)
      else
        var refusal := ExtensionRefusal(active.value, now, additional);
        if refusal.Some? then Decision(Refused(refusal.value), None)
        else
          var longer := Lengthened(active.value, additional);
          Decision(Saved(longer), Some(Put(d, key, ReplaceFirst(es, ActiveAt(now), longer))))
  }

  /** Removal of the first entry satisfying `p`: the common part of cancel and release. */
  function DecideRemoval(d: Data, key: Key, p: Entry -> bool): Decision {
    var es := Entries(d, key);
    var found := First(es, p);
    Decision(Found(found), if found.None? then None else Some(Put(d, key, RemoveFirst(es, p))))
  }

  ghost function Decide(d: Data, now: Time, op: Op): Decision {
    match op
    case Reserve(key, owner, length, at, id) => DecideReserve(d, now, key, owner, length, at, id)
    case Update(key, id, newStart, newLength) => DecideUpdate(d, now, key, id, newStart, newLength)
    case Extend(key, additional) => DecideExtend(d, now, key, additional)
    case Cancel(key, id) => DecideRemoval(d, key, FutureWithId(now, id))
    case Release(key) => DecideRemoval(d, key, ActiveAt(now))
    case Get(key) => Decision(Found(LatestActive(Entries(d, key), now)), None)
    case ListScheduled(key) => Decision(Scheduled(Upcoming(Entries(d, key), now)), None)
    case Attach(key) =>
      Decision(Attached(LastActive(Entries(d, key), now), Upcoming(Entries(d, key), now)), None)
    case CountActive(user) => Decision(Number(|ActiveLabs(d, user, now)|), None)
  }

  /** Whether an operation that saves nothing else still saves the pruning it did. */
  predicate SavesPruning(op: Op) {
    op.Cancel? || op.Get? || op.ListScheduled? || op.Attach?
  }

  // ----- one step of the store, with and without pruning -----

  /** One call: prune a working copy, decide on it, save what has to be saved. */
  ghost function Step(d: Data, now: Time, op: Op): (Data, Answer) {
    if op.CountActive? then (d, Decide(d, now, op).answer)
    else
      var decision := Decide(Prune(d, now), now, op);
      var next :=
        if decision.saved.Some? then decision.saved.value
        else if SavesPruning(op) && SomethingExpired(d, now) then Prune(d, now)
        else d;
      (next, decision.answer)
  }

  /** The same call on a store that never prunes. */
  ghost function StepKeepingAll(d: Data, now: Time, op: Op): (Data, Answer) {
    var decision := Decide(d, now, op);
    (if decision.saved.Some? then decision.saved.value else d, decision.answer)
  }

  datatype Call = Call(now: Time, op: Op)

  ghost function Run(d: Data, calls: seq<Call>): Data
    decreases |calls|
  {
    if calls == [] then d else Run(Step(d, calls[0].now, calls[0].op).0, calls[1..])
  }

  ghost function Answers(d: Data, calls: seq<Call>): seq<Answer>
    decreases |calls|
  {
    if calls == [] then []
    else
      var (next, answer) := Step(d, calls[0].now, calls[0].op);
      [answer] + Answers(next, calls[1..])
  }

  ghost function AnswersKeepingAll(d: Data, calls: seq<Call>): seq<Answer>
    decreases |calls|
  {
    if calls == [] then []
    else
      var (next, answer) := StepKeepingAll(d, calls[0].now, calls[0].op);
      [answer] + AnswersKeepingAll(next, calls[1..])
  }

  ghost predicate ClockNeverGoesBack(calls: seq<Call>) {
    forall i, j :: 0 <= i < j < |calls| ==> calls[i].now <= calls[j].now
  }

  // ----- arithmetic of the load -----

  lemma {:induction false} ListLoadAppend(q: Query, k: Key, a: seq<Entry>, b: seq<Entry>, t: Time)
    ensures ListLoad(q, k, a + b, t) == ListLoad(q, k, a, t) + ListLoad(q, k, b, t)
  {
    if b == [] {
      assert a + b == a;
    } else {
      assert (a + b)[..|a + b| - 1] == a + b[..|b| - 1];
      ListLoadAppend(q, k, a, b[..|b| - 1], t);
    }
  }

  lemma {:induction false} ListLoadSort(q: Query, k: Key, es: seq<Entry>, t: Time)
    ensures ListLoad(q, k, SortBy(es, StartOf()), t) == ListLoad(q, k, es, t)
  {
    if es != [] {
      ListLoadSort(q, k, es[..|es| - 1], t);
      ListLoadInsert(q, k, SortBy(es[..|es| - 1], StartOf()), es[|es| - 1], t);
      assert es == es[..|es| - 1] + [es[|es| - 1]];
      ListLoadAppend(q, k, es[..|es| - 1], [es[|es| - 1]], t);
    }
  }

  lemma {:induction false} ListLoadInsert(q: Query, k: Key, es: seq<Entry>, e: Entry, t: Time)
    ensures ListLoad(q, k, InsertBy(es, e, StartOf()), t) == ListLoad(q, k, es, t) + ListLoad(q, k, [e], t)
  {
    if es == [] || StartOf()(es[|es| - 1]) <= StartOf()(e) {
      ListLoadAppend(q, k, es, [e], t);
    } else {
      var init, last := es[..|es| - 1], es[|es| - 1];
      ListLoadInsert(q, k, init, e, t);
      ListLoadAppend(q, k, InsertBy(init, e, StartOf()), [last], t);
      assert es == init + [last];
      ListLoadAppend(q, k, init, [last], t);
    }
  }

  /** Labs can be taken out of the sum in any order. */
  lemma {:induction false} LabsLoadTake(q: Query, d: Data, labs: set<Key>, k: Key, t: Time)
    requires k in labs
    ensures LabsLoad(q, d, labs, t) == ListLoad(q, k, Entries(d, k), t) + LabsLoad(q, d, labs - {k}, t)
    decreases labs
  {
    var c :| c in labs &&
             LabsLoad(q, d, labs, t) == ListLoad(q, c, Entries(d, c), t) + LabsLoad(q, d, labs - {c}, t);
    if c != k {
      LabsLoadTake(q, d, labs - {c}, k, t);
      LabsLoadTake(q, d, labs - {k}, c, t);
      assert labs - {c} - {k} == labs - {k} - {c};
    }
  }

  /** Two calendars with the same load on each of the labs have the same total. */
  lemma {:induction false} LabsLoadPointwise(q: Query, q': Query, d: Data, d': Data, labs: set<Key>, t: Time)
    requires forall k :: k in labs ==> ListLoad(q, k, Entries(d, k), t) == ListLoad(q', k, Entries(d', k), t)
    ensures LabsLoad(q, d, labs, t) == LabsLoad(q', d', labs, t)
    decreases labs
  {
    if labs != {} {
      var k :| k in labs;
      LabsLoadTake(q, d, labs, k, t);
      LabsLoadTake(q', d', labs, k, t);
      LabsLoadPointwise(q, q', d, d', labs - {k}, t);
    }
  }

  /** Labs without entries can be added to the sum. */
  lemma {:induction false} LoadOverMore(q: Query, d: Data, labs: set<Key>, t: Time)
    requires d.Keys <= labs
    ensures Load(q, d, t) == LabsLoad(q, d, labs, t)
    decreases |labs - d.Keys|
  {
    if labs == d.Keys {
    } else {
      assert !(labs <= d.Keys);
      var k :| k in labs && k !in d.Keys;
      LabsLoadTake(q, d, labs, k, t);
      assert Entries(d, k) == [];
      assert labs - {k} - d.Keys == labs - d.Keys - {k};
      LoadOverMore(q, d, labs - {k}, t);
    }
  }

  /** One lab split off from the total. */
  lemma LoadSplit(q: Query, d: Data, key: Key, t: Time)
    ensures Load(q, d, t) == ListLoad(q, key, Entries(d, key), t) + LabsLoad(q, d, d.Keys - {key}, t)
  {
    LoadOverMore(q, d, d.Keys + {key}, t);
    LabsLoadTake(q, d, d.Keys + {key}, key, t);
    assert d.Keys + {key} - {key} == d.Keys - {key};
  }

  /** Replacing one lab's entries changes the total by the change on that lab. */
  lemma LoadPut(q: Query, d: Data, key: Key, es: seq<Entry>, t: Time)
    ensures Load(q, Put(d, key, es), t) ==
            Load(q, d, t) - ListLoad(q, key, Entries(d, key), t) + ListLoad(q, key, es, t)
  {
    var d' := Put(d, key, es);
    LoadSplit(q, d, key, t);
    LoadSplit(q, d', key, t);
    assert d'.Keys - {key} == d.Keys - {key};
    LabsLoadPointwise(q, q, d, d', d.Keys - {key}, t);
    assert Entries(d', key) == es;
  }

  // ----- where the entries of a saved calendar come from -----

  ghost predicate EntriesAll(d: Data, p: Entry -> bool) {
    forall k, e :: k in d && e in d[k] ==> p(e)
  }

  lemma {:induction false} ChangedMembers(es: seq<Entry>, q: Entry -> bool, x: Entry)
    ensures forall e :: e in RemoveFirst(es, q) ==> e in es
    ensures forall e :: e in ReplaceFirst(es, q, x) ==> e in es || e == x
  {
    if es != [] {
      ChangedMembers(es[1..], q, x);
    }
  }

  lemma BookedEntries(d: Data, key: Key, booked: Entry, p: Entry -> bool)
    requires EntriesAll(d, p) && p(booked)
    ensures EntriesAll(Put(d, key, WithBooked(Entries(d, key), booked)), p)
  {
    var es := Entries(d, key);
    var kept := NotReplaced(booked.owner, booked.start, booked.end);
    forall x | x in WithBooked(es, booked) ensures p(x) {
      SortMember(Filter(es, kept) + [booked], StartOf());
      FilterMember(es, kept, x);
    }
  }

  lemma ReplacedEntries(d: Data, key: Key, q: Entry -> bool, x: Entry, p: Entry -> bool)
    requires EntriesAll(d, p) && p(x)
    ensures EntriesAll(Put(d, key, ReplaceFirst(Entries(d, key), q, x)), p)
    ensures EntriesAll(Put(d, key, SortBy(ReplaceFirst(Entries(d, key), q, x), StartOf())), p)
  {
    ChangedMembers(Entries(d, key), q, x);
    SortMember(ReplaceFirst(Entries(d, key), q, x), StartOf());
  }

  lemma RemainingEntries(d: Data, key: Key, q: Entry -> bool, x: Entry, p: Entry -> bool)
    requires EntriesAll(d, p)
    ensures EntriesAll(Put(d, key, RemoveFirst(Entries(d, key), q)), p)
  {
    ChangedMembers(Entries(d, key), q, x);
  }

  /** Only an entry that the call answers as saved is new in the calendar it saves. */
  lemma SavedEntries(d: Data, now: Time, op: Op, p: Entry -> bool)
    requires EntriesAll(d, p) && Decide(d, now, op).saved.Some?
    requires Decide(d, now, op).answer.Saved? ==> p(Decide(d, now, op).answer.entry)
    ensures EntriesAll(Decide(d, now, op).saved.value, p)
  {
    match op
    case Reserve(key, owner, length, at, id) => BookedEntries(d, key, Decide(d, now, op).answer.entry, p);
    case Update(key, id, newStart, newLength) =>
      ReplacedEntries(d, key, FutureWithId(now, id), Decide(d, now, op).answer.entry, p);
    case Extend(key, additional) => ReplacedEntries(d, key, ActiveAt(now), Decide(d, now, op).answer.entry, p);
    case Cancel(key, id) =>
      RemainingEntries(d, key, FutureWithId(now, id), First(Entries(d, key), FutureWithId(now, id)).value, p);
    case Release(key) => RemainingEntries(d, key, ActiveAt(now), First(Entries(d, key), ActiveAt(now)).value, p);
    case _ =>
  }

  lemma PrunedEntries(d: Data, now: Time, p: Entry -> bool)
    requires EntriesAll(d, p)
    ensures EntriesAll(Prune(d, now), p)
  {
    forall k, e | k in d && e in Live(d[k], now) ensures p(e) {
      FilterMember(d[k], LiveAt(now), e);
    }
  }
}
