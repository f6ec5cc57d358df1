/** What the missing check of `extend` leads to: after two bookings back to back on an empty calendar,
    the extension of the first one runs into the second. */
module ReservationOverruns {
  import opened Sequences
  import opened Reservations
  import opened ReservationSafety

  lemma BookedIntoEmptyList(booked: Entry)
    ensures WithBooked([], booked) == [booked]
  {
    var none: seq<Entry> := [];
    SortSnoc(none, booked, StartOf());
    assert none + [booked] == [booked];
  }

  lemma BookedBehind(e: Entry, booked: Entry)
    requires e.owner != booked.owner && e.start <= booked.start
    ensures WithBooked([e], booked) == [e, booked]
  {
    var none: seq<Entry> := [];
    FilterCons(e, none, NotReplaced(booked.owner, booked.start, booked.end));
    SortSnoc(none, e, StartOf());
    SortSnoc([e], booked, StartOf());
    assert none + [e] == [e] && [e] + none == [e];
  }

  lemma OneLabLoad(q: Query, d: Data, key: Key, t: Time)
    requires d.Keys == {key}
    ensures Load(q, d, t) == ListLoad(q, key, d[key], t)
  {
    LabsLoadTake(q, d, {key}, key, t);
    assert {key} - {key} == {};
  }

  /** An entry as a booking makes it. */
  predicate Bookable(e: Entry) {
    !e.extended && 0 < e.duration <= MAX_DURATION && e.end == e.start + e.duration
  }

  /** Two bookings of different owners, one right behind the other. */
  predicate BackToBack(mine: Entry, next: Entry) {
    Bookable(mine) && Bookable(next) && mine.id != next.id && mine.owner != next.owner && mine.end == next.start
  }

  lemma FirstDecision(key: Key, mine: Entry)
    requires Bookable(mine)
    ensures DecideBooking(map[], key, mine).saved == Some(map[key := [mine]])
  {
    BookedIntoEmptyList(mine);
  }

  lemma SecondDecision(key: Key, mine: Entry, next: Entry)
    requires BackToBack(mine, next)
    ensures DecideBooking(map[key := [mine]], key, next).saved == Some(map[key := [mine, next]])
  {
    var d: Data := map[key := [mine]];
    var q := Query(next.owner, SkipLab(key));
    BookedBehind(mine, next);
    assert Entries(d, key) == [mine] && !ForeignIn(next.owner, next.start, next.end)(mine);
    FirstSome([mine], ForeignIn(next.owner, next.start, next.end));
    assert !Full(q, d, next.start, next.end) by {
      forall t ensures Load(q, d, t) == 0 {
        OneLabLoad(q, d, key, t);
        assert [mine][..0] == [] && !Counted(q, key, mine);
      }
    }
    assert d[key := [mine, next]] == map[key := [mine, next]];
  }

  lemma ExtensionRunsIntoNext(key: Key, mine: Entry, next: Entry, now: Time, additional: int)
    requires BackToBack(mine, next) && ActiveAt(now)(mine) && additional > 0
    requires ExtensionRefusal(mine, now, additional).None?
    ensures var decision := DecideExtend(map[key := [mine, next]], now, key, additional);
      decision.saved.Some? && !Rules(decision.saved.value)
  {
    var longer := Lengthened(mine, additional);
    assert First([mine, next], ActiveAt(now)) == Some(mine);
    var d := DecideExtend(map[key := [mine, next]], now, key, additional).saved.value;
    assert d[key] == [longer, next];
    assert longer in d[key] && next in d[key];
    assert Overlap(longer.start, longer.end, next.start, next.end);
  }

  lemma NothingToPrune(key: Key, es: seq<Entry>, now: Time)
    requires es != [] && forall e :: e in es ==> e.end >= now
    ensures Prune(map[key := es], now) == map[key := es]
  {
    FilterAll(es, LiveAt(now));
  }

  function Booking(key: Key, e: Entry, now: Time): Call {
    Call(now, Reserve(key, e.owner, e.duration, Some(e.start), e.id))
  }

  /** A booking in advance under a fresh id, without expired entries, as a whole call. */
  lemma BookingStep(d: Data, key: Key, now: Time, booked: Entry)
    requires Prune(d, now) == d && DecideBooking(d, key, booked).saved.Some?
    requires Bookable(booked) && booked.start >= now && IdCount(Entries(d, key), booked.id) == 0
    ensures var call := Booking(key, booked, now);
      && Step(d, now, call.op).0 == DecideBooking(d, key, booked).saved.value
      && Admissible(Prune(d, now), now, call.op)
  {
    assert Booked(booked.owner, booked.start, booked.duration, booked.id) == booked;
  }

  lemma RunOfTwo(d: Data, a: Call, b: Call)
    ensures Run(d, [a, b]) == Step(Step(d, a.now, a.op).0, b.now, b.op).0
    ensures RunAdmissible(d, [a, b]) <==>
      Admissible(Prune(d, a.now), a.now, a.op) &&
      Admissible(Prune(Step(d, a.now, a.op).0, b.now), b.now, b.op)
  {
    var d1 := Step(d, a.now, a.op).0;
    assert [a, b][1..] == [b] && [b][1..] == [];
    assert Run(d1, [b]) == Step(d1, b.now, b.op).0;
    assert RunAdmissible(d1, [b]) <==> Admissible(Prune(d1, b.now), b.now, b.op);
  }

  lemma {:induction false} RunSnoc(d: Data, calls: seq<Call>, last: Call)
    ensures Run(d, calls + [last]) == Step(Run(d, calls), last.now, last.op).0
    decreases |calls|
  {
    if calls == [] {
      assert (calls + [last])[1..] == [];
    } else {
      assert (calls + [last])[1..] == calls[1..] + [last];
      RunSnoc(Step(d, calls[0].now, calls[0].op).0, calls[1..], last);
    }
  }

  lemma TwoBookings(key: Key, mine: Entry, next: Entry, start: Time)
    requires BackToBack(mine, next) && start <= mine.start
    ensures var a, b := Booking(key, mine, start), Booking(key, next, start);
      Run(map[], [a, b]) == map[key := [mine, next]] && RunAdmissible(map[], [a, b])
  {
    var a, b := Booking(key, mine, start), Booking(key, next, start);
    var d1: Data := map[key := [mine]];
    FirstDecision(key, mine);
    BookingStep(map[], key, start, mine);
    NothingToPrune(key, [mine], start);
    SecondDecision(key, mine, next);
    assert IdCount([mine], next.id) == 0 by {
      assert [mine][..0] == [];
    }
    BookingStep(d1, key, start, next);
    RunOfTwo(map[], a, b);
  }

  lemma ExtendStep(key: Key, mine: Entry, next: Entry, now: Time, additional: int)
    requires BackToBack(mine, next) && ActiveAt(now)(mine) && additional > 0
    requires ExtensionRefusal(mine, now, additional).None?
    ensures !Rules(Step(map[key := [mine, next]], now, Extend(key, additional)).0)
  {
    NothingToPrune(key, [mine, next], now);
    ExtensionRunsIntoNext(key, mine, next, now, additional);
  }

  /** The missing check matters: after any two bookings back to back, admissible and safe, every
      extension of the first that is accepted runs into the second. */
  lemma ExtensionBreaksTheRules(key: Key, mine: Entry, next: Entry, start: Time, now: Time, additional: int)
    requires BackToBack(mine, next) && start <= mine.start && ActiveAt(now)(mine) && additional > 0
    requires ExtensionRefusal(mine, now, additional).None?
    ensures var a, b := Booking(key, mine, start), Booking(key, next, start);
      && RunAdmissible(map[], [a, b]) && Safe(Run(map[], [a, b]))
      && !Rules(Run(map[], [a, b, Call(now, Extend(key, additional))]))
  {
    var a, b := Booking(key, mine, start), Booking(key, next, start);
    TwoBookings(key, mine, next, start);
    RunSnoc(map[], [a, b], Call(now, Extend(key, additional)));
    assert [a, b] + [Call(now, Extend(key, additional))] == [a, b, Call(now, Extend(key, additional))];
    RunFromEmptyIsSafe([a, b]);
    ExtendStep(key, mine, next, now, additional);
  }

  /** There is such a run. */
  lemma ExtendCanBreakTheRules()
    ensures exists a, b, now, key, additional ::
      && RunAdmissible(map[], [a, b]) && Safe(Run(map[], [a, b]))
      && !Rules(Run(map[], [a, b, Call(now, Extend(key, additional))]))
  {
    var mine := Entry("r1", "ann", 0, 6 * HOUR, 6 * HOUR, false);
    var next := Entry("r2", "bob", 6 * HOUR, 7 * HOUR, HOUR, false);
    ExtensionBreaksTheRules(EXAMPLE_LAB, mine, next, 0, 5 * HOUR, HOUR);
  }
}
