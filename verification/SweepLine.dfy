/** The sweep that decides how many slots run at once: opening and closing events, sorted by
    (time, delta), with a running counter and its maximum. The claim is that the maximum the
    counter reaches is the maximum, over all instants, of the number of slots covering it. */
module SweepLine {
  import opened Sequences

  datatype Slot = Slot(start: int, end: int)

  /** `(time, +1)` opens a slot and `(time, -1)` closes one. */
  datatype Event = Event(time: int, opens: bool) {
    function Delta(): int { if opens then 1 else -1 }
  }

  /** Orders events as the tuples (time, delta): at one instant, closings come before openings. */
  function Rank(e: Event): int {
    2 * e.time + if e.opens then 1 else 0
  }

  lemma RankIsTupleOrder(a: Event, b: Event)
    ensures Rank(a) <= Rank(b) <==> a.time < b.time || (a.time == b.time && a.Delta() <= b.Delta())
  {
  }

  predicate Covers(s: Slot, t: int) {
    s.start <= t < s.end
  }

  /** How many of the slots cover the instant `t`. */
  ghost function Cover(slots: seq<Slot>, t: int): nat {
    if slots == [] then 0
    else Cover(slots[..|slots| - 1], t) + if Covers(slots[|slots| - 1], t) then 1 else 0
  }

  function EventsOf(slots: seq<Slot>): seq<Event> {
    if slots == [] then []
    else
      var s := slots[|slots| - 1];
      EventsOf(slots[..|slots| - 1]) + [Event(s.start, true)] + [Event(s.end, false)]
  }

  /** Sum of the deltas of all events. */
  ghost function Running(events: seq<Event>): int {
    if events == [] then 0 else Running(events[..|events| - 1]) + events[|events| - 1].Delta()
  }

  /** Sum of the deltas of the events not later than `t`. */
  ghost function Level(events: seq<Event>, t: int): int {
    if events == [] then 0
    else
      Level(events[..|events| - 1], t) +
      if events[|events| - 1].time <= t then events[|events| - 1].Delta() else 0
  }

  lemma {:induction false} LevelSnoc(events: seq<Event>, e: Event, t: int)
    ensures Level(events + [e], t) == Level(events, t) + if e.time <= t then e.Delta() else 0
  {
  }

  lemma {:induction false} LevelOfEvents(slots: seq<Slot>, t: int)
    requires forall s :: s in slots ==> s.start < s.end
    ensures Level(EventsOf(slots), t) == Cover(slots, t)
  {
    if slots != [] {
      var init, s := slots[..|slots| - 1], slots[|slots| - 1];
      LevelOfEvents(init, t);
      LevelSnoc(EventsOf(init), Event(s.start, true), t);
      LevelSnoc(EventsOf(init) + [Event(s.start, true)], Event(s.end, false), t);
    }
  }

  // ----- sorting does not change the level -----

  lemma {:induction false} LevelInsert(events: seq<Event>, e: Event, t: int)
    ensures Level(InsertBy(events, e, Rank), t) == Level(events, t) + if e.time <= t then e.Delta() else 0
  {
    if events == [] || Rank(events[|events| - 1]) <= Rank(e) {
      LevelSnoc(events, e, t);
    } else {
      var init, last := events[..|events| - 1], events[|events| - 1];
      LevelInsert(init, e, t);
      LevelSnoc(InsertBy(init, e, Rank), last, t);
    }
  }

  lemma {:induction false} LevelSort(events: seq<Event>, t: int)
    ensures Level(SortBy(events, Rank), t) == Level(events, t)
  {
    if events != [] {
      LevelSort(events[..|events| - 1], t);
      LevelInsert(SortBy(events[..|events| - 1], Rank), events[|events| - 1], t);
    }
  }

  // ----- in sorted order, the level at an instant is a value of the running counter -----

  lemma {:induction false} LevelOfPast(events: seq<Event>, t: int)
    requires forall i :: 0 <= i < |events| ==> events[i].time <= t
    ensures Level(events, t) == Running(events)
  {
    if events != [] {
      LevelOfPast(events[..|events| - 1], t);
    }
  }

  lemma {:induction false} LevelIsRunning(events: seq<Event>, t: int) returns (k: nat)
    requires SortedBy(events, Rank)
    ensures k <= |events| && Level(events, t) == Running(events[..k])
    ensures forall j :: 0 <= j < |events| ==> (j < k <==> events[j].time <= t)
  {
    if events == [] {
      k := 0;
    } else {
      var init, last := events[..|events| - 1], events[|events| - 1];
      if last.time <= t {
        k := |events|;
        assert events[..k] == events;
        forall i | 0 <= i < |events| ensures events[i].time <= t {
          assert i < |init| ==> Rank(events[i]) <= Rank(last);
        }
        LevelOfPast(events, t);
      } else {
        k := LevelIsRunning(init, t);
        assert init[..k] == events[..k];
        forall j | 0 <= j < |events| ensures j < k <==> events[j].time <= t {
          if j < |init| { assert init[j] == events[j]; }
        }
      }
    }
  }

  /** Right after an opening event the counter is not above the level of that instant. */
  lemma {:induction false} OpeningIsBelowLevel(events: seq<Event>, k: nat)
    requires SortedBy(events, Rank)
    requires 0 < k <= |events| && events[k - 1].opens
    ensures Running(events[..k]) <= Level(events, events[k - 1].time)
  {
    var t := events[k - 1].time;
    var m := LevelIsRunning(events, t);
    assert k <= m;
    var j := k;
    while j < m
      invariant k <= j <= m
      invariant Running(events[..k]) <= Running(events[..j])
    {
      assert Rank(events[k - 1]) <= Rank(events[j]);
      assert events[j].time <= t;
      assert events[j].opens;
      assert events[..j + 1][..j] == events[..j];
      j := j + 1;
    }
  }

  /** `peak` is the largest value the counter took over the first `n` events, first reached
      right after the opening event number `at`. */
  ghost predicate PeakSoFar(timeline: seq<Event>, n: nat, peak: nat, at: nat)
    requires n <= |timeline|
  {
    && (forall k {:trigger timeline[..k]} :: 0 <= k <= n ==> Running(timeline[..k]) <= peak)
    && (peak == 0 || (0 < at <= n && timeline[at - 1].opens && Running(timeline[..at]) == peak))
  }

  lemma PeakIsReached(events: seq<Event>, peak: nat, at: nat)
    requires PeakSoFar(SortBy(events, Rank), |SortBy(events, Rank)|, peak, at)
    ensures forall t :: Level(events, t) <= peak
    ensures peak == 0 || exists e :: e in events && e.opens && Level(events, e.time) == peak
  {
    var timeline := SortBy(events, Rank);
    SortSorted(events, Rank);
    forall t ensures Level(events, t) <= peak {
      LevelSort(events, t);
      var k := LevelIsRunning(timeline, t);
    }
    if peak != 0 {
      var e := timeline[at - 1];
      OpeningIsBelowLevel(timeline, at);
      LevelSort(events, e.time);
      SortMember(events, Rank);
      assert e in timeline;
    }
  }

  /** The sweep itself. Its result is the exact maximum of the level over all instants. */
  method Peak(events: seq<Event>) returns (peak: nat)
    ensures forall t :: Level(events, t) <= peak
    ensures peak == 0 || exists e :: e in events && e.opens && Level(events, e.time) == peak
  {
    var timeline := SortBy(events, Rank);
    var current := 0;
    peak := 0;
    ghost var at := 0;
    for i := 0 to |timeline|
      invariant current == Running(timeline[..i])
      invariant PeakSoFar(timeline, i, peak, at)
    {
      assert timeline[..i + 1][..i] == timeline[..i];
      current := current + timeline[i].Delta();
      if current > peak {
        peak := current;
        at := i + 1;
      }
    }
    PeakIsReached(events, peak, at);
  }

  /** Sweeping the events of non-empty slots yields the largest number of slots that cover one
      instant, and that instant is the start of a slot. */
  method PeakCover(slots: seq<Slot>) returns (peak: nat)
    requires forall s :: s in slots ==> s.start < s.end
    ensures forall t :: Cover(slots, t) <= peak
    ensures peak == 0 || exists s :: s in slots && Cover(slots, s.start) == peak
  {
    var events := EventsOf(slots);
    peak := Peak(events);
    forall t ensures Cover(slots, t) <= peak {
      LevelOfEvents(slots, t);
    }
    if peak != 0 {
      ghost var e :| e in events && e.opens && Level(events, e.time) == peak;
      ghost var s := OpeningSlot(slots, e);
      LevelOfEvents(slots, s.start);
    }
  }

  lemma {:induction false} OpeningSlot(slots: seq<Slot>, e: Event) returns (s: Slot)
    requires e in EventsOf(slots) && e.opens
    ensures s in slots && s.start == e.time
  {
    var last := slots[|slots| - 1];
    if e == Event(last.start, true) {
      s := last;
    } else {
      s := OpeningSlot(slots[..|slots| - 1], e);
    }
  }
}
