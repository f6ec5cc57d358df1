/** The reservation service itself: one locked store whose operations loop over labs and entries.
    Each operation is proved to be one `Step` of the calendar of module Reservations. The lock is
    the method boundary; `now` is the clock reading taken under it, `id` the uuid drawn. */
module CalendarStore {
  import opened Sequences
  import opened Reservations
  import SweepLine

  method KeepLive(entries: seq<Entry>, now: Time) returns (kept: seq<Entry>)
    ensures kept == Live(entries, now)
  {
    kept := [];
    for i := 0 to |entries|
      invariant kept == Filter(entries[..i], LiveAt(now))
    {
      FilterSnoc(entries, i, LiveAt(now));
      if entries[i].end >= now {
        kept := kept + [entries[i]];
      }
    }
    assert entries[..|entries|] == entries;
  }

  method PruneExpired(d: Data, now: Time) returns (pruned: Data, changed: bool)
    ensures pruned == Prune(d, now)
    ensures changed <==> SomethingExpired(d, now)
  {
    pruned, changed := d, false;
    var keys := d.Keys;
    while keys != {}
      invariant keys <= d.Keys
      invariant pruned == PruneAllBut(d, now, keys)
      invariant changed <==> exists k :: k in d && k !in keys && |Live(d[k], now)| != |d[k]|
    {
      var key :| key in keys;
      var kept := KeepLive(d[key], now);
      PruneOneMore(d, now, keys, key);
      pruned := Put(pruned, key, kept);
      if |kept| != |d[key]| {
        changed := true;
      }
      keys := keys - {key};
    }
  }

  /** The calendar in the middle of pruning: the labs in `todo` are still as they were. */
  ghost function PruneAllBut(d: Data, now: Time, todo: set<Key>): Data {
    map k | k in d && (k in todo || Live(d[k], now) != []) :: if k in todo then d[k] else Live(d[k], now)
  }

  lemma PruneOneMore(d: Data, now: Time, todo: set<Key>, key: Key)
    requires key in todo && todo <= d.Keys
    ensures PruneAllBut(d, now, todo - {key}) == Put(PruneAllBut(d, now, todo), key, Live(d[key], now))
  {
  }

  /** The clipped slots of the counted entries: what the two nested loops turn into events. */
  method CountedSlots(d: Data, q: Query, start: Time, end: Time) returns (slots: seq<SweepLine.Slot>)
    ensures forall s :: s in slots ==> start <= s.start < s.end <= end
    ensures forall t :: start <= t < end ==> SweepLine.Cover(slots, t) == Load(q, d, t)
  {
    slots := [];
    var keys := d.Keys;
    while keys != {}
      invariant keys <= d.Keys
      invariant forall s :: s in slots ==> start <= s.start < s.end <= end
      invariant forall t :: start <= t < end ==> SweepLine.Cover(slots, t) + LabsLoad(q, d, keys, t) == Load(q, d, t)
    {
      var key :| key in keys;
      var entries := d[key];
      ghost var before := slots;
      for i := 0 to |entries|
        invariant forall s :: s in slots ==> start <= s.start < s.end <= end
        invariant forall t :: start <= t < end ==>
          SweepLine.Cover(slots, t) == SweepLine.Cover(before, t) + ListLoad(q, key, entries[..i], t)
      {
        var entry := entries[i];
        ghost var previous := slots;
        var overlapStart := if start >= entry.start then start else entry.start;
        var overlapEnd := if end <= entry.end then end else entry.end;
        if Counted(q, key, entry) && overlapStart < overlapEnd {
          slots := slots + [SweepLine.Slot(overlapStart, overlapEnd)];
        }
        forall t | start <= t < end
          ensures SweepLine.Cover(slots, t) == SweepLine.Cover(before, t) + ListLoad(q, key, entries[..i + 1], t)
        {
          assert entries[..i + 1][..i] == entries[..i];
          assert slots != previous ==> slots[..|slots| - 1] == previous;
        }
      }
      assert entries[..|entries|] == entries;
      forall t | start <= t < end
        ensures SweepLine.Cover(slots, t) + LabsLoad(q, d, keys - {key}, t) == Load(q, d, t)
      {
        LabsLoadTake(q, d, keys, key, t);
      }
      keys := keys - {key};
    }
  }

  /** The simultaneity rule, decided by the sweep: refused exactly when some instant of the slot
      already carries two counted entries. */
  method TooManyInSlot(d: Data, q: Query, start: Time, end: Time) returns (refused: bool)
    ensures refused <==> Full(q, d, start, end)
  {
    var slots := CountedSlots(d, q, start, end);
    var peak := SweepLine.PeakCover(slots);
    refused := peak + 1 > MAX_SIMULTANEOUS;
    if refused {
      ghost var s :| s in slots && SweepLine.Cover(slots, s.start) == peak;
      assert start <= s.start < end && Load(q, d, s.start) + 1 > MAX_SIMULTANEOUS;
    } else {
      forall t | start <= t < end ensures Load(q, d, t) + 1 <= MAX_SIMULTANEOUS {
        assert SweepLine.Cover(slots, t) <= peak;
      }
    }
  }

  /** The search loops over one lab's entries. */
  method FindFirst(entries: seq<Entry>, p: Entry -> bool) returns (index: int)
    ensures index == -1 ==> First(entries, p).None?
    ensures index != -1 ==> 0 <= index < |entries| && First(entries, p) == Some(entries[index])
    ensures index != -1 ==> RemoveFirst(entries, p) == entries[..index] + entries[index + 1..]
    ensures index != -1 ==> forall x :: ReplaceFirst(entries, p, x) == entries[index := x]
  {
    FirstSome(entries, p);
    for i := 0 to |entries|
      invariant forall j :: 0 <= j < i ==> !p(entries[j])
    {
      if p(entries[i]) {
        forall x ensures ReplaceFirst(entries, p, x) == entries[i := x] {
          FirstAt(entries, p, i, x);
        }
        FirstAt(entries, p, i, entries[i]);
        return i;
      }
    }
    return -1;
  }

  /** The checks an update makes once it knows its target and the slot asked for. */
  method CheckMove(d: Data, key: Key, id: string, target: Entry, start: Time, length: int, now: Time)
    returns (refusal: Option<Refusal>)
    ensures DecideMove(d, now, key, id, target, start, length) ==
            if refusal.Some? then Decision(Refused(refusal.value), None)
            else Decision(Saved(Moved(target, start, length)),
                          Some(Put(d, key, WithMoved(Entries(d, key), now, id, Moved(target, start, length)))))
  {
    if start < now {
      return Some(StartInThePast);
    }
    if length <= 0 || length > MAX_DURATION {
      return Some(BadDuration);
    }
    var entries := Entries(d, key);
    var end := start + length;
    var holder := FindFirst(entries, ForeignIn(target.owner, start, end));
    if holder != -1 {
      return Some(HeldBy(entries[holder].owner));
    }
    var full := TooManyInSlot(d, Query(target.owner, SkipEntry(key, id)), start, end);
    return if full then Some(TooManyAtOnce) else None;
  }

  /** The checks a reservation makes once its slot is known. */
  method CheckBooking(d: Data, key: Key, booked: Entry) returns (refusal: Option<Refusal>)
    ensures DecideBooking(d, key, booked) ==
            if refusal.Some? then Decision(Refused(refusal.value), None)
            else Decision(Saved(booked), Some(Put(d, key, WithBooked(Entries(d, key), booked))))
  {
    var existing := Entries(d, key);
    var holder := FindFirst(existing, ForeignIn(booked.owner, booked.start, booked.end));
    if holder != -1 {
      return Some(HeldBy(existing[holder].owner));
    }
    var full := TooManyInSlot(d, Query(booked.owner, SkipLab(key)), booked.start, booked.end);
    return if full then Some(TooManyAtOnce) else None;
  }

  /** The list without the owner's entries that overlap the new slot. */
  method DropReplaced(entries: seq<Entry>, owner: string, start: Time, end: Time) returns (cleaned: seq<Entry>)
    ensures cleaned == Filter(entries, NotReplaced(owner, start, end))
  {
    cleaned := [];
    for i := 0 to |entries|
      invariant cleaned == Filter(entries[..i], NotReplaced(owner, start, end))
    {
      FilterSnoc(entries, i, NotReplaced(owner, start, end));
      if !(entries[i].owner == owner && Overlap(start, end, entries[i].start, entries[i].end)) {
        cleaned := cleaned + [entries[i]];
      }
    }
    assert entries[..|entries|] == entries;
  }

  class Calendar {
    var data: Data

    constructor ()
      ensures data == map[]
    {
      data := map[];
    }

    method Reserve(vmId: string, labName: string, owner: string, length: int, at: Option<Time>, id: string, now: Time)
      returns (answer: Answer)
      modifies this
      ensures (data, answer) == Step(old(data), now, Op.Reserve(KeyOf(vmId, labName), owner, length, at, id))
    {
      if length <= 0 || length > MAX_DURATION {
        return Refused(BadDuration);
      }
      var working, _ := PruneExpired(data, now);
      var start := now;
      if at.Some? && at.value >= now {
        start := at.value;
      }
      var key := KeyOf(vmId, labName);
      var booked := Booked(owner, start, length, id);
      var refusal := CheckBooking(working, key, booked);
      if refusal.Some? {
        return Refused(refusal.value);
      }
      var cleaned := DropReplaced(Entries(working, key), owner, booked.start, booked.end);
      data := Put(working, key, SortBy(cleaned + [booked], StartOf()));
      return Saved(booked);
    }

    method UpdateScheduled(vmId: string, labName: string, id: string, newStart: Option<Time>, newLength: Option<int>,
                           now: Time)
      returns (answer: Answer)
      modifies this
      ensures (data, answer) == Step(old(data), now, Update(KeyOf(vmId, labName), id, newStart, newLength))
    {
      var working, _ := PruneExpired(data, now);
      var key := KeyOf(vmId, labName);
      var entries := Entries(working, key);
      var index := FindFirst(entries, FutureWithId(now, id));
      if index == -1 {
        return Found(None);
      }
      var target := entries[index];
      var start := if newStart.Some? then newStart.value else target.start;
      var length := if newLength.Some? then newLength.value else target.duration;
      var refusal := CheckMove(working, key, id, target, start, length, now);
      if refusal.Some? {
        return Refused(refusal.value);
      }
      var updated := Moved(target, start, length);
      assert ReplaceFirst(entries, FutureWithId(now, id), updated) == entries[index := updated];
      data := Put(working, key, SortBy(entries[index := updated], StartOf()));
      return Saved(updated);
    }

    method ExtendActive(vmId: string, labName: string, additional: int, now: Time) returns (answer: Answer)
      modifies this
      ensures (data, answer) == Step(old(data), now, Extend(KeyOf(vmId, labName), additional))
    {
      if additional <= 0 {
        return Refused(BadExtension);
      }
      var working, _ := PruneExpired(data, now);
      var key := KeyOf(vmId, labName);
      var entries := Entries(working, key);
      var index := FindFirst(entries, ActiveAt(now));
      if index == -1 {
        return Refused(NoActiveReservation);
      }
      var existing := entries[index];
      if now < existing.end - EXTENSION_WINDOW {
        return Refused(OutsideExtensionWindow);
      }
      var remaining := MAX_TOTAL_DURATION - existing.duration;
      if remaining <= 0 {
        return Refused(TotalDurationReached);
      }
      if additional > remaining {
        return Refused(ExtensionTooLong);
      }
      var updated := Lengthened(existing, additional);
      data := Put(working, key, entries[index := updated]);
      return Saved(updated);
    }

    method CancelScheduled(vmId: string, labName: string, id: string, now: Time) returns (answer: Answer)
      modifies this
      ensures (data, answer) == Step(old(data), now, Cancel(KeyOf(vmId, labName), id))
    {
      var working, changed := PruneExpired(data, now);
      var key := KeyOf(vmId, labName);
      var entries := Entries(working, key);
      var index := FindFirst(entries, FutureWithId(now, id));
      if index != -1 {
        data := Put(working, key, entries[..index] + entries[index + 1..]);
        return Found(Some(entries[index]));
      }
      if changed {
        data := working;
      }
      return Found(None);
    }

    method ReleaseLab(vmId: string, labName: string, now: Time) returns (answer: Answer)
      modifies this
      ensures (data, answer) == Step(old(data), now, Release(KeyOf(vmId, labName)))
    {
      var working, _ := PruneExpired(data, now);
      var key := KeyOf(vmId, labName);
      var entries := Entries(working, key);
      var index := FindFirst(entries, ActiveAt(now));
      if index == -1 {
        return Found(None);
      }
      data := Put(working, key, entries[..index] + entries[index + 1..]);
      return Found(Some(entries[index]));
    }

    method GetReservation(vmId: string, labName: string, now: Time) returns (answer: Answer)
      modifies this
      ensures (data, answer) == Step(old(data), now, Get(KeyOf(vmId, labName)))
    {
      var working, changed := PruneExpired(data, now);
      var entries := Entries(working, KeyOf(vmId, labName));
      var active: Option<Entry> := None;
      for i := 0 to |entries|
        invariant active == LatestActive(entries[..i], now)
      {
        assert entries[..i + 1][..i] == entries[..i];
        if entries[i].start <= now <= entries[i].end {
          if active.None? || entries[i].start > active.value.start {
            active := Some(entries[i]);
          }
        }
      }
      assert entries[..|entries|] == entries;
      if changed {
        data := working;
      }
      return Found(active);
    }

    method ListScheduledReservations(vmId: string, labName: string, now: Time) returns (answer: Answer)
      modifies this
      ensures (data, answer) == Step(old(data), now, ListScheduled(KeyOf(vmId, labName)))
    {
      var working, changed := PruneExpired(data, now);
      var entries := Entries(working, KeyOf(vmId, labName));
      var scheduled: seq<Entry> := [];
      for i := 0 to |entries|
        invariant data == old(data)
        invariant scheduled == Filter(entries[..i], FutureAt(now))
      {
        FilterSnoc(entries, i, FutureAt(now));
        if entries[i].start > now {
          scheduled := scheduled + [entries[i]];
        }
      }
      assert entries[..|entries|] == entries;
      if changed {
        data := working;
      }
      return Scheduled(SortBy(scheduled, StartOf()));
    }

    /** The part of `attach_reservations` that concerns one lab of one VM. */
    method AttachReservation(vmId: string, labName: string, now: Time) returns (answer: Answer)
      modifies this
      ensures (data, answer) == Step(old(data), now, Attach(KeyOf(vmId, labName)))
    {
      var working, changed := PruneExpired(data, now);
      if changed {
        data := working;
      }
      var entries := Entries(working, KeyOf(vmId, labName));
      var reservation: Option<Entry> := None;
      var upcoming: seq<Entry> := [];
      for i := 0 to |entries|
        invariant data == if changed then working else old(data)
        invariant reservation == LastActive(entries[..i], now)
        invariant upcoming == Filter(entries[..i], FutureAt(now))
      {
        assert entries[..i + 1][..i] == entries[..i];
        FilterSnoc(entries, i, FutureAt(now));
        if entries[i].start <= now <= entries[i].end {
          reservation := Some(entries[i]);
        } else if entries[i].start > now {
          upcoming := upcoming + [entries[i]];
        }
      }
      assert entries[..|entries|] == entries;
      return Attached(reservation, SortBy(upcoming, StartOf()));
    }

    method CountUserActive(user: string, now: Time) returns (answer: Answer)
      ensures (data, answer) == Step(data, now, CountActive(user))
    {
      var active: set<Key> := {};
      var keys := data.Keys;
      while keys != {}
        invariant keys <= data.Keys
        invariant active == set k | k in data && k !in keys && First(data[k], OwnActive(user, now)).Some?
      {
        var key :| key in keys;
        var index := FindFirst(data[key], OwnActive(user, now));
        if index != -1 {
          active := active + {key};
        }
        keys := keys - {key};
      }
      assert active == ActiveLabs(data, user, now);
      return Number(|active|);
    }
  }
}
