/** What every run of the calendar keeps: different owners never overlap on a lab, nobody holds
    more than two slots at an instant, lists stay sorted, ids stay distinct within a lab and
    stored durations stay exact and bounded. `extend` is the one operation that checks neither
    rule; its exact condition is proved here. */
module ReservationSafety {
  import opened Sequences
  import opened Reservations

  ghost predicate OwnersDisjoint(d: Data) {
    forall k, e, f :: k in d && e in d[k] && f in d[k] && e.owner != f.owner ==>
      !Overlap(e.start, e.end, f.start, f.end)
  }

  ghost predicate AtMostTwoAtOnce(d: Data) {
    forall owner, t :: Load(Query(owner, SkipNothing), d, t) <= MAX_SIMULTANEOUS
  }

  ghost predicate ListsSorted(d: Data) {
    forall k :: k in d ==> SortedBy(d[k], StartOf())
  }

  ghost function IdCount(es: seq<Entry>, id: string): nat {
    if es == [] then 0 else IdCount(es[..|es| - 1], id) + if es[|es| - 1].id == id then 1 else 0
  }

  ghost predicate IdsDistinct(d: Data) {
    forall k, id :: k in d ==> IdCount(d[k], id) <= 1
  }

  predicate DurationExact(e: Entry) {
    && 0 < e.duration <= MAX_TOTAL_DURATION
    && e.end - e.start == e.duration
    && (!e.extended ==> e.duration <= MAX_DURATION)
  }

  ghost predicate DurationsExact(d: Data) {
    forall k, e :: k in d && e in d[k] ==> DurationExact(e)
  }

  /** The two booking rules. */
  ghost predicate Rules(d: Data) {
    OwnersDisjoint(d) && AtMostTwoAtOnce(d)
  }

  ghost predicate Safe(d: Data) {
    Rules(d) && ListsSorted(d) && IdsDistinct(d) && DurationsExact(d)
  }

  /** The slot is free for `owner`: nobody else on the lab, fewer than two counted slots. */
  ghost predicate SlotFree(d: Data, key: Key, owner: string, skip: Skip, start: Time, end: Time) {
    && (forall f :: f in Entries(d, key) && f.owner != owner ==> !Overlap(start, end, f.start, f.end))
    && !Full(Query(owner, skip), d, start, end)
  }

  // ----- lists -----

  lemma {:induction false} IdCountAppend(a: seq<Entry>, b: seq<Entry>, id: string)
    ensures IdCount(a + b, id) == IdCount(a, id) + IdCount(b, id)
  {
    if b == [] {
      assert a + b == a;
    } else {
      assert (a + b)[..|a + b| - 1] == a + b[..|b| - 1];
      IdCountAppend(a, b[..|b| - 1], id);
    }
  }

  lemma {:induction false} IdCountInsert(es: seq<Entry>, e: Entry, id: string)
    ensures IdCount(InsertBy(es, e, StartOf()), id) == IdCount(es, id) + IdCount([e], id)
  {
    if es == [] || StartOf()(es[|es| - 1]) <= StartOf()(e) {
      IdCountAppend(es, [e], id);
    } else {
      var init, last := es[..|es| - 1], es[|es| - 1];
      IdCountInsert(init, e, id);
      IdCountAppend(InsertBy(init, e, StartOf()), [last], id);
      assert es == init + [last];
      IdCountAppend(init, [last], id);
    }
  }

  lemma {:induction false} IdCountSort(es: seq<Entry>, id: string)
    ensures IdCount(SortBy(es, StartOf()), id) == IdCount(es, id)
  {
    if es != [] {
      var init, last := es[..|es| - 1], es[|es| - 1];
      assert es == init + [last];
      SortSnoc(init, last, StartOf());
      IdCountInsert(SortBy(init, StartOf()), last, id);
      IdCountAppend(init, [last], id);
      IdCountSort(init, id);
    }
  }

  /** A filtered list carries no more of an id ... */
  lemma {:induction false} FilterHasFewerIds(es: seq<Entry>, p: Entry -> bool, id: string)
    ensures IdCount(Filter(es, p), id) <= IdCount(es, id)
  {
    if es != [] {
      var init, last := es[..|es| - 1], es[|es| - 1];
      assert es == init + [last];
      FilterHasFewerIds(init, p, id);
      FilterOneMore(init, last, p);
      IdCountAppend(init, [last], id);
      IdCountAppend(Filter(init, p), [last], id);
    }
  }

  /** ... and no more load. */
  lemma {:induction false} FilterCarriesLess(q: Query, k: Key, es: seq<Entry>, p: Entry -> bool, t: Time)
    ensures ListLoad(q, k, Filter(es, p), t) <= ListLoad(q, k, es, t)
  {
    if es != [] {
      var init, last := es[..|es| - 1], es[|es| - 1];
      assert es == init + [last];
      FilterCarriesLess(q, k, init, p, t);
      FilterOneMore(init, last, p);
      ListLoadAppend(q, k, init, [last], t);
      ListLoadAppend(q, k, Filter(init, p), [last], t);
    }
  }

  /** After the own overlapped entries are gone, the new slot carries no own entry of the lab. */
  lemma {:induction false} NothingOwnIsLeft(k: Key, es: seq<Entry>, booked: Entry, t: Time)
    requires booked.start <= t < booked.end
    ensures ListLoad(Query(booked.owner, SkipNothing), k,
                     Filter(es, NotReplaced(booked.owner, booked.start, booked.end)), t) == 0
  {
    var p := NotReplaced(booked.owner, booked.start, booked.end);
    if es != [] {
      var n := |es| - 1;
      NothingOwnIsLeft(k, es[..n], booked, t);
      FilterSnoc(es, n, p);
      assert es[..n + 1] == es;
      if p(es[n]) {
        ListLoadAppend(Query(booked.owner, SkipNothing), k, Filter(es[..n], p), [es[n]], t);
      }
    }
  }

  lemma SplitAt(q: Query, k: Key, es: seq<Entry>, i: nat, x: Entry, id: string, t: Time)
    requires i < |es|
    ensures ListLoad(q, k, es, t) ==
            ListLoad(q, k, es[..i], t) + ListLoad(q, k, [es[i]], t) + ListLoad(q, k, es[i + 1..], t)
    ensures ListLoad(q, k, es[i := x], t) ==
            ListLoad(q, k, es[..i], t) + ListLoad(q, k, [x], t) + ListLoad(q, k, es[i + 1..], t)
    ensures ListLoad(q, k, es[..i] + es[i + 1..], t) == ListLoad(q, k, es[..i], t) + ListLoad(q, k, es[i + 1..], t)
    ensures IdCount(es, id) == IdCount(es[..i], id) + IdCount([es[i]], id) + IdCount(es[i + 1..], id)
    ensures IdCount(es[i := x], id) == IdCount(es[..i], id) + IdCount([x], id) + IdCount(es[i + 1..], id)
    ensures IdCount(es[..i] + es[i + 1..], id) == IdCount(es[..i], id) + IdCount(es[i + 1..], id)
  {
    assert es == es[..i] + [es[i]] + es[i + 1..];
    assert es[i := x] == es[..i] + [x] + es[i + 1..];
    ListLoadAppend(q, k, es[..i] + [es[i]], es[i + 1..], t);
    ListLoadAppend(q, k, es[..i], [es[i]], t);
    ListLoadAppend(q, k, es[..i] + [x], es[i + 1..], t);
    ListLoadAppend(q, k, es[..i], [x], t);
    ListLoadAppend(q, k, es[..i], es[i + 1..], t);
    IdCountAppend(es[..i] + [es[i]], es[i + 1..], id);
    IdCountAppend(es[..i], [es[i]], id);
    IdCountAppend(es[..i] + [x], es[i + 1..], id);
    IdCountAppend(es[..i], [x], id);
    IdCountAppend(es[..i], es[i + 1..], id);
  }

  /** Skipping an id that does not occur changes nothing. */
  lemma {:induction false} SkipAbsentId(owner: string, k: Key, es: seq<Entry>, id: string, t: Time)
    requires IdCount(es, id) == 0
    ensures ListLoad(Query(owner, SkipEntry(k, id)), k, es, t) == ListLoad(Query(owner, SkipNothing), k, es, t)
  {
    if es != [] {
      SkipAbsentId(owner, k, es[..|es| - 1], id, t);
    }
  }

  // ----- totals -----

  /** The total without one entry is the total minus that entry's own contribution. */
  lemma LoadWithoutEntry(d: Data, key: Key, i: nat, t: Time)
    requires key in d && i < |d[key]| && IdCount(d[key], d[key][i].id) <= 1
    ensures var e := d[key][i];
      Load(Query(e.owner, SkipNothing), d, t) ==
      Load(Query(e.owner, SkipEntry(key, e.id)), d, t) + if e.start <= t < e.end then 1 else 0
  {
    var es, e := d[key], d[key][i];
    var q, qs := Query(e.owner, SkipNothing), Query(e.owner, SkipEntry(key, e.id));
    SplitAt(q, key, es, i, e, e.id, t);
    SplitAt(qs, key, es, i, e, e.id, t);
    assert IdCount([e], e.id) == 1;
    SkipAbsentId(e.owner, key, es[..i], e.id, t);
    SkipAbsentId(e.owner, key, es[i + 1..], e.id, t);
    LoadSplit(q, d, key, t);
    LoadSplit(qs, d, key, t);
    forall k | k in d.Keys - {key} ensures ListLoad(q, k, Entries(d, k), t) == ListLoad(qs, k, Entries(d, k), t) {
      SameElsewhere(e.owner, SkipEntry(key, e.id), k, Entries(d, k), t);
    }
    LabsLoadPointwise(q, qs, d, d, d.Keys - {key}, t);
  }

  lemma {:induction false} SameElsewhere(owner: string, skip: Skip, k: Key, es: seq<Entry>, t: Time)
    requires skip.SkipNothing? || skip.key != k
    ensures ListLoad(Query(owner, skip), k, es, t) == ListLoad(Query(owner, SkipNothing), k, es, t)
  {
    if es != [] {
      SameElsewhere(owner, skip, k, es[..|es| - 1], t);
    }
  }

  lemma {:induction false} SkippedLabIsEmpty(owner: string, k: Key, es: seq<Entry>, t: Time)
    ensures ListLoad(Query(owner, SkipLab(k)), k, es, t) == 0
  {
    if es != [] {
      SkippedLabIsEmpty(owner, k, es[..|es| - 1], t);
    }
  }

  /** The total outside one lab is the total minus that lab's list. */
  lemma LoadWithoutLab(owner: string, d: Data, key: Key, t: Time)
    ensures Load(Query(owner, SkipNothing), d, t) ==
            Load(Query(owner, SkipLab(key)), d, t) + ListLoad(Query(owner, SkipNothing), key, Entries(d, key), t)
  {
    var q, ql := Query(owner, SkipNothing), Query(owner, SkipLab(key));
    LoadSplit(q, d, key, t);
    LoadSplit(ql, d, key, t);
    SkippedLabIsEmpty(owner, key, Entries(d, key), t);
    forall k | k in d.Keys - {key} ensures ListLoad(q, k, Entries(d, k), t) == ListLoad(ql, k, Entries(d, k), t) {
      SameElsewhere(owner, SkipLab(key), k, Entries(d, k), t);
    }
    LabsLoadPointwise(q, ql, d, d, d.Keys - {key}, t);
  }

  // ----- reserve -----

  lemma BookedMembers(es: seq<Entry>, booked: Entry, x: Entry)
    requires x in WithBooked(es, booked)
    ensures x in es || x == booked
  {
    var p := NotReplaced(booked.owner, booked.start, booked.end);
    SortMember(Filter(es, p) + [booked], StartOf());
    FilterMember(es, p, x);
  }

  lemma BookedListLoad(q: Query, key: Key, es: seq<Entry>, booked: Entry, t: Time)
    ensures var kept := Filter(es, NotReplaced(booked.owner, booked.start, booked.end));
      && ListLoad(q, key, WithBooked(es, booked), t) == ListLoad(q, key, kept, t) + ListLoad(q, key, [booked], t)
      && ListLoad(q, key, kept, t) <= ListLoad(q, key, es, t)
  {
    var kept := Filter(es, NotReplaced(booked.owner, booked.start, booked.end));
    ListLoadSort(q, key, kept + [booked], t);
    ListLoadAppend(q, key, kept, [booked], t);
    FilterCarriesLess(q, key, es, NotReplaced(booked.owner, booked.start, booked.end), t);
  }

  lemma BookingLoad(d: Data, key: Key, booked: Entry, owner: string, t: Time)
    requires AtMostTwoAtOnce(d)
    requires !Full(Query(booked.owner, SkipLab(key)), d, booked.start, booked.end)
    ensures Load(Query(owner, SkipNothing), Put(d, key, WithBooked(Entries(d, key), booked)), t) <= MAX_SIMULTANEOUS
  {
    var q := Query(owner, SkipNothing);
    var es := Entries(d, key);
    LoadPut(q, d, key, WithBooked(es, booked), t);
    BookedListLoad(q, key, es, booked, t);
    assert Load(q, d, t) <= MAX_SIMULTANEOUS;
    if owner == booked.owner && booked.start <= t < booked.end {
      NothingOwnIsLeft(key, es, booked, t);
      LoadWithoutLab(owner, d, key, t);
      assert Load(Query(owner, SkipLab(key)), d, t) + 1 <= MAX_SIMULTANEOUS;
    }
  }

  lemma BookedIds(es: seq<Entry>, booked: Entry, id: string)
    requires IdCount(es, booked.id) == 0 && IdCount(es, id) <= 1
    ensures IdCount(WithBooked(es, booked), id) <= 1
  {
    var p := NotReplaced(booked.owner, booked.start, booked.end);
    IdCountSort(Filter(es, p) + [booked], id);
    IdCountAppend(Filter(es, p), [booked], id);
    FilterHasFewerIds(es, p, id);
  }

  /** A booking into a free slot keeps the calendar safe. */
  lemma BookingKeepsSafe(d: Data, key: Key, booked: Entry)
    requires Safe(d) && DurationExact(booked)
    requires IdCount(Entries(d, key), booked.id) == 0
    requires SlotFree(d, key, booked.owner, SkipLab(key), booked.start, booked.end)
    ensures Safe(Put(d, key, WithBooked(Entries(d, key), booked)))
  {
    var es := Entries(d, key);
    var es' := WithBooked(es, booked);
    var d' := Put(d, key, es');
    SortSorted(Filter(es, NotReplaced(booked.owner, booked.start, booked.end)) + [booked], StartOf());
    forall owner, t ensures Load(Query(owner, SkipNothing), d', t) <= MAX_SIMULTANEOUS {
      BookingLoad(d, key, booked, owner, t);
    }
    forall id ensures IdCount(es', id) <= 1 {
      BookedIds(es, booked, id);
    }
    forall x | x in es' ensures x in es || x == booked {
      BookedMembers(es, booked, x);
    }
    RebuiltLabIsSafe(d, key, es', booked);
  }

  /** Putting back a list whose members are old ones or one entry compatible with them. */
  lemma RebuiltLabIsSafe(d: Data, key: Key, es: seq<Entry>, x: Entry)
    requires OwnersDisjoint(d) && ListsSorted(d) && IdsDistinct(d) && DurationsExact(d)
    requires SortedBy(es, StartOf()) && forall id :: IdCount(es, id) <= 1
    requires forall e :: e in es ==> e in Entries(d, key) || e == x
    requires x in es ==> DurationExact(x)
    requires x in es ==> forall f :: f in Entries(d, key) && f.owner != x.owner ==>
      !Overlap(x.start, x.end, f.start, f.end)
    ensures var d' := Put(d, key, es); OwnersDisjoint(d') && ListsSorted(d') && IdsDistinct(d') && DurationsExact(d')
  {
    RebuiltLabIsDisjoint(d, key, es, x);
    forall e | e in es ensures DurationExact(e) {
      assert e == x || e in d[key];
    }
  }

  lemma RebuiltLabIsDisjoint(d: Data, key: Key, es: seq<Entry>, x: Entry)
    requires OwnersDisjoint(d)
    requires forall e :: e in es ==> e in Entries(d, key) || e == x
    requires x in es ==> forall f :: f in Entries(d, key) && f.owner != x.owner ==>
      !Overlap(x.start, x.end, f.start, f.end)
    ensures OwnersDisjoint(Put(d, key, es))
  {
  }

  // ----- update -----

  lemma UpdatedMembers(es: seq<Entry>, i: nat, x: Entry, y: Entry)
    requires i < |es| && y in es[i := x]
    ensures y in es || y == x
  {
  }

  lemma MovingLoad(d: Data, key: Key, i: nat, moved: Entry, owner: string, t: Time)
    requires AtMostTwoAtOnce(d)
    requires key in d && i < |d[key]| && IdCount(d[key], d[key][i].id) <= 1
    requires moved.owner == d[key][i].owner
    requires !Full(Query(moved.owner, SkipEntry(key, d[key][i].id)), d, moved.start, moved.end)
    ensures Load(Query(owner, SkipNothing), Put(d, key, SortBy(d[key][i := moved], StartOf())), t) <= MAX_SIMULTANEOUS
  {
    var q := Query(owner, SkipNothing);
    var es := d[key];
    LoadPut(q, d, key, SortBy(es[i := moved], StartOf()), t);
    ListLoadSort(q, key, es[i := moved], t);
    SplitAt(q, key, es, i, moved, "", t);
    assert Load(q, d, t) <= MAX_SIMULTANEOUS;
    if owner == moved.owner {
      LoadWithoutEntry(d, key, i, t);
      if moved.start <= t < moved.end {
        assert Load(Query(owner, SkipEntry(key, es[i].id)), d, t) + 1 <= MAX_SIMULTANEOUS;
      }
    }
  }

  lemma MovedIds(es: seq<Entry>, i: nat, moved: Entry, id: string)
    requires i < |es| && moved.id == es[i].id
    ensures IdCount(SortBy(es[i := moved], StartOf()), id) == IdCount(es, id)
  {
    IdCountSort(es[i := moved], id);
    SplitAt(Query("", SkipNothing), "", es, i, moved, id, 0);
    assert IdCount([moved], id) == IdCount([es[i]], id);
  }

  /** Moving an entry into a slot that is free without it keeps the calendar safe. */
  lemma MovingKeepsSafe(d: Data, key: Key, i: nat, moved: Entry)
    requires Safe(d) && DurationExact(moved)
    requires key in d && i < |d[key]|
    requires moved.owner == d[key][i].owner && moved.id == d[key][i].id
    requires SlotFree(d, key, moved.owner, SkipEntry(key, moved.id), moved.start, moved.end)
    ensures Safe(Put(d, key, SortBy(d[key][i := moved], StartOf())))
  {
    var es := d[key];
    var es' := SortBy(es[i := moved], StartOf());
    SortSorted(es[i := moved], StartOf());
    SortMember(es[i := moved], StartOf());
    assert IdCount(es, es[i].id) <= 1;
    forall owner, t ensures Load(Query(owner, SkipNothing), Put(d, key, es'), t) <= MAX_SIMULTANEOUS {
      MovingLoad(d, key, i, moved, owner, t);
    }
    forall id ensures IdCount(es', id) <= 1 {
      MovedIds(es, i, moved, id);
      assert IdCount(es, id) <= 1;
    }
    forall x | x in es' ensures x in Entries(d, key) || x == moved {
      UpdatedMembers(es, i, moved, x);
    }
    RebuiltLabIsSafe(d, key, es', moved);
  }

  // ----- cancel, release, prune -----

  lemma RemovalKeepsSafe(d: Data, key: Key, i: nat)
    requires Safe(d) && key in d && i < |d[key]|
    ensures Safe(Put(d, key, d[key][..i] + d[key][i + 1..]))
  {
    var es := d[key];
    var es' := es[..i] + es[i + 1..];
    forall owner, t ensures Load(Query(owner, SkipNothing), Put(d, key, es'), t) <= MAX_SIMULTANEOUS {
      var q := Query(owner, SkipNothing);
      LoadPut(q, d, key, es', t);
      SplitAt(q, key, es, i, es[i], "", t);
      assert Load(q, d, t) <= MAX_SIMULTANEOUS;
    }
    forall id ensures IdCount(es', id) <= 1 {
      SplitAt(Query("", SkipNothing), key, es, i, es[i], id, 0);
      assert IdCount(es, id) <= 1;
    }
    RebuiltLabIsSafe(d, key, es', es[i]);
  }

  lemma {:induction false} LabsLoadLess(q: Query, d: Data, d': Data, labs: set<Key>, t: Time)
    requires forall k :: k in labs ==> ListLoad(q, k, Entries(d', k), t) <= ListLoad(q, k, Entries(d, k), t)
    ensures LabsLoad(q, d', labs, t) <= LabsLoad(q, d, labs, t)
    decreases labs
  {
    if labs != {} {
      var k :| k in labs;
      LabsLoadTake(q, d, labs, k, t);
      LabsLoadTake(q, d', labs, k, t);
      LabsLoadLess(q, d, d', labs - {k}, t);
    }
  }

  lemma PruneKeepsSafe(d: Data, now: Time)
    requires Safe(d)
    ensures Safe(Prune(d, now))
  {
    var d' := Prune(d, now);
    forall k | k in d ensures SortedBy(Live(d[k], now), StartOf()) && forall e :: e in Live(d[k], now) ==> e in d[k] {
      FilterSorted(d[k], LiveAt(now), StartOf());
      FilterMembers(d[k], LiveAt(now));
    }
    forall k, id | k in d ensures IdCount(Live(d[k], now), id) <= 1 {
      FilterHasFewerIds(d[k], LiveAt(now), id);
      assert IdCount(d[k], id) <= 1;
    }
    forall owner, t ensures Load(Query(owner, SkipNothing), d', t) <= MAX_SIMULTANEOUS {
      var q := Query(owner, SkipNothing);
      forall k | k in d.Keys ensures ListLoad(q, k, Entries(d', k), t) <= ListLoad(q, k, Entries(d, k), t) {
        FilterCarriesLess(q, k, d[k], LiveAt(now), t);
      }
      LabsLoadLess(q, d, d', d.Keys, t);
      LoadOverMore(q, d', d.Keys, t);
      assert Load(q, d, t) <= MAX_SIMULTANEOUS;
    }
  }

  // ----- extend -----

  lemma ExtendedLoad(d: Data, key: Key, i: nat, additional: int, owner: string, t: Time)
    requires Safe(d) && key in d && i < |d[key]| && additional > 0
    ensures var e := d[key][i];
      var d' := Put(d, key, d[key][i := Lengthened(e, additional)]);
      Load(Query(owner, SkipNothing), d', t) ==
      Load(Query(owner, SkipNothing), d, t) + if owner == e.owner && e.end <= t < e.end + additional then 1 else 0
  {
    var es := d[key];
    var longer := Lengthened(es[i], additional);
    assert DurationExact(es[i]);
    LoadPut(Query(owner, SkipNothing), d, key, es[i := longer], t);
    SplitAt(Query(owner, SkipNothing), key, es, i, longer, "", t);
  }

  /** Lengthening an entry keeps the two rules exactly when the added stretch is free. */
  lemma ExtensionKeepsRulesIff(d: Data, key: Key, i: nat, additional: int)
    requires Safe(d) && key in d && i < |d[key]| && additional > 0
    ensures var e := d[key][i];
      Rules(Put(d, key, d[key][i := Lengthened(e, additional)])) <==>
      SlotFree(d, key, e.owner, SkipEntry(key, e.id), e.end, e.end + additional)
  {
    var es, e := d[key], d[key][i];
    var longer := Lengthened(e, additional);
    var d' := Put(d, key, es[i := longer]);
    assert DurationExact(e) && IdCount(es, e.id) <= 1;
    if SlotFree(d, key, e.owner, SkipEntry(key, e.id), e.end, e.end + additional) {
      ExtensionIntoFreeSlot(d, key, i, additional);
    }
    if Rules(d') {
      forall f | f in es && f.owner != e.owner ensures !Overlap(e.end, e.end + additional, f.start, f.end) {
        var j :| 0 <= j < |es| && es[j] == f;
        assert d'[key][j] == f && d'[key][i] == longer;
        assert !Overlap(longer.start, longer.end, f.start, f.end);
      }
      forall t | e.end <= t < e.end + additional
        ensures Load(Query(e.owner, SkipEntry(key, e.id)), d, t) + 1 <= MAX_SIMULTANEOUS
      {
        ExtendedLoad(d, key, i, additional, e.owner, t);
        LoadWithoutEntry(d, key, i, t);
        assert Load(Query(e.owner, SkipNothing), d', t) <= MAX_SIMULTANEOUS;
      }
    }
  }

  lemma ExtensionIntoFreeSlot(d: Data, key: Key, i: nat, additional: int)
    requires Safe(d) && key in d && i < |d[key]| && additional > 0
    requires var e := d[key][i]; SlotFree(d, key, e.owner, SkipEntry(key, e.id), e.end, e.end + additional)
    ensures Rules(Put(d, key, d[key][i := Lengthened(d[key][i], additional)]))
  {
    var es, e := d[key], d[key][i];
    var longer := Lengthened(e, additional);
    var d' := Put(d, key, es[i := longer]);
    assert DurationExact(e) && IdCount(es, e.id) <= 1;
    forall owner, t ensures Load(Query(owner, SkipNothing), d', t) <= MAX_SIMULTANEOUS {
      ExtendedLoad(d, key, i, additional, owner, t);
      assert Load(Query(owner, SkipNothing), d, t) <= MAX_SIMULTANEOUS;
      if owner == e.owner && e.end <= t < e.end + additional {
        LoadWithoutEntry(d, key, i, t);
        assert Load(Query(e.owner, SkipEntry(key, e.id)), d, t) + 1 <= MAX_SIMULTANEOUS;
      }
    }
    forall k: Key, a: Entry, b: Entry | k in d' && a in d'[k] && b in d'[k] && a.owner != b.owner
      ensures !Overlap(a.start, a.end, b.start, b.end)
    {
      if k == key {
        UpdatedMembers(es, i, longer, a);
        UpdatedMembers(es, i, longer, b);
        assert e in es;
        if a in es && b in es {
        } else if a == longer {
          assert b in es && !Overlap(e.start, e.end, b.start, b.end) && DurationExact(b);
        } else {
          assert a in es && !Overlap(e.start, e.end, a.start, a.end) && DurationExact(a);
        }
      }
    }
  }

  /** What an extension keeps in any case. */
  lemma ExtensionKeepsTheRest(d: Data, key: Key, i: nat, now: Time, additional: int)
    requires Safe(d) && key in d && i < |d[key]| && additional > 0
    requires ExtensionRefusal(d[key][i], now, additional).None?
    ensures var d' := Put(d, key, d[key][i := Lengthened(d[key][i], additional)]);
      ListsSorted(d') && IdsDistinct(d') && DurationsExact(d')
  {
    var es := d[key];
    var longer := Lengthened(es[i], additional);
    assert DurationExact(es[i]);
    var es' := es[i := longer];
    forall id ensures IdCount(es', id) <= 1 {
      SplitAt(Query("", SkipNothing), key, es, i, longer, id, 0);
      assert IdCount([longer], id) == IdCount([es[i]], id);
      assert IdCount(es, id) <= 1;
    }
    assert SortedBy(es, StartOf());
    forall x | x in es[i := longer] ensures DurationExact(x) {
      UpdatedMembers(es, i, longer, x);
    }
  }

  // ----- steps and runs -----

  /** What a call must bring along: a fresh id to reserve, a free stretch to extend. */
  ghost predicate Admissible(d: Data, now: Time, op: Op) {
    match op
    case Reserve(key, owner, length, at, id) => IdCount(Entries(d, key), id) == 0
    case Extend(key, additional) =>
      var active := First(Entries(d, key), ActiveAt(now));
      active.Some? && additional > 0 && ExtensionRefusal(active.value, now, additional).None? ==>
        SlotFree(d, key, active.value.owner, SkipEntry(key, active.value.id), active.value.end,
          active.value.end + additional)
    case _ => true
  }

  lemma NoForeignMeansFree(d: Data, key: Key, owner: string, skip: Skip, start: Time, end: Time)
    requires First(Entries(d, key), ForeignIn(owner, start, end)).None?
    requires !Full(Query(owner, skip), d, start, end)
    ensures SlotFree(d, key, owner, skip, start, end)
  {
    FirstSome(Entries(d, key), ForeignIn(owner, start, end));
    forall f | f in Entries(d, key) && f.owner != owner ensures !Overlap(start, end, f.start, f.end) {
      assert !ForeignIn(owner, start, end)(f);
    }
  }

  lemma MoveDecisionKeepsSafe(d: Data, now: Time, key: Key, id: string, e: Entry, start: Time, length: int)
    requires Safe(d) && First(Entries(d, key), FutureWithId(now, id)) == Some(e)
    requires DecideMove(d, now, key, id, e, start, length).saved.Some?
    ensures Safe(DecideMove(d, now, key, id, e, start, length).saved.value)
  {
    var es := Entries(d, key);
    var i := FirstIndex(es, FutureWithId(now, id));
    var moved := Moved(e, start, length);
    FirstAt(es, FutureWithId(now, id), i, moved);
    NoForeignMeansFree(d, key, e.owner, SkipEntry(key, id), start, start + length);
    assert DurationExact(e);
    MovingKeepsSafe(d, key, i, moved);
  }

  lemma ExtendDecisionKeepsSafe(d: Data, now: Time, key: Key, additional: int)
    requires Safe(d) && DecideExtend(d, now, key, additional).saved.Some?
    ensures Safe(DecideExtend(d, now, key, additional).saved.value) <==> Admissible(d, now, Extend(key, additional))
  {
    var es := Entries(d, key);
    var i := FirstIndex(es, ActiveAt(now));
    FirstAt(es, ActiveAt(now), i, Lengthened(es[i], additional));
    ExtensionKeepsRulesIff(d, key, i, additional);
    ExtensionKeepsTheRest(d, key, i, now, additional);
  }

  lemma RemovalDecisionKeepsSafe(d: Data, key: Key, p: Entry -> bool)
    requires Safe(d) && DecideRemoval(d, key, p).saved.Some?
    ensures Safe(DecideRemoval(d, key, p).saved.value)
  {
    var i := FirstIndex(Entries(d, key), p);
    FirstAt(Entries(d, key), p, i, Entries(d, key)[i]);
    RemovalKeepsSafe(d, key, i);
  }

  lemma DecisionKeepsSafe(d: Data, now: Time, op: Op)
    requires Safe(d) && Admissible(d, now, op) && Decide(d, now, op).saved.Some?
    ensures Safe(Decide(d, now, op).saved.value)
  {
    match op
    case Reserve(key, owner, length, at, id) =>
      var booked := Decide(d, now, op).answer.entry;
      NoForeignMeansFree(d, key, owner, SkipLab(key), booked.start, booked.end);
      BookingKeepsSafe(d, key, booked);
    case Update(key, id, newStart, newLength) =>
      var e := First(Entries(d, key), FutureWithId(now, id)).value;
      MoveDecisionKeepsSafe(d, now, key, id, e,
                            if newStart.Some? then newStart.value else e.start,
                            if newLength.Some? then newLength.value else e.duration);
    case Extend(key, additional) => ExtendDecisionKeepsSafe(d, now, key, additional);
    case Cancel(key, id) => RemovalDecisionKeepsSafe(d, key, FutureWithId(now, id));
    case Release(key) => RemovalDecisionKeepsSafe(d, key, ActiveAt(now));
    case _ =>
  }

  lemma StepKeepsSafe(d: Data, now: Time, op: Op)
    requires Safe(d) && Admissible(Prune(d, now), now, op)
    ensures Safe(Step(d, now, op).0)
  {
    PruneKeepsSafe(d, now);
    if Decide(Prune(d, now), now, op).saved.Some? {
      DecisionKeepsSafe(Prune(d, now), now, op);
    }
  }

  /** For an extension that goes through, admissible is also necessary. */
  lemma ExtendStepSafeIff(d: Data, now: Time, key: Key, additional: int)
    requires Safe(d)
    ensures Safe(Step(d, now, Extend(key, additional)).0) <==> Admissible(Prune(d, now), now, Extend(key, additional))
  {
    PruneKeepsSafe(d, now);
    if DecideExtend(Prune(d, now), now, key, additional).saved.Some? {
      ExtendDecisionKeepsSafe(Prune(d, now), now, key, additional);
    }
  }

  ghost predicate RunAdmissible(d: Data, calls: seq<Call>)
    decreases |calls|
  {
    calls == [] ||
    (Admissible(Prune(d, calls[0].now), calls[0].now, calls[0].op) &&
     RunAdmissible(Step(d, calls[0].now, calls[0].op).0, calls[1..]))
  }

  /** Schedule safety over all runs, whatever the clock does. */
  lemma {:induction false} RunKeepsSafe(d: Data, calls: seq<Call>)
    requires Safe(d) && RunAdmissible(d, calls)
    ensures Safe(Run(d, calls))
    decreases |calls|
  {
    if calls != [] {
      StepKeepsSafe(d, calls[0].now, calls[0].op);
      RunKeepsSafe(Step(d, calls[0].now, calls[0].op).0, calls[1..]);
    }
  }

  function HasExactDuration(): Entry -> bool { (e: Entry) => DurationExact(e) }

  lemma DurationsAsAll(d: Data)
    ensures DurationsExact(d) <==> EntriesAll(d, HasExactDuration())
  {
    if EntriesAll(d, HasExactDuration()) {
      forall k, e | k in d && e in d[k] ensures DurationExact(e) {
        assert HasExactDuration()(e);
      }
    }
  }

  lemma SavedEntryHasExactDuration(d: Data, now: Time, op: Op)
    requires DurationsExact(d) && Decide(d, now, op).answer.Saved?
    ensures DurationExact(Decide(d, now, op).answer.entry)
  {
    if op.Extend? {
      FirstSome(Entries(d, op.key), ActiveAt(now));
      assert DurationExact(First(Entries(d, op.key), ActiveAt(now)).value);
    }
  }

  lemma StepKeepsDurations(d: Data, now: Time, op: Op)
    requires DurationsExact(d)
    ensures DurationsExact(Step(d, now, op).0)
  {
    var working := Prune(d, now);
    DurationsAsAll(d);
    PrunedEntries(d, now, HasExactDuration());
    DurationsAsAll(working);
    var decision := Decide(working, now, op);
    if decision.saved.Some? {
      if decision.answer.Saved? {
        SavedEntryHasExactDuration(working, now, op);
      }
      SavedEntries(working, now, op, HasExactDuration());
      DurationsAsAll(decision.saved.value);
    }
  }

  /** In every reachable calendar, whatever was extended and whatever the clock did, each entry
      lasts as long as it says: at most seven hours, at most six until it was extended. */
  lemma {:induction false} RunKeepsDurations(d: Data, calls: seq<Call>)
    requires DurationsExact(d)
    ensures DurationsExact(Run(d, calls))
    decreases |calls|
  {
    if calls != [] {
      StepKeepsDurations(d, calls[0].now, calls[0].op);
      RunKeepsDurations(Step(d, calls[0].now, calls[0].op).0, calls[1..]);
    }
  }

  // ----- from the empty calendar -----

  lemma EmptyIsSafe()
    ensures Safe(map[])
  {
  }

  /** Every admissible run of a new calendar is safe. */
  lemma RunFromEmptyIsSafe(calls: seq<Call>)
    requires RunAdmissible(map[], calls)
    ensures Safe(Run(map[], calls))
  {
    EmptyIsSafe();
    RunKeepsSafe(map[], calls);
  }
}
