/** The calendar told by occurrences, positions and instants: how often an entry is held, what pruning
    and the list operations do to that, and when an owner has two slots at once. */
module ReservationCounts {
  import opened Sequences
  import opened Reservations
  import opened ReservationPruning

  /** How often the calendar holds `e` under `k`. */
  function Held(d: Data, k: Key, e: Entry): nat {
    if k in d then multiset(d[k])[e] else 0
  }

  /** The same once the entries that ended before `now` are gone. */
  function HeldLive(d: Data, now: Time, k: Key, e: Entry): nat {
    if e.end >= now then Held(d, k, e) else 0
  }

  function One(b: bool): nat { if b then 1 else 0 }

  /** The entries of one lab in their order. */
  function Listed(d: Data, k: Key): seq<Entry> {
    if k in d then d[k] else []
  }

  // ----- the list operations, counted -----

  lemma {:induction false} FilterCount(s: seq<Entry>, p: Entry -> bool, x: Entry)
    ensures multiset(Filter(s, p))[x] == if p(x) then multiset(s)[x] else 0
  {
    if s != [] {
      FilterCount(s[1..], p, x);
      assert s == [s[0]] + s[1..];
    }
  }

  lemma SortCount(s: seq<Entry>, x: Entry)
    ensures multiset(SortBy(s, StartOf()))[x] == multiset(s)[x]
  {
    SortPermutes(s, StartOf());
  }

  lemma PutHeld(d: Data, key: Key, es: seq<Entry>, k: Key, e: Entry)
    ensures Held(Put(d, key, es), k, e) == if k == key then multiset(es)[e] else Held(d, k, e)
  {
  }

  lemma PruneHeld(d: Data, now: Time, k: Key, e: Entry)
    ensures Held(Prune(d, now), k, e) == HeldLive(d, now, k, e)
    ensures multiset(Entries(Prune(d, now), k))[e] == HeldLive(d, now, k, e)
  {
    if k in d {
      FilterCount(d[k], LiveAt(now), e);
    }
  }

  /** The first entry of a list with some property, at its place. */
  ghost predicate IsFirst(es: seq<Entry>, i: nat, p: Entry -> bool) {
    i < |es| && p(es[i]) && forall j :: 0 <= j < i ==> !p(es[j])
  }

  lemma IsFirstIff(es: seq<Entry>, p: Entry -> bool)
    ensures First(es, p).Some? <==> exists i: nat :: IsFirst(es, i, p)
    ensures forall i: nat :: IsFirst(es, i, p) ==> First(es, p) == Some(es[i])
  {
    if First(es, p).Some? {
      var i := FirstIndex(es, p);
      assert IsFirst(es, i, p);
    }
    forall i: nat | IsFirst(es, i, p) ensures First(es, p) == Some(es[i]) {
      FirstAt(es, p, i, es[i]);
    }
  }

  /** A search in the pruned list is a search for the live ones in the whole list. */
  lemma {:induction false} FirstOfLive(es: seq<Entry>, now: Time, p: Entry -> bool, q: Entry -> bool)
    requires forall e :: q(e) <==> p(e) && e.end >= now
    ensures First(Live(es, now), p) == First(es, q)
  {
    if es != [] {
      FirstOfLive(es[1..], now, p, q);
      FilterCons(es[0], es[1..], LiveAt(now));
      assert es == [es[0]] + es[1..];
      assert ([es[0]] + Filter(es[1..], LiveAt(now)))[1..] == Filter(es[1..], LiveAt(now));
    }
  }

  lemma FirstInPruned(d: Data, now: Time, key: Key, p: Entry -> bool, q: Entry -> bool)
    requires forall e :: q(e) <==> p(e) && e.end >= now
    ensures First(Entries(Prune(d, now), key), p) == First(Listed(d, key), q)
  {
    FirstOfLive(Listed(d, key), now, p, q);
  }

  lemma MultisetAt(es: seq<Entry>, i: nat, y: Entry)
    requires i < |es|
    ensures multiset(es) == multiset(es[..i]) + multiset{es[i]} + multiset(es[i + 1..])
    ensures multiset(es[..i] + es[i + 1..]) == multiset(es[..i]) + multiset(es[i + 1..])
    ensures multiset(es[i := y]) == multiset(es[..i]) + multiset{y} + multiset(es[i + 1..])
  {
    assert es == es[..i] + [es[i]] + es[i + 1..];
    assert es[i := y] == es[..i] + [y] + es[i + 1..];
  }

  lemma ChangeCount(es: seq<Entry>, p: Entry -> bool, y: Entry)
    requires First(es, p).Some?
    ensures multiset(RemoveFirst(es, p)) + multiset{First(es, p).value} == multiset(es)
    ensures multiset(ReplaceFirst(es, p, y)) + multiset{First(es, p).value} == multiset(es) + multiset{y}
  {
    var i := FirstIndex(es, p);
    FirstAt(es, p, i, y);
    MultisetAt(es, i, y);
  }

  // ----- two slots at once -----

  /** A place in the calendar: a lab and an index into its list. */
  datatype Place = Place(k: Key, i: nat)

  /** The entry at this place counts for `owner` and covers the instant `t`; the lab `key` does not
      count, or on it just the entries with the id do not. */
  ghost predicate Covers(d: Data, owner: string, key: Key, id: Option<string>, p: Place, t: Time) {
    && p.k in d && p.i < |d[p.k]| && d[p.k][p.i].owner == owner && d[p.k][p.i].start <= t < d[p.k][p.i].end
    && !(p.k == key && (id.None? || d[p.k][p.i].id == id.value))
  }

  /** At some instant of the slot the owner has two entries already. */
  ghost predicate Crowded(d: Data, owner: string, key: Key, id: Option<string>, start: Time, end: Time) {
    exists t, p, p' ::
      start <= t < end && p != p' && Covers(d, owner, key, id, p, t) && Covers(d, owner, key, id, p', t)
  }

  function SkipOf(key: Key, id: Option<string>): Skip {
    if id.None? then SkipLab(key) else SkipEntry(key, id.value)
  }

  ghost predicate CoversIn(q: Query, k: Key, es: seq<Entry>, i: nat, t: Time) {
    i < |es| && Counted(q, k, es[i]) && es[i].start <= t < es[i].end
  }

  lemma {:induction false} ListLoadCounts(q: Query, k: Key, es: seq<Entry>, t: Time)
    ensures ListLoad(q, k, es, t) >= 1 <==> exists i :: CoversIn(q, k, es, i, t)
    ensures ListLoad(q, k, es, t) >= 2 <==> exists i, j :: i < j && CoversIn(q, k, es, i, t) && CoversIn(q, k, es, j, t)
  {
    if es != [] {
      var n := |es| - 1;
      ListLoadCounts(q, k, es[..n], t);
      forall i: nat | i < n ensures CoversIn(q, k, es, i, t) <==> CoversIn(q, k, es[..n], i, t) {
      }
      if CoversIn(q, k, es, n, t) && ListLoad(q, k, es[..n], t) >= 1 {
        var i: nat :| CoversIn(q, k, es[..n], i, t);
        assert CoversIn(q, k, es, i, t);
      }
      if ListLoad(q, k, es[..n], t) >= 2 {
        var i: nat, j: nat :| i < j && CoversIn(q, k, es[..n], i, t) && CoversIn(q, k, es[..n], j, t);
        assert CoversIn(q, k, es, i, t) && CoversIn(q, k, es, j, t);
      }
    }
  }

  ghost predicate CoversAt(q: Query, d: Data, labs: set<Key>, p: Place, t: Time) {
    p.k in labs && p.k in d && CoversIn(q, p.k, d[p.k], p.i, t)
  }

  ghost predicate CoversTwice(q: Query, d: Data, labs: set<Key>, t: Time) {
    exists p, p' :: p != p' && CoversAt(q, d, labs, p, t) && CoversAt(q, d, labs, p', t)
  }

  lemma {:induction false} LabsLoadCounts(q: Query, d: Data, labs: set<Key>, t: Time)
    requires labs <= d.Keys
    ensures LabsLoad(q, d, labs, t) >= 1 <==> exists p :: CoversAt(q, d, labs, p, t)
    ensures LabsLoad(q, d, labs, t) >= 2 <==> CoversTwice(q, d, labs, t)
    decreases labs
  {
    if labs != {} {
      var c :| c in labs;
      var rest := labs - {c};
      LabsLoadTake(q, d, labs, c, t);
      LabsLoadCounts(q, d, rest, t);
      ListLoadCounts(q, c, d[c], t);
      assert forall p :: CoversAt(q, d, labs, p, t) <==>
        (p.k == c && CoversIn(q, c, d[c], p.i, t)) || CoversAt(q, d, rest, p, t);
      LabCoversTwice(q, d, labs, c, t);
      OtherCoversToo(q, d, labs, c, t);
      if i: nat :| CoversIn(q, c, d[c], i, t) {
        assert CoversAt(q, d, labs, Place(c, i), t);
      }
    }
  }

  lemma LabCoversTwice(q: Query, d: Data, labs: set<Key>, c: Key, t: Time)
    requires c in labs && labs <= d.Keys
    ensures (exists i, j :: i < j && CoversIn(q, c, d[c], i, t) && CoversIn(q, c, d[c], j, t)) ==>
      CoversTwice(q, d, labs, t)
    ensures CoversTwice(q, d, labs - {c}, t) ==> CoversTwice(q, d, labs, t)
  {
    if i: nat, j: nat :| i < j && CoversIn(q, c, d[c], i, t) && CoversIn(q, c, d[c], j, t) {
      assert CoversAt(q, d, labs, Place(c, i), t) && CoversAt(q, d, labs, Place(c, j), t);
    }
    if p, p' :| p != p' && CoversAt(q, d, labs - {c}, p, t) && CoversAt(q, d, labs - {c}, p', t) {
      assert CoversAt(q, d, labs, p, t) && CoversAt(q, d, labs, p', t);
    }
  }

  lemma OtherCoversToo(q: Query, d: Data, labs: set<Key>, c: Key, t: Time)
    requires c in labs && labs <= d.Keys
    ensures (exists i :: CoversIn(q, c, d[c], i, t)) && (exists p :: CoversAt(q, d, labs - {c}, p, t)) ==>
      CoversTwice(q, d, labs, t)
    ensures CoversTwice(q, d, labs, t) ==>
      || CoversTwice(q, d, labs - {c}, t)
      || (exists i, j :: i < j && CoversIn(q, c, d[c], i, t) && CoversIn(q, c, d[c], j, t))
      || ((exists i :: CoversIn(q, c, d[c], i, t)) && (exists p :: CoversAt(q, d, labs - {c}, p, t)))
  {
    if (exists i :: CoversIn(q, c, d[c], i, t)) && (exists p :: CoversAt(q, d, labs - {c}, p, t)) {
      var i: nat :| CoversIn(q, c, d[c], i, t);
      var p :| CoversAt(q, d, labs - {c}, p, t);
      assert CoversAt(q, d, labs, Place(c, i), t) && CoversAt(q, d, labs, p, t);
    }
    if p, p' :| p != p' && CoversAt(q, d, labs, p, t) && CoversAt(q, d, labs, p', t) {
      if p.k == c && p'.k == c {
        var i, j := if p.i < p'.i then p.i else p'.i, if p.i < p'.i then p'.i else p.i;
        assert i < j && CoversIn(q, c, d[c], i, t) && CoversIn(q, c, d[c], j, t);
      } else if p.k == c {
        assert CoversIn(q, c, d[c], p.i, t) && CoversAt(q, d, labs - {c}, p', t);
      } else if p'.k == c {
        assert CoversIn(q, c, d[c], p'.i, t) && CoversAt(q, d, labs - {c}, p, t);
      } else {
        assert CoversAt(q, d, labs - {c}, p, t) && CoversAt(q, d, labs - {c}, p', t);
      }
    }
  }

  /** The rule on simultaneous slots, without any sum. */
  lemma FullIffCrowded(d: Data, owner: string, key: Key, id: Option<string>, start: Time, end: Time)
    ensures Full(Query(owner, SkipOf(key, id)), d, start, end) <==> Crowded(d, owner, key, id, start, end)
  {
    var q := Query(owner, SkipOf(key, id));
    forall p, t ensures CoversAt(q, d, d.Keys, p, t) <==> Covers(d, owner, key, id, p, t) {
    }
    forall t ensures Load(q, d, t) >= 2 <==> CoversTwice(q, d, d.Keys, t) {
      LabsLoadCounts(q, d, d.Keys, t);
    }
    if t :| start <= t < end && Load(q, d, t) + 1 > MAX_SIMULTANEOUS {
      var p, p' :| p != p' && CoversAt(q, d, d.Keys, p, t) && CoversAt(q, d, d.Keys, p', t);
      assert Covers(d, owner, key, id, p, t) && Covers(d, owner, key, id, p', t);
    }
    if t, p, p' :| start <= t < end && p != p' && Covers(d, owner, key, id, p, t) && Covers(d, owner, key, id, p', t) {
      assert CoversAt(q, d, d.Keys, p, t) && CoversAt(q, d, d.Keys, p', t);
      assert Load(q, d, t) >= 2;
    }
  }

  lemma CrowdedInPruned(d: Data, now: Time, owner: string, key: Key, id: Option<string>, start: Time, end: Time)
    requires start >= now
    ensures Full(Query(owner, SkipOf(key, id)), Prune(d, now), start, end) <==>
            Crowded(d, owner, key, id, start, end)
  {
    PruneAgrees(d, now);
    FullAgrees(Query(owner, SkipOf(key, id)), Prune(d, now), d, now, start, end);
    FullIffCrowded(d, owner, key, id, start, end);
  }
}
