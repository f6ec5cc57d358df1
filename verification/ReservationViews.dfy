/** Which entry the different operations mean by "the active reservation". Get takes the active
    entry with the latest start, attach the last active one, extend and release the first. */
module ReservationViews {
  import opened Sequences
  import opened Reservations
  import opened ReservationPruning
  import opened ReservationSafety

  ghost predicate OnlyActive(es: seq<Entry>, now: Time, i: nat) {
    i < |es| && forall j :: 0 <= j < |es| ==> (ActiveAt(now)(es[j]) <==> j == i)
  }

  lemma {:induction false} LastActiveIs(es: seq<Entry>, now: Time)
    ensures LastActive(es, now).None? <==> forall j :: 0 <= j < |es| ==> !ActiveAt(now)(es[j])
    ensures LastActive(es, now).Some? ==>
              exists i :: 0 <= i < |es| && es[i] == LastActive(es, now).value && ActiveAt(now)(es[i]) &&
                          forall j :: i < j < |es| ==> !ActiveAt(now)(es[j])
  {
    if es != [] {
      var n := |es| - 1;
      LastActiveIs(es[..n], now);
      if ActiveAt(now)(es[n]) {
        assert 0 <= n < |es| && es[n] == LastActive(es, now).value;
      } else if LastActive(es[..n], now).Some? {
        var i :| 0 <= i < n && es[..n][i] == LastActive(es[..n], now).value && ActiveAt(now)(es[..n][i]) &&
                 forall j :: i < j < n ==> !ActiveAt(now)(es[..n][j]);
        forall j | i < j < |es| ensures !ActiveAt(now)(es[j]) {
          assert j < n ==> es[..n][j] == es[j];
        }
        assert es[i] == LastActive(es, now).value;
      } else {
        forall j | 0 <= j < |es| ensures !ActiveAt(now)(es[j]) {
          assert j < n ==> es[..n][j] == es[j];
        }
      }
    }
  }

  lemma {:induction false} LatestActiveIs(es: seq<Entry>, now: Time)
    ensures LatestActive(es, now).None? <==> forall j :: 0 <= j < |es| ==> !ActiveAt(now)(es[j])
    ensures LatestActive(es, now).Some? ==>
              LatestActive(es, now).value in es && ActiveAt(now)(LatestActive(es, now).value) &&
              forall j :: 0 <= j < |es| && ActiveAt(now)(es[j]) ==> es[j].start <= LatestActive(es, now).value.start
  {
    if es != [] {
      var n := |es| - 1;
      LatestActiveIs(es[..n], now);
      forall j | 0 <= j < |es| && ActiveAt(now)(es[j])
        ensures LatestActive(es, now).Some? && es[j].start <= LatestActive(es, now).value.start
      {
        if j < n { assert es[..n][j] == es[j]; }
      }
    }
  }

  /** With exactly one active entry, get, attach, extend and release all mean that entry. */
  lemma ViewsAgreeOnTheOnlyActive(es: seq<Entry>, now: Time, i: nat)
    requires OnlyActive(es, now, i)
    ensures LatestActive(es, now) == Some(es[i])
    ensures LastActive(es, now) == Some(es[i])
    ensures First(es, ActiveAt(now)) == Some(es[i])
  {
    LatestActiveIs(es, now);
    LastActiveIs(es, now);
    FirstAt(es, ActiveAt(now), i, es[i]);
  }

  /** Conversely, with distinct ids the first and the last active entry differ as soon as there
      are two: release and extend then act on another entry than attach shows. */
  lemma ViewsAgreeIff(es: seq<Entry>, now: Time)
    requires forall i, j :: 0 <= i < j < |es| ==> es[i].id != es[j].id
    requires First(es, ActiveAt(now)).Some?
    ensures First(es, ActiveAt(now)) == LastActive(es, now) <==> exists i :: OnlyActive(es, now, i)
  {
    var f := FirstIndex(es, ActiveAt(now));
    LastActiveIs(es, now);
    if exists i :: OnlyActive(es, now, i) {
      var i :| OnlyActive(es, now, i);
      ViewsAgreeOnTheOnlyActive(es, now, i);
    }
    if First(es, ActiveAt(now)) == LastActive(es, now) {
      var l :| 0 <= l < |es| && es[l] == LastActive(es, now).value && ActiveAt(now)(es[l]) &&
               forall j :: l < j < |es| ==> !ActiveAt(now)(es[j]);
      assert l == f;
      assert OnlyActive(es, now, f);
    }
  }

  /** In a safe calendar two owners are both active on a lab only at the instant where one slot
      ends and the other begins. */
  lemma TwoActiveOwnersTouch(d: Data, key: Key, e: Entry, f: Entry, now: Time)
    requires Safe(d) && key in d && e in d[key] && f in d[key] && e.owner != f.owner
    requires ActiveAt(now)(e) && ActiveAt(now)(f)
    ensures (e.end == now && f.start == now) || (f.end == now && e.start == now)
  {
  }

  /** On sorted lists, get and attach may differ in the entry they pick but never in its start. */
  lemma LatestAndLastStartTogether(es: seq<Entry>, now: Time)
    requires SortedBy(es, StartOf()) && LatestActive(es, now).Some?
    ensures LastActive(es, now).Some? && LastActive(es, now).value.start == LatestActive(es, now).value.start
  {
    LatestActiveIs(es, now);
    LastActiveIs(es, now);
    var latest := LatestActive(es, now).value;
    var j :| 0 <= j < |es| && es[j] == latest;
    var l :| 0 <= l < |es| && es[l] == LastActive(es, now).value && ActiveAt(now)(es[l]) &&
             forall m :: l < m < |es| ==> !ActiveAt(now)(es[m]);
    assert j <= l;
    assert StartOf()(es[j]) <= StartOf()(es[l]);
  }

  // ----- at the level of whole calls -----

  /** Pruning first makes no difference to which entry is picked. */
  lemma PickedAfterPruning(d: Data, key: Key, now: Time)
    ensures LatestActive(Entries(Prune(d, now), key), now) == LatestActive(Entries(d, key), now)
    ensures LastActive(Entries(Prune(d, now), key), now) == LastActive(Entries(d, key), now)
    ensures First(Entries(Prune(d, now), key), ActiveAt(now)) == First(Entries(d, key), ActiveAt(now))
  {
    var es, working := Entries(d, key), Entries(Prune(d, now), key);
    PruneAgrees(d, now);
    assert SameLive(working, es, now);
    LatestActiveOfLive(es, now);
    LatestActiveOfLive(working, now);
    LastActiveOfLive(es, now);
    LastActiveOfLive(working, now);
    SearchAgrees(working, es, now, ActiveAt(now));
  }

  lemma {:induction false} CountedIfThere(es: seq<Entry>, i: nat)
    requires i < |es|
    ensures IdCount(es, es[i].id) >= 1
  {
    if i < |es| - 1 {
      CountedIfThere(es[..|es| - 1], i);
    }
  }

  lemma {:induction false} CountedOnce(es: seq<Entry>, i: nat, j: nat)
    requires i < j < |es| && es[i].id == es[j].id
    ensures IdCount(es, es[i].id) >= 2
  {
    if j == |es| - 1 {
      CountedIfThere(es[..j], i);
    } else {
      CountedOnce(es[..|es| - 1], i, j);
    }
  }

  lemma IdsPairwiseDistinct(es: seq<Entry>)
    requires forall id :: IdCount(es, id) <= 1
    ensures forall i, j :: 0 <= i < j < |es| ==> es[i].id != es[j].id
  {
    forall i, j | 0 <= i < j < |es| ensures es[i].id != es[j].id {
      if es[i].id == es[j].id {
        CountedOnce(es, i, j);
        assert false;
      }
    }
  }

  /** If exactly one entry of a lab is active, all four calls name it: get returns it, attach
      shows it, release removes it, and an accepted extension lengthens it. */
  lemma OneActiveEntryForAllCalls(d: Data, key: Key, now: Time, i: nat, additional: int)
    requires OnlyActive(Entries(d, key), now, i)
    ensures var e := Entries(d, key)[i];
      && Step(d, now, Get(key)).1 == Found(Some(e))
      && Step(d, now, Attach(key)).1.current == Some(e)
      && Step(d, now, Release(key)).1 == Found(Some(e))
      && (Step(d, now, Extend(key, additional)).1.Saved? ==>
          Step(d, now, Extend(key, additional)).1.entry == Lengthened(e, additional))
  {
    PickedAfterPruning(d, key, now);
    ViewsAgreeOnTheOnlyActive(Entries(d, key), now, i);
  }

  lemma ReleaseAndAttachPick(d: Data, key: Key, now: Time)
    ensures Step(d, now, Release(key)).1 == Found(First(Entries(d, key), ActiveAt(now)))
    ensures Step(d, now, Attach(key)).1.current == LastActive(Entries(d, key), now)
  {
    PickedAfterPruning(d, key, now);
  }

  /** In a safe calendar, attach shows the entry that release would remove exactly when it is the
      only active one. */
  lemma AttachShowsWhatReleaseRemovesIff(d: Data, key: Key, now: Time)
    requires Safe(d) && First(Entries(d, key), ActiveAt(now)).Some?
    ensures Step(d, now, Release(key)).1 == Found(Step(d, now, Attach(key)).1.current) <==>
            exists i :: OnlyActive(Entries(d, key), now, i)
  {
    ReleaseAndAttachPick(d, key, now);
    IdsPairwiseDistinct(Entries(d, key));
    ViewsAgreeIff(Entries(d, key), now);
  }
}
