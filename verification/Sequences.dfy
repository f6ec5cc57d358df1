/** List operations that Python offers built in: comprehension filters, first-match search,
    replacement and removal by first match, and the stable `sorted(..., key=...)`. */
module Sequences {

  datatype Option<+T> = None | Some(value: T)

  /** `[x for x in s if p(x)]` */
  function Filter<T>(s: seq<T>, p: T -> bool): seq<T> {
    if s == [] then [] else if p(s[0]) then [s[0]] + Filter(s[1..], p) else Filter(s[1..], p)
  }

  /** The first element satisfying `p`, as a search loop with `break` finds it. */
  function First<T>(s: seq<T>, p: T -> bool): Option<T> {
    if s == [] then None else if p(s[0]) then Some(s[0]) else First(s[1..], p)
  }

  /** `s` with its first element satisfying `p` removed. */
  function RemoveFirst<T>(s: seq<T>, p: T -> bool): seq<T> {
    if s == [] then [] else if p(s[0]) then s[1..] else [s[0]] + RemoveFirst(s[1..], p)
  }

  /** `s` with its first element satisfying `p` replaced by `x`. */
  function ReplaceFirst<T>(s: seq<T>, p: T -> bool, x: T): seq<T> {
    if s == [] then [] else if p(s[0]) then [x] + s[1..] else [s[0]] + ReplaceFirst(s[1..], p, x)
  }

  ghost predicate SortedBy<T>(s: seq<T>, key: T -> int) {
    forall i, j :: 0 <= i < j < |s| ==> key(s[i]) <= key(s[j])
  }

  /** Insertion behind every element whose key is not larger: this is what makes the sort stable. */
  function InsertBy<T>(s: seq<T>, x: T, key: T -> int): seq<T> {
    if s == [] || key(s[|s| - 1]) <= key(x) then s + [x]
    else InsertBy(s[..|s| - 1], x, key) + [s[|s| - 1]]
  }

  /** `sorted(s, key=key)` */
  function SortBy<T>(s: seq<T>, key: T -> int): seq<T> {
    if s == [] then [] else InsertBy(SortBy(s[..|s| - 1], key), s[|s| - 1], key)
  }

  // ----- filters -----

  lemma {:induction false} FilterCons<T>(x: T, s: seq<T>, p: T -> bool)
    ensures Filter([x] + s, p) == if p(x) then [x] + Filter(s, p) else Filter(s, p)
  {
  }

  lemma {:induction false} FilterAppend<T>(a: seq<T>, b: seq<T>, p: T -> bool)
    ensures Filter(a + b, p) == Filter(a, p) + Filter(b, p)
  {
    if a == [] {
      assert a + b == b;
    } else {
      assert (a + b)[1..] == a[1..] + b;
      FilterAppend(a[1..], b, p);
      assert [a[0]] + (Filter(a[1..], p) + Filter(b, p)) == [a[0]] + Filter(a[1..], p) + Filter(b, p);
    }
  }

  lemma {:induction false} FilterSnoc<T>(s: seq<T>, i: nat, p: T -> bool)
    requires i < |s|
    ensures Filter(s[..i + 1], p) == if p(s[i]) then Filter(s[..i], p) + [s[i]] else Filter(s[..i], p)
  {
    assert s[..i + 1] == s[..i] + [s[i]];
    FilterAppend(s[..i], [s[i]], p);
  }

  lemma FilterOneMore<T>(s: seq<T>, x: T, p: T -> bool)
    ensures Filter(s + [x], p) == if p(x) then Filter(s, p) + [x] else Filter(s, p)
  {
    FilterAppend(s, [x], p);
  }

  lemma {:induction false} FilterMember<T>(s: seq<T>, p: T -> bool, x: T)
    ensures x in Filter(s, p) <==> x in s && p(x)
  {
    if s != [] {
      FilterMember(s[1..], p, x);
      assert s == [s[0]] + s[1..];
    }
  }

  lemma FilterMembers<T>(s: seq<T>, p: T -> bool)
    ensures forall x :: x in Filter(s, p) <==> x in s && p(x)
  {
  }

  lemma {:induction false} FilterAll<T>(s: seq<T>, p: T -> bool)
    requires forall x :: x in s ==> p(x)
    ensures Filter(s, p) == s
  {
    if s != [] {
      FilterAll(s[1..], p);
    }
  }

  /** Filtering by a stronger predicate absorbs an earlier weaker filter. */
  lemma {:induction false} FilterAbsorb<T>(s: seq<T>, weak: T -> bool, strong: T -> bool)
    requires forall x :: x in s && strong(x) ==> weak(x)
    ensures Filter(Filter(s, weak), strong) == Filter(s, strong)
  {
    if s != [] {
      FilterAbsorb(s[1..], weak, strong);
      FilterCons(s[0], Filter(s[1..], weak), strong);
    }
  }

  lemma {:induction false} FilterCommutes<T>(s: seq<T>, p: T -> bool, q: T -> bool)
    ensures Filter(Filter(s, p), q) == Filter(Filter(s, q), p)
  {
    if s != [] {
      FilterCommutes(s[1..], p, q);
      FilterCons(s[0], Filter(s[1..], p), q);
      FilterCons(s[0], Filter(s[1..], q), p);
    }
  }

  lemma {:induction false} FilterSorted<T>(s: seq<T>, p: T -> bool, key: T -> int)
    requires SortedBy(s, key)
    ensures SortedBy(Filter(s, p), key)
  {
    if s != [] {
      FilterSorted(s[1..], p, key);
      var f := Filter(s[1..], p);
      forall j | 0 <= j < |f| ensures key(s[0]) <= key(f[j]) {
        FilterMember(s[1..], p, f[j]);
        var k :| 0 <= k < |s[1..]| && s[1..][k] == f[j];
        assert s[k + 1] == f[j];
      }
    }
  }

  // ----- first match -----

  lemma {:induction false} FirstSome<T>(s: seq<T>, p: T -> bool)
    ensures First(s, p).Some? ==> First(s, p).value in s && p(First(s, p).value)
    ensures First(s, p).None? <==> forall x :: x in s ==> !p(x)
  {
    if s != [] {
      FirstSome(s[1..], p);
      assert s == [s[0]] + s[1..];
    }
  }

  /** A search does not notice the removal of elements it would skip anyway. */
  lemma {:induction false} FirstThroughFilter<T>(s: seq<T>, live: T -> bool, p: T -> bool)
    requires forall x :: x in s && p(x) ==> live(x)
    ensures First(Filter(s, live), p) == First(s, p)
  {
    if s != [] {
      FirstThroughFilter(s[1..], live, p);
      assert s[0] in s;
      assert ([s[0]] + Filter(s[1..], live))[1..] == Filter(s[1..], live);
    }
  }

  lemma {:induction false} RemoveThroughFilter<T>(s: seq<T>, live: T -> bool, p: T -> bool)
    requires forall x :: x in s && p(x) ==> live(x)
    ensures Filter(RemoveFirst(s, p), live) == RemoveFirst(Filter(s, live), p)
  {
    if s != [] {
      assert s[0] in s;
      RemoveThroughFilter(s[1..], live, p);
      FilterCons(s[0], RemoveFirst(s[1..], p), live);
      assert ([s[0]] + Filter(s[1..], live))[1..] == Filter(s[1..], live);
    }
  }

  lemma {:induction false} ReplaceThroughFilter<T>(s: seq<T>, live: T -> bool, p: T -> bool, x: T)
    requires forall y :: y in s && p(y) ==> live(y)
    requires live(x)
    ensures Filter(ReplaceFirst(s, p, x), live) == ReplaceFirst(Filter(s, live), p, x)
  {
    if s != [] {
      assert s[0] in s;
      ReplaceThroughFilter(s[1..], live, p, x);
      FilterCons(s[0], ReplaceFirst(s[1..], p, x), live);
      FilterCons(x, s[1..], live);
      assert ([s[0]] + Filter(s[1..], live))[1..] == Filter(s[1..], live);
    }
  }

  /** The search loop's index form of the three first-match functions. */
  lemma {:induction false} FirstAt<T>(s: seq<T>, p: T -> bool, i: nat, x: T)
    requires i < |s| && p(s[i])
    requires forall j :: 0 <= j < i ==> !p(s[j])
    ensures First(s, p) == Some(s[i])
    ensures RemoveFirst(s, p) == s[..i] + s[i + 1..]
    ensures ReplaceFirst(s, p, x) == s[i := x]
  {
    if i == 0 {
      assert s[0 := x] == [x] + s[1..];
    } else {
      var t := s[1..];
      FirstAt(t, p, i - 1, x);
      assert RemoveFirst(s, p) == [s[0]] + RemoveFirst(t, p);
      assert ReplaceFirst(s, p, x) == [s[0]] + ReplaceFirst(t, p, x);
      assert [s[0]] + (t[..i - 1] + t[i..]) == s[..i] + s[i + 1..];
      assert [s[0]] + t[i - 1 := x] == s[i := x];
    }
  }

  lemma {:induction false} FirstIndex<T>(s: seq<T>, p: T -> bool) returns (i: nat)
    requires First(s, p).Some?
    ensures i < |s| && p(s[i]) && First(s, p) == Some(s[i])
    ensures forall j :: 0 <= j < i ==> !p(s[j])
  {
    if p(s[0]) {
      i := 0;
    } else {
      var k := FirstIndex(s[1..], p);
      i := k + 1;
      forall j | 0 <= j < i ensures !p(s[j]) {
        if j > 0 { assert s[j] == s[1..][j - 1]; }
      }
    }
  }

  // ----- the stable sort -----

  lemma {:induction false} InsertMultiset<T>(s: seq<T>, x: T, key: T -> int)
    ensures multiset(InsertBy(s, x, key)) == multiset(s) + multiset{x}
  {
    if s != [] && key(s[|s| - 1]) > key(x) {
      InsertMultiset(s[..|s| - 1], x, key);
      assert s == s[..|s| - 1] + [s[|s| - 1]];
    }
  }

  lemma {:induction false} InsertSorted<T>(s: seq<T>, x: T, key: T -> int)
    requires SortedBy(s, key)
    ensures SortedBy(InsertBy(s, x, key), key)
  {
    if s != [] && key(s[|s| - 1]) > key(x) {
      var init, last := s[..|s| - 1], s[|s| - 1];
      InsertSorted(init, x, key);
      InsertMultiset(init, x, key);
      var r := InsertBy(init, x, key);
      forall k | 0 <= k < |r| ensures key(r[k]) <= key(last) {
        assert r[k] in multiset(r);
        if r[k] != x {
          assert r[k] in init;
          var j :| 0 <= j < |init| && init[j] == r[k];
          assert s[j] == r[k];
        }
      }
    }
  }

  lemma {:induction false} SortSorted<T>(s: seq<T>, key: T -> int)
    ensures SortedBy(SortBy(s, key), key)
  {
    if s != [] {
      SortSorted(s[..|s| - 1], key);
      InsertSorted(SortBy(s[..|s| - 1], key), s[|s| - 1], key);
    }
  }

  lemma {:induction false} SortPermutes<T>(s: seq<T>, key: T -> int)
    ensures multiset(SortBy(s, key)) == multiset(s)
  {
    if s != [] {
      SortPermutes(s[..|s| - 1], key);
      InsertMultiset(SortBy(s[..|s| - 1], key), s[|s| - 1], key);
      assert s == s[..|s| - 1] + [s[|s| - 1]];
    }
  }

  lemma {:induction false} SortMember<T>(s: seq<T>, key: T -> int)
    ensures forall x :: x in SortBy(s, key) <==> x in s
  {
    SortPermutes(s, key);
    forall x ensures x in SortBy(s, key) <==> x in s {
      assert x in multiset(SortBy(s, key)) <==> x in multiset(s);
    }
  }

  lemma {:induction false} SortSnoc<T>(s: seq<T>, x: T, key: T -> int)
    ensures SortBy(s + [x], key) == InsertBy(SortBy(s, key), x, key)
  {
  }

  /** Inserting and filtering can be exchanged in a sorted list. */
  lemma {:induction false} FilterInsert<T>(s: seq<T>, x: T, key: T -> int, p: T -> bool)
    requires SortedBy(s, key)
    ensures Filter(InsertBy(s, x, key), p) == if p(x) then InsertBy(Filter(s, p), x, key) else Filter(s, p)
  {
    if s == [] || key(s[|s| - 1]) <= key(x) {
      FilterInsertAtEnd(s, x, key, p);
    } else {
      var init, last := s[..|s| - 1], s[|s| - 1];
      FilterInsert(init, x, key, p);
      FilterSnoc(s, |init|, p);
      assert s[..|init| + 1] == s;
      var longer := InsertBy(init, x, key) + [last];
      FilterSnoc(longer, |longer| - 1, p);
      assert longer[..|longer| - 1] == InsertBy(init, x, key) && longer[..|longer|] == longer;
      InsertSnoc(Filter(init, p), last, x, key);
    }
  }

  lemma {:induction false} FilterInsertAtEnd<T>(s: seq<T>, x: T, key: T -> int, p: T -> bool)
    requires SortedBy(s, key)
    requires s == [] || key(s[|s| - 1]) <= key(x)
    ensures Filter(s + [x], p) == if p(x) then InsertBy(Filter(s, p), x, key) else Filter(s, p)
  {
    FilterSnoc(s + [x], |s|, p);
    assert (s + [x])[..|s|] == s && (s + [x])[..|s| + 1] == s + [x];
    var f := Filter(s, p);
    if f != [] {
      FilterMember(s, p, f[|f| - 1]);
      var j :| 0 <= j < |s| && s[j] == f[|f| - 1];
    }
  }

  lemma {:induction false} InsertSnoc<T>(s: seq<T>, last: T, x: T, key: T -> int)
    ensures key(last) > key(x) ==> InsertBy(s + [last], x, key) == InsertBy(s, x, key) + [last]
  {
  }

  lemma FilterSortSnoc<T>(s: seq<T>, x: T, key: T -> int, p: T -> bool)
    requires Filter(SortBy(s, key), p) == SortBy(Filter(s, p), key)
    ensures Filter(SortBy(s + [x], key), p) == SortBy(Filter(s + [x], p), key)
  {
    SortSorted(s, key);
    SortSnoc(s, x, key);
    FilterInsert(SortBy(s, key), x, key, p);
    SortSnoc(Filter(s, p), x, key);
    FilterOneMore(s, x, p);
  }

  /** Filtering commutes with the stable sort. */
  lemma {:induction false} FilterSort<T>(s: seq<T>, key: T -> int, p: T -> bool)
    ensures Filter(SortBy(s, key), p) == SortBy(Filter(s, p), key)
  {
    if s != [] {
      var init, last := s[..|s| - 1], s[|s| - 1];
      assert s == init + [last];
      FilterSort(init, key, p);
      FilterSortSnoc(init, last, key, p);
    }
  }

  lemma {:induction false} SortOfEqualKeys<T>(s: seq<T>, key: T -> int, k: int)
    requires forall x :: x in s ==> key(x) == k
    ensures SortBy(s, key) == s
  {
    if s != [] {
      var init, last := s[..|s| - 1], s[|s| - 1];
      assert last in s && forall x :: x in init ==> x in s;
      SortOfEqualKeys(init, key, k);
      assert init != [] ==> init[|init| - 1] in init;
      assert InsertBy(init, last, key) == init + [last];
    }
  }

  /** Elements with one key keep their order. */
  lemma SortIsStable<T>(s: seq<T>, key: T -> int, p: T -> bool, k: int)
    requires forall x :: p(x) <==> key(x) == k
    ensures Filter(SortBy(s, key), p) == Filter(s, p)
  {
    FilterSort(s, key, p);
    forall x | x in Filter(s, p) ensures key(x) == k {
      FilterMember(s, p, x);
    }
    SortOfEqualKeys(Filter(s, p), key, k);
  }

  /** Two filters in a row are one. */
  lemma {:induction false} FilterBoth<T>(s: seq<T>, p: T -> bool, q: T -> bool, both: T -> bool)
    requires forall x :: both(x) <==> p(x) && q(x)
    ensures Filter(Filter(s, p), q) == Filter(s, both)
  {
    if s != [] {
      FilterBoth(s[1..], p, q, both);
      FilterCons(s[0], Filter(s[1..], p), q);
    }
  }

  // ----- sets -----

  lemma {:induction false} SubsetSize<T>(a: set<T>, b: set<T>)
    requires a <= b
    ensures |a| <= |b|
    decreases a
  {
    if a != {} {
      var x :| x in a;
      SubsetSize(a - {x}, b - {x});
    }
  }
}
