/** Filtering, counting, stable sorting and de-duplication of sequences.
    The functions peel from the right end, so a loop that appends follows them
    one step at a time. */
module Sequences {
  function Last<T>(xs: seq<T>): T
    requires xs != []
  {
    xs[|xs| - 1]
  }

  function Front<T>(xs: seq<T>): seq<T>
    requires xs != []
  {
    xs[..|xs| - 1]
  }

  predicate Distinct<T(==)>(xs: seq<T>) {
    forall i, j :: 0 <= i < j < |xs| ==> xs[i] != xs[j]
  }

  function Filter<T(!new)>(keep: T -> bool, xs: seq<T>): (r: seq<T>)
    ensures |r| <= |xs|
    ensures forall x :: x in r <==> x in xs && keep(x)
  {
    if xs == [] then []
    else
      assert xs == Front(xs) + [Last(xs)];
      Filter(keep, Front(xs)) + (if keep(Last(xs)) then [Last(xs)] else [])
  }

  /** Filtering keeps a sequence whole when every element passes. */
  lemma {:induction false} AllKept<T(!new)>(keep: T -> bool, xs: seq<T>)
    requires forall x :: x in xs ==> keep(x)
    ensures Filter(keep, xs) == xs
  {
    if xs != [] {
      AllKept(keep, Front(xs));
      assert xs == Front(xs) + [Last(xs)];
    }
  }

  function Count<T>(p: T -> bool, xs: seq<T>): (n: nat)
    ensures n <= |xs|
  {
    if xs == [] then 0
    else Count(p, Front(xs)) + (if p(Last(xs)) then 1 else 0)
  }

  /** The members of a distinct sequence, counted. */
  lemma {:induction false} DistinctCardinality<T>(xs: seq<T>)
    requires Distinct(xs)
    ensures |set x | x in xs| == |xs|
  {
    if xs != [] {
      assert xs == Front(xs) + [Last(xs)];
      DistinctCardinality(Front(xs));
      assert (set x | x in xs) == (set x | x in Front(xs)) + {Last(xs)};
    } else {
      assert (set x | x in xs) == {};
    }
  }

  lemma SubsetSize<T>(a: set<T>, b: set<T>)
    requires a <= b
    ensures |a| <= |b|
  {
    assert b == a + (b - a);
  }

  // -- stable sorting by an integer key ---------------------------------------

  predicate SortedBy<T>(key: T -> int, xs: seq<T>) {
    forall i, j :: 0 <= i < j < |xs| ==> key(xs[i]) <= key(xs[j])
  }

  /** x goes after every element whose key is not larger: the sort is stable. */
  function InsertBy<T(!new)>(key: T -> int, x: T, xs: seq<T>): (r: seq<T>)
    ensures |r| == |xs| + 1
    ensures multiset(r) == multiset(xs) + multiset{x}
    ensures forall y :: y in r <==> y in xs || y == x
  {
    if xs == [] || key(Last(xs)) <= key(x) then
      xs + [x]
    else
      assert xs == Front(xs) + [Last(xs)];
      InsertBy(key, x, Front(xs)) + [Last(xs)]
  }

  function SortBy<T(!new)>(key: T -> int, xs: seq<T>): (r: seq<T>)
    ensures |r| == |xs|
    ensures multiset(r) == multiset(xs)
    ensures forall y :: y in r <==> y in xs
  {
    if xs == [] then []
    else
      assert xs == Front(xs) + [Last(xs)];
      InsertBy(key, Last(xs), SortBy(key, Front(xs)))
  }

  lemma {:induction false} InsertBySorted<T(!new)>(key: T -> int, x: T, xs: seq<T>)
    requires SortedBy(key, xs)
    ensures SortedBy(key, InsertBy(key, x, xs))
  {
    if xs != [] && key(Last(xs)) > key(x) {
      InsertBySorted(key, x, Front(xs));
      var r := InsertBy(key, x, Front(xs));
      forall i | 0 <= i < |r| ensures key(r[i]) <= key(Last(xs)) {
        assert r[i] in r;
      }
    }
  }

  lemma {:induction false} SortBySorted<T(!new)>(key: T -> int, xs: seq<T>)
    ensures SortedBy(key, SortBy(key, xs))
  {
    if xs != [] {
      SortBySorted(key, Front(xs));
      InsertBySorted(key, Last(xs), SortBy(key, Front(xs)));
    }
  }

  /** A sorted sequence is left alone. */
  lemma {:induction false} SortByIdentity<T(!new)>(key: T -> int, xs: seq<T>)
    requires SortedBy(key, xs)
    ensures SortBy(key, xs) == xs
  {
    if xs == [] {
      return;
    }
    var front, last := Front(xs), Last(xs);
    assert SortedBy(key, front);
    SortByIdentity(key, front);
    assert front == [] || key(Last(front)) <= key(last) by {
      if front != [] {
        assert Last(front) == xs[|xs| - 2];
      }
    }
    calc {
      SortBy(key, xs);
      InsertBy(key, last, SortBy(key, front));
      InsertBy(key, last, front);
      front + [last];
      xs;
    }
  }

  /** Filtering a sorted sequence leaves it sorted. */
  lemma {:induction false} FilterSorted<T(!new)>(key: T -> int, keep: T -> bool, xs: seq<T>)
    requires SortedBy(key, xs)
    ensures SortedBy(key, Filter(keep, xs))
  {
    if xs != [] {
      FilterSorted(key, keep, Front(xs));
      var kept := Filter(keep, Front(xs));
      forall i | 0 <= i < |kept| ensures key(kept[i]) <= key(Last(xs)) {
        assert kept[i] in Front(xs);
        var k :| 0 <= k < |Front(xs)| && Front(xs)[k] == kept[i];
        assert key(xs[k]) <= key(xs[|xs| - 1]);
      }
    }
  }

  predicate KeyDeterminesElement<T(==)>(key: T -> int, xs: seq<T>) {
    forall i, j :: 0 <= i < |xs| && 0 <= j < |xs| && key(xs[i]) == key(xs[j]) ==> xs[i] == xs[j]
  }

  lemma SameLast<T>(key: T -> int, xs: seq<T>, ys: seq<T>)
    requires SortedBy(key, xs) && SortedBy(key, ys)
    requires xs != [] && ys != [] && multiset(xs) == multiset(ys)
    requires KeyDeterminesElement(key, xs)
    ensures Last(xs) == Last(ys)
  {
    assert Last(xs) in multiset(ys) && Last(ys) in multiset(xs);
    var i :| 0 <= i < |ys| && ys[i] == Last(xs);
    var j :| 0 <= j < |xs| && xs[j] == Last(ys);
    assert key(ys[i]) <= key(Last(ys));
    assert key(xs[j]) <= key(Last(xs));
  }

  /** With pairwise different keys the sorted order is determined by the
      elements alone, so the arrival order does not matter. */
  lemma {:induction false} SortedUnique<T>(key: T -> int, xs: seq<T>, ys: seq<T>)
    requires SortedBy(key, xs) && SortedBy(key, ys)
    requires multiset(xs) == multiset(ys)
    requires KeyDeterminesElement(key, xs)
    ensures xs == ys
  {
    assert |multiset(xs)| == |xs| && |multiset(ys)| == |ys|;
    if xs != [] {
      SameLast(key, xs, ys);
      assert xs == Front(xs) + [Last(xs)];
      assert ys == Front(ys) + [Last(ys)];
      assert multiset(Front(xs)) == multiset(xs) - multiset{Last(xs)};
      assert multiset(Front(ys)) == multiset(ys) - multiset{Last(ys)};
      SortedUnique(key, Front(xs), Front(ys));
    }
  }
}
