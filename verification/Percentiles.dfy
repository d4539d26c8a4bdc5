/** The two percentile rules of the monitoring scripts, in exact arithmetic: nearest rank
    (trends and history) and linear interpolation (pull requests and the exporter). */
module Percentiles {
  import opened Common
  import opened Sequences

  function Same(x: int): int {
    x
  }

  // -- nearest rank -----------------------------------------------------------------

  /** The zero-based rank for the fraction num/den of n values. */
  function RankIndex(n: nat, num: nat, den: nat): (i: nat)
    requires n > 0 && den > 0
    ensures i < n
  {
    Min(Max((num * n + den - 1) / den, 1), n) - 1
  }

  function NearestRank(values: seq<int>, num: nat, den: nat): Option<int>
    requires den > 0
  {
    if values == [] then None else Some(SortBy(Same, values)[RankIndex(|values|, num, den)])
  }

  function AtMost(values: seq<int>, x: int): nat {
    Count((v: int) => v <= x, values)
  }

  function Below(values: seq<int>, x: int): nat {
    Count((v: int) => v < x, values)
  }

  lemma {:induction false} CountInsert(p: int -> bool, x: int, xs: seq<int>)
    ensures Count(p, InsertBy(Same, x, xs)) == Count(p, xs) + (if p(x) then 1 else 0)
  {
    if xs == [] || Last(xs) <= x {
      assert Front(xs + [x]) == xs;
    } else {
      CountInsert(p, x, Front(xs));
      assert Front(InsertBy(Same, x, Front(xs)) + [Last(xs)]) == InsertBy(Same, x, Front(xs));
    }
  }

  lemma {:induction false} CountSort(p: int -> bool, xs: seq<int>)
    ensures Count(p, SortBy(Same, xs)) == Count(p, xs)
  {
    if xs != [] {
      CountSort(p, Front(xs));
      CountInsert(p, Last(xs), SortBy(Same, Front(xs)));
    }
  }

  /** In sorted values the element at i has at least i + 1 not above it and at most i below. */
  lemma {:induction false} SortedCounts(s: seq<int>, i: nat, x: int)
    requires SortedBy(Same, s) && i < |s| && s[i] == x
    ensures AtMost(s, x) >= i + 1 && Below(s, x) <= i
    decreases |s|
  {
    var front := Front(s);
    assert SortedBy(Same, front);
    if i < |s| - 1 {
      SortedCounts(front, i, x);
      assert Same(s[i]) <= Same(Last(s));
    } else {
      forall v | v in front ensures v <= x {
        var k :| 0 <= k < |front| && front[k] == v;
        assert Same(s[k]) <= Same(s[i]);
      }
      AllCounted((v: int) => v <= x, front);
    }
  }

  lemma {:induction false} AllCounted(p: int -> bool, xs: seq<int>)
    requires forall x :: x in xs ==> p(x)
    ensures Count(p, xs) == |xs|
  {
    if xs != [] {
      assert xs == Front(xs) + [Last(xs)];
      assert Last(xs) in xs;
      assert forall x :: x in xs ==> p(x);
      AllCounted(p, Front(xs));
      assert Count(p, xs) == Count(p, Front(xs)) + 1;
    }
  }

  /** x is the value the fraction num/den singles out: at least that share of the values
      are not above it, and less than that share are below it. */
  predicate SingledOut(values: seq<int>, num: nat, den: nat, x: int) {
    && x in values
    && den * AtMost(values, x) >= num * |values|
    && den * Below(values, x) < num * |values|
  }

  lemma Ceiling(a: nat, den: nat)
    requires den > 0
    ensures var rank := (a + den - 1) / den; den * rank >= a && (a > 0 ==> den * (rank - 1) < a)
  {
    var rank, rest := (a + den - 1) / den, (a + den - 1) % den;
    assert a + den - 1 == den * rank + rest;
    assert den * (rank - 1) == den * rank - den;
  }

  lemma Scale(den: nat, a: int, b: int)
    requires a <= b
    ensures den * a <= den * b
  {
  }

  lemma RankBounds(n: nat, num: nat, den: nat)
    requires 0 < n && 0 < num <= den
    ensures var i := RankIndex(n, num, den); den * (i + 1) >= num * n && den * i < num * n
  {
    Ceiling(num * n, den);
    var rank := (num * n + den - 1) / den;
    assert num * n > 0;
    assert num * n <= den * n;
    if rank > n {
      Scale(den, n, rank - 1);
    }
    if rank < 1 {
      Scale(den, rank, 0);
    }
  }

  lemma CountsAroundTheRank(values: seq<int>, i: nat)
    requires i < |values|
    ensures var x := SortBy(Same, values)[i];
            x in values && AtMost(values, x) >= i + 1 && Below(values, x) <= i
  {
    var s := SortBy(Same, values);
    var x := s[i];
    SortBySorted(Same, values);
    SortedCounts(s, i, x);
    CountSort((v: int) => v <= x, values);
    CountSort((v: int) => v < x, values);
    assert x in s;
  }

  /** The nearest-rank percentile is singled out by its fraction. */
  lemma NearestRankIsSingledOut(values: seq<int>, num: nat, den: nat)
    requires values != [] && 0 < num <= den
    ensures SingledOut(values, num, den, NearestRank(values, num, den).value)
  {
    var i := RankIndex(|values|, num, den);
    CountsAroundTheRank(values, i);
    RankBounds(|values|, num, den);
    SingledOutAt(values, num, den, i, SortBy(Same, values)[i]);
  }

  lemma SingledOutAt(values: seq<int>, num: nat, den: nat, i: nat, x: int)
    requires x in values && AtMost(values, x) >= i + 1 && Below(values, x) <= i
    requires den * i < num * |values| <= den * (i + 1)
    ensures SingledOut(values, num, den, x)
  {
    Sandwich(den, i, num * |values|, AtMost(values, x), Below(values, x));
  }

  lemma Sandwich(den: nat, i: nat, target: int, atMost: nat, below: nat)
    requires den * i < target <= den * (i + 1) && below <= i < atMost
    ensures den * below < target <= den * atMost
  {
    Scale(den, i + 1, atMost);
    Scale(den, below, i);
  }

  lemma {:induction false} BelowCoversAtMost(values: seq<int>, x: int, y: int)
    requires x < y
    ensures AtMost(values, x) <= Below(values, y)
  {
    if values != [] {
      BelowCoversAtMost(Front(values), x, y);
    }
  }

  /** Nothing else is, so the two counts define it: an element of the list, the same for
      every order of the values. */
  lemma NearestRankExactly(values: seq<int>, num: nat, den: nat, x: int)
    requires values != [] && 0 < num <= den
    ensures NearestRank(values, num, den) == Some(x) <==> SingledOut(values, num, den, x)
  {
    NearestRankIsSingledOut(values, num, den);
    var y := NearestRank(values, num, den).value;
    if SingledOut(values, num, den, x) && x != y {
      var low, high := Min(x, y), Max(x, y);
      BelowCoversAtMost(values, low, high);
      Scale(den, AtMost(values, low), Below(values, high));
    }
  }

  /** The order of the values does not matter. */
  lemma NearestRankOfTheMultiset(a: seq<int>, b: seq<int>, num: nat, den: nat)
    requires den > 0 && multiset(a) == multiset(b)
    ensures NearestRank(a, num, den) == NearestRank(b, num, den)
  {
    assert |a| == |multiset(a)| == |multiset(b)| == |b|;
    SortBySorted(Same, a);
    SortBySorted(Same, b);
    SortedUnique(Same, SortBy(Same, a), SortBy(Same, b));
  }

  /** A larger fraction never gives a smaller value. */
  lemma NearestRankMonotone(values: seq<int>, num: nat, more: nat, den: nat)
    requires values != [] && 0 < num <= more <= den
    ensures NearestRank(values, num, den).value <= NearestRank(values, more, den).value
  {
    var i, j := RankIndex(|values|, num, den), RankIndex(|values|, more, den);
    SortBySorted(Same, values);
    RanksGrow(|values|, num, more, den);
    if i < j {
      assert Same(SortBy(Same, values)[i]) <= Same(SortBy(Same, values)[j]);
    }
  }

  lemma RanksGrow(n: nat, num: nat, more: nat, den: nat)
    requires n > 0 && den > 0 && num <= more
    ensures RankIndex(n, num, den) <= RankIndex(n, more, den)
  {
    Scale(n, num, more);
    var a, b := num * n + den - 1, more * n + den - 1;
    assert a <= b;
    QuotientsGrow(a, b, den);
  }

  lemma QuotientsGrow(a: int, b: int, d: nat)
    requires a <= b && d > 0
    ensures a / d <= b / d
  {
    var qa, ra, qb, rb := a / d, a % d, b / d, b % d;
    assert a == d * qa + ra && b == d * qb + rb;
    assert d * (qb + 1) == d * qb + d;
    if qb < qa {
      Scale(d, qb + 1, qa);
    }
  }

  // -- linear interpolation ------------------------------------------------------------

  /** Division by a positive number, rounded to the nearest integer, ties to even. */
  function RoundDiv(x: int, d: nat): int
    requires d > 0
  {
    var q, r := x / d, x % d;
    if 2 * r < d || (2 * r == d && q % 2 == 0) then q else q + 1
  }

  /** A hundred times the interpolated value, before rounding. */
  function Hundredfold(s: seq<int>, p: nat): int
    requires s != [] && p <= 100
  {
    var k := (|s| - 1) * p;
    Position(|s|, p);
    if k / 100 + 1 >= |s| then 100 * s[k / 100]
    else 100 * s[k / 100] + (k % 100) * (s[k / 100 + 1] - s[k / 100])
  }

  lemma Position(n: nat, p: nat)
    requires n > 0 && p <= 100
    ensures 0 <= (n - 1) * p / 100 < n
    ensures (n - 1) * p / 100 == n - 1 ==> (n - 1) * p % 100 == 0
  {
    Scale(n - 1, p, 100);
    InRange((n - 1) * p, n - 1);
  }

  lemma InRange(m: int, last: nat)
    requires 0 <= m <= 100 * last
    ensures 0 <= m / 100 <= last && (m / 100 == last ==> m % 100 == 0)
  {
  }

  /** `percentile` of already sorted whole seconds. */
  function Interpolated(s: seq<int>, p: nat): Option<int>
    requires p <= 100
  {
    if s == [] then None else Some(RoundDiv(Hundredfold(s, p), 100))
  }

  lemma RoundKeepsOrder(x: int, y: int, d: nat)
    requires d > 0 && x <= y
    ensures RoundDiv(x, d) <= RoundDiv(y, d)
  {
    var qx, rx, qy, ry := x / d, x % d, y / d, y % d;
    assert x == d * qx + rx && y == d * qy + ry;
    if qy < qx {
      Scale(d, qy + 1, qx);
    }
    if qx < qy {
      Scale(d, qx + 1, qy);
    } else {
      assert rx <= ry;
    }
  }

  lemma RoundOfMultiple(q: int, d: nat)
    requires d > 0
    ensures RoundDiv(d * q, d) == q
  {
    assert (d * q) % d == 0 && (d * q) / d == q by {
      var k, r := (d * q) / d, (d * q) % d;
      assert d * q == d * k + r;
      if k < q {
        Scale(d, k + 1, q);
      }
      if q < k {
        Scale(d, q + 1, k);
      }
    }
  }

  /** The exact value lies between the two order statistics around its position. */
  lemma HundredfoldBounds(s: seq<int>, p: nat)
    requires s != [] && p <= 100 && SortedBy(Same, s)
    ensures var k := (|s| - 1) * p / 100;
            0 <= k < |s| && 100 * s[k] <= Hundredfold(s, p) <= 100 * s[Min(k + 1, |s| - 1)]
  {
    Position(|s|, p);
    var k, r := (|s| - 1) * p / 100, (|s| - 1) * p % 100;
    if k + 1 < |s| {
      assert Same(s[k]) <= Same(s[k + 1]);
      Part(r, s[k + 1] - s[k]);
    }
  }

  lemma Part(r: int, gap: int)
    requires 0 <= r < 100 && gap >= 0
    ensures 0 <= r * gap <= 100 * gap
  {
  }

  /** The rounded value is at most half a second from the exact one. */
  lemma RoundingError(s: seq<int>, p: nat)
    requires s != [] && p <= 100
    ensures -50 <= 100 * Interpolated(s, p).value - Hundredfold(s, p) <= 50
  {
  }

  /** After rounding too, at most half a second off, and the ends are the minimum and the
      maximum. */
  lemma InterpolatedBetweenNeighbours(s: seq<int>, p: nat)
    requires s != [] && p <= 100 && SortedBy(Same, s)
    ensures var k := (|s| - 1) * p / 100;
            0 <= k < |s| && s[k] <= Interpolated(s, p).value <= s[Min(k + 1, |s| - 1)]
    ensures -50 <= 100 * Interpolated(s, p).value - Hundredfold(s, p) <= 50
    ensures Interpolated(s, 0).value == s[0] && Interpolated(s, 100).value == s[|s| - 1]
  {
    HundredfoldBounds(s, p);
    RoundingError(s, p);
    var k := (|s| - 1) * p / 100;
    RoundKeepsOrder(100 * s[k], Hundredfold(s, p), 100);
    RoundKeepsOrder(Hundredfold(s, p), 100 * s[Min(k + 1, |s| - 1)], 100);
    RoundOfMultiple(s[k], 100);
    RoundOfMultiple(s[Min(k + 1, |s| - 1)], 100);
    assert Hundredfold(s, 0) == 100 * s[0];
    assert (|s| - 1) * 100 / 100 == |s| - 1;
    assert Hundredfold(s, 100) == 100 * s[|s| - 1];
    RoundOfMultiple(s[0], 100);
    RoundOfMultiple(s[|s| - 1], 100);
  }

  /** A whole number nearest to a number of hundredths, the even one of two. */
  predicate RoundsTo(hundredths: int, value: int) {
    -50 <= 100 * value - hundredths <= 50 && (100 * value - hundredths in {-50, 50} ==> value % 2 == 0)
  }

  /** The percentile stands r hundredths of the way from the k-th of the ordered values to
      the next, rounded to the nearest whole second and to the even one of two. */
  lemma InterpolatedExactly(s: seq<int>, p: nat, k: nat, r: nat, value: int)
    requires s != [] && p <= 100 && 100 * k + r == (|s| - 1) * p && r < 100
    ensures k < |s| && (k == |s| - 1 ==> r == 0)
    ensures Interpolated(s, p) == Some(value) <==>
            RoundsTo(if k == |s| - 1 then 100 * s[k] else 100 * s[k] + r * (s[k + 1] - s[k]), value)
  {
    Position(|s|, p);
    assert (|s| - 1) * p / 100 == k && (|s| - 1) * p % 100 == r;
    RoundsExactly(Hundredfold(s, p), value);
  }

  lemma RoundsExactly(x: int, value: int)
    ensures RoundDiv(x, 100) == value <==> RoundsTo(x, value)
  {
  }

  /** The percentile never falls as p grows, across the segments and after rounding. */
  lemma InterpolatedMonotone(s: seq<int>, p: nat, q: nat)
    requires s != [] && p <= q <= 100 && SortedBy(Same, s)
    ensures Interpolated(s, p).value <= Interpolated(s, q).value
  {
    var n := |s| - 1;
    var kp, kq, rp, rq := n * p / 100, n * q / 100, n * p % 100, n * q % 100;
    Position(|s|, p);
    Position(|s|, q);
    assert n * p <= n * q by {
      Scale(n, p, q);
    }
    HundredfoldBounds(s, p);
    HundredfoldBounds(s, q);
    if kp == kq {
      if kp + 1 < |s| {
        assert Same(s[kp]) <= Same(s[kp + 1]);
        var gap := s[kp + 1] - s[kp];
        assert rp * gap <= rq * gap;
      }
    } else {
      assert kp + 1 <= kq;
      assert Same(s[kp + 1]) <= Same(s[kq]) by {
        if kp + 1 < kq {
          assert s[kp + 1] <= s[kq];
        }
      }
    }
    RoundKeepsOrder(Hundredfold(s, p), Hundredfold(s, q), 100);
  }
}
