/**
  The median of a provider consensus: sort a copy of the values in
  ascending numeric order and take the middle one, or the mean of the two
  middle ones when there is an even number of values.
*/
module Median {
  import opened Sorting
  import opened Seqs

  /** The comparator `(a, b) => a - b`: `a` sorts before `b` when `a - b <= 0`. */
  predicate RealLe(a: real, b: real)
  {
    a - b <= 0.0
  }

  lemma RealLeIsTotalOrder()
    ensures TotalPreorder(RealLe) && Antisymmetric(RealLe)
  {
  }

  /** `[...values].sort((a, b) => a - b)` */
  function SortValues(values: seq<real>): (s: seq<real>)
    ensures Sorted(s, RealLe) && multiset(s) == multiset(values) && |s| == |values|
  {
    RealLeIsTotalOrder();
    Sort(values, RealLe)
  }

  /** The middle element of an ascending sequence, or the mean of the two
      middle elements when the length is even. */
  function Middle(sorted: seq<real>): (m: real)
    requires |sorted| > 0 && Sorted(sorted, RealLe)
    ensures sorted[0] <= m <= sorted[|sorted| - 1]
  {
    var mid := |sorted| / 2;
    assert RealLe(sorted[0], sorted[mid]) && RealLe(sorted[mid], sorted[|sorted| - 1]);
    if |sorted| % 2 != 0 then sorted[mid]
    else
      assert RealLe(sorted[0], sorted[mid - 1]);
      (sorted[mid - 1] + sorted[mid]) / 2.0
  }

  /** The median: never below the smallest value nor above the largest. */
  function Median(values: seq<real>): (m: real)
    requires |values| > 0
    ensures exists i :: 0 <= i < |values| && values[i] <= m
    ensures exists j :: 0 <= j < |values| && m <= values[j]
  {
    var sorted := SortValues(values);
    assert sorted[0] in multiset(values) && sorted[|sorted| - 1] in multiset(values);
    Middle(sorted)
  }

  /** The median read off any ascending arrangement of the values. */
  lemma MedianOfSorted(values: seq<real>, sorted: seq<real>)
    requires |values| > 0
    requires Sorted(sorted, RealLe) && multiset(sorted) == multiset(values)
    ensures |sorted| == |values|
    ensures |sorted| % 2 != 0 ==> Median(values) == sorted[|sorted| / 2]
    ensures |sorted| % 2 == 0 ==>
      Median(values) == (sorted[|sorted| / 2 - 1] + sorted[|sorted| / 2]) / 2.0
  {
    RealLeIsTotalOrder();
    assert |sorted| == |multiset(sorted)| == |multiset(values)| == |values|;
    SortedUnique(SortValues(values), sorted, RealLe);
    assert Median(values) == Middle(sorted);
  }

  /** The median depends only on the multiset of values, not their order. */
  lemma MedianPermutation(a: seq<real>, b: seq<real>)
    requires |a| > 0 && multiset(a) == multiset(b)
    ensures |b| > 0 && Median(a) == Median(b)
  {
    RealLeIsTotalOrder();
    assert |b| == |multiset(b)| == |multiset(a)| == |a|;
    SortPermutation(a, b, RealLe);
    assert SortValues(a) == SortValues(b);
  }

  function Below(x: real): real -> bool
  {
    y => y < x
  }

  function AtMost(x: real): real -> bool
  {
    y => y <= x
  }

  /** `x` is the `k`-th smallest of `values` (counting from 1, with
      repetitions): fewer than `k` values are below it, and at least `k`
      are at most it. */
  ghost predicate IsOrderStatistic(values: seq<real>, k: int, x: real)
  {
    x in values && Count(values, Below(x)) < k <= Count(values, AtMost(x))
  }

  /** `lo` and `hi` are the two middle order statistics of an even number
      of values. */
  ghost predicate MiddlePair(values: seq<real>, lo: real, hi: real)
  {
    IsOrderStatistic(values, |values| / 2, lo) && IsOrderStatistic(values, |values| / 2 + 1, hi)
  }

  /** There is only one `k`-th smallest value. */
  lemma OrderStatisticUnique(values: seq<real>, k: int, x: real, y: real)
    requires IsOrderStatistic(values, k, x) && IsOrderStatistic(values, k, y)
    ensures x == y
  {
    if x < y {
      CountMonotone(values, AtMost(x), Below(y));
      assert false;
    } else if y < x {
      CountMonotone(values, AtMost(y), Below(x));
      assert false;
    }
  }

  /** A predicate implied by another holds of at least as many elements. */
  lemma {:induction false} CountMonotone(s: seq<real>, p: real -> bool, q: real -> bool)
    requires forall y :: p(y) ==> q(y)
    ensures Count(s, p) <= Count(s, q)
    decreases |s|
  {
    if |s| > 0 {
      CountMonotone(s[1..], p, q);
    }
  }

  /** In an ascending sequence the element at index `k - 1` is the
      `k`-th smallest. */
  lemma SortedOrderStatistic(s: seq<real>, k: int)
    requires Sorted(s, RealLe) && 1 <= k <= |s|
    ensures IsOrderStatistic(s, k, s[k - 1])
  {
    SortedBelowCount(s, k);
    SortedAtMostCount(s, k);
  }

  /** Only the elements before index `k - 1` can lie below it. */
  lemma SortedBelowCount(s: seq<real>, k: int)
    requires Sorted(s, RealLe) && 1 <= k <= |s|
    ensures Count(s, Below(s[k - 1])) < k
  {
    var x := s[k - 1];
    var pre, post := s[..k - 1], s[k - 1..];
    assert s == pre + post;
    CountAppend(pre, post, Below(x));
    CountBounds(pre, Below(x));
    NoneBelowAfter(s, k, post);
    CountBounds(post, Below(x));
  }

  lemma NoneBelowAfter(s: seq<real>, k: int, post: seq<real>)
    requires Sorted(s, RealLe) && 1 <= k <= |s| && post == s[k - 1..]
    ensures forall i :: 0 <= i < |post| ==> !Below(s[k - 1])(post[i])
  {
    forall i | 0 <= i < |post|
      ensures !Below(s[k - 1])(post[i])
    {
      assert post[i] == s[k - 1 + i];
      if i > 0 {
        assert RealLe(s[k - 1], s[k - 1 + i]);
      }
    }
  }

  /** Every element up to index `k - 1` is at most it. */
  lemma SortedAtMostCount(s: seq<real>, k: int)
    requires Sorted(s, RealLe) && 1 <= k <= |s|
    ensures k <= Count(s, AtMost(s[k - 1]))
  {
    var x := s[k - 1];
    var pre, post := s[..k], s[k..];
    assert s == pre + post;
    CountAppend(pre, post, AtMost(x));
    forall i | 0 <= i < |pre|
      ensures AtMost(x)(pre[i])
    {
      assert pre[i] == s[i];
      if i < k - 1 {
        assert RealLe(s[i], s[k - 1]);
      }
    }
    CountBounds(pre, AtMost(x));
  }

  /** The `k`-th smallest does not depend on the order of the values. */
  lemma OrderStatisticPermutation(a: seq<real>, b: seq<real>, k: int, x: real)
    requires multiset(a) == multiset(b) && IsOrderStatistic(a, k, x)
    ensures IsOrderStatistic(b, k, x)
  {
    CountPermutation(a, b, Below(x));
    CountPermutation(a, b, AtMost(x));
    assert x in multiset(a);
  }

  /** For an odd number of values the median is the middle order statistic. */
  lemma MedianOdd(values: seq<real>)
    requires |values| % 2 == 1
    ensures IsOrderStatistic(values, |values| / 2 + 1, Median(values))
  {
    var s := SortValues(values);
    assert Median(values) == s[|s| / 2];
    SortedStatistic(values, s, |s| / 2 + 1);
  }

  /** Position `k - 1` of any ascending arrangement of the values is their
      `k`-th smallest. */
  lemma SortedStatistic(values: seq<real>, s: seq<real>, k: int)
    requires Sorted(s, RealLe) && multiset(s) == multiset(values) && 1 <= k <= |s|
    ensures IsOrderStatistic(values, k, s[k - 1])
  {
    SortedOrderStatistic(s, k);
    OrderStatisticPermutation(s, values, k, s[k - 1]);
  }

  /** For an even number of values the median is the mean of the two middle
      order statistics. */
  lemma MedianEven(values: seq<real>)
    requires |values| > 0 && |values| % 2 == 0
    ensures exists lo, hi :: MiddlePair(values, lo, hi) && lo <= hi && Median(values) == (lo + hi) / 2.0
  {
    MiddleOfEven(values);
    EvenOfSorted(values, SortValues(values), Median(values));
  }

  /** The two central elements of an ascending arrangement of an even
      number of values are their middle order statistics. */
  lemma EvenOfSorted(values: seq<real>, s: seq<real>, m: real)
    requires Sorted(s, RealLe) && multiset(s) == multiset(values)
    requires |s| > 0 && |s| % 2 == 0
    requires s[|s| / 2 - 1] <= s[|s| / 2] && m == (s[|s| / 2 - 1] + s[|s| / 2]) / 2.0
    ensures exists lo, hi :: MiddlePair(values, lo, hi) && lo <= hi && m == (lo + hi) / 2.0
  {
    var h := |s| / 2;
    assert |values| == |multiset(values)| == |s|;
    SortedStatistic(values, s, h);
    SortedStatistic(values, s, h + 1);
    assert MiddlePair(values, s[h - 1], s[h]);
  }

  lemma MiddleOfEven(values: seq<real>)
    requires |values| > 0 && |values| % 2 == 0
    ensures var s := SortValues(values); var h := |s| / 2;
      1 <= h && s[h - 1] <= s[h] && Median(values) == (s[h - 1] + s[h]) / 2.0
  {
    var s := SortValues(values);
    assert RealLe(s[|s| / 2 - 1], s[|s| / 2]);
  }

  /** A single value is its own median. */
  lemma MedianSingle(x: real)
    ensures Median([x]) == x
  {
    MedianOfSorted([x], [x]);
  }

  /** `median([3, 1, 2])` is 2. */
  lemma MedianOddExample(values: seq<real>)
    requires values == [3.0, 1.0, 2.0]
    ensures Median(values) == 2.0
  {
    var sorted := [1.0, 2.0, 3.0];
    Arranged3(values, sorted);
    MedianOfSorted(values, sorted);
  }

  /** `median([4, 1, 3, 2])` is 2.5. */
  lemma MedianEvenExample(values: seq<real>)
    requires values == [4.0, 1.0, 3.0, 2.0]
    ensures Median(values) == 2.5
  {
    var sorted := [1.0, 2.0, 3.0, 4.0];
    Arranged4(values, sorted);
    MedianOfSorted(values, sorted);
  }

  lemma Arranged3(values: seq<real>, sorted: seq<real>)
    requires values == [3.0, 1.0, 2.0] && sorted == [1.0, 2.0, 3.0]
    ensures |values| > 0 && Sorted(sorted, RealLe) && multiset(sorted) == multiset(values)
    ensures sorted[|sorted| / 2] == 2.0 && |sorted| % 2 != 0
  {
    assert multiset(sorted) == multiset(values);
  }

  lemma Arranged4(values: seq<real>, sorted: seq<real>)
    requires values == [4.0, 1.0, 3.0, 2.0] && sorted == [1.0, 2.0, 3.0, 4.0]
    ensures |values| > 0 && Sorted(sorted, RealLe) && multiset(sorted) == multiset(values)
    ensures (sorted[|sorted| / 2 - 1] + sorted[|sorted| / 2]) / 2.0 == 2.5 && |sorted| % 2 == 0
  {
    assert multiset(sorted) == multiset(values);
  }

  /** `median([10, 20])` is 15. */
  lemma MedianPairExample(values: seq<real>)
    requires values == [10.0, 20.0]
    ensures Median(values) == 15.0
  {
    Arranged2(values);
    MedianOfSorted(values, values);
  }

  lemma Arranged2(values: seq<real>)
    requires values == [10.0, 20.0]
    ensures |values| > 0 && Sorted(values, RealLe)
    ensures (values[|values| / 2 - 1] + values[|values| / 2]) / 2.0 == 15.0 && |values| % 2 == 0
  {
  }
}
