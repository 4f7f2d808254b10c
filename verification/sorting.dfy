/**
  Sorting a copy of a sequence under a total preorder, as
  `Array.prototype.sort` does with a consistent comparator. The result is
  the unique ascending permutation of the input when the order is also
  antisymmetric.
*/
module Sorting {

  ghost predicate Total<T(!new)>(le: (T, T) -> bool)
  {
    forall a, b :: le(a, b) || le(b, a)
  }

  ghost predicate Transitive<T(!new)>(le: (T, T) -> bool)
  {
    forall a, b, c :: le(a, b) && le(b, c) ==> le(a, c)
  }

  ghost predicate Antisymmetric<T(!new)>(le: (T, T) -> bool)
  {
    forall a, b :: le(a, b) && le(b, a) ==> a == b
  }

  ghost predicate TotalPreorder<T(!new)>(le: (T, T) -> bool)
  {
    Total(le) && Transitive(le)
  }

  predicate Sorted<T>(s: seq<T>, le: (T, T) -> bool)
  {
    forall i, j :: 0 <= i < j < |s| ==> le(s[i], s[j])
  }

  function Insert<T(==,!new)>(x: T, s: seq<T>, le: (T, T) -> bool): (r: seq<T>)
    requires TotalPreorder(le) && Sorted(s, le)
    ensures Sorted(r, le)
    ensures multiset(r) == multiset(s) + multiset{x}
    ensures |r| == |s| + 1
  {
    if |s| == 0 then [x]
    else if le(x, s[0]) then [x] + s
    else
      var t := Insert(x, s[1..], le);
      assert s == [s[0]] + s[1..];
      HeadBelow(s[0], t, s[1..], x, le);
      [s[0]] + t
  }

  /** Putting `h` in front of a sorted `t` keeps it sorted when `h` is below
      every element `t` is made of. */
  lemma HeadBelow<T(!new)>(h: T, t: seq<T>, rest: seq<T>, x: T, le: (T, T) -> bool)
    requires TotalPreorder(le)
    requires forall k :: 0 <= k < |rest| ==> le(h, rest[k])
    requires !le(x, h)
    requires multiset(t) == multiset(rest) + multiset{x}
    requires Sorted(t, le)
    ensures Sorted([h] + t, le)
  {
    forall j | 0 <= j < |t|
      ensures le(h, t[j])
    {
      assert t[j] in multiset(t);
      if t[j] != x {
        assert t[j] in multiset(rest);
        var k :| 0 <= k < |rest| && rest[k] == t[j];
      }
    }
  }

  /** A sorted copy of `s`: same elements, same multiplicities, ascending. */
  function Sort<T(==,!new)>(s: seq<T>, le: (T, T) -> bool): (r: seq<T>)
    requires TotalPreorder(le)
    ensures Sorted(r, le)
    ensures multiset(r) == multiset(s)
    ensures |r| == |s|
  {
    if |s| == 0 then []
    else
      assert s == [s[0]] + s[1..];
      Insert(s[0], Sort(s[1..], le), le)
  }

  /** Two ascending sequences holding the same elements are equal: sorting
      determines its result from the multiset of its input alone. */
  lemma {:induction false} SortedUnique<T(!new)>(a: seq<T>, b: seq<T>, le: (T, T) -> bool)
    requires TotalPreorder(le) && Antisymmetric(le)
    requires Sorted(a, le) && Sorted(b, le)
    requires multiset(a) == multiset(b)
    ensures a == b
    decreases |a|
  {
    if |a| == 0 {
      assert |multiset(b)| == 0;
    } else {
      assert |b| == |multiset(b)| == |multiset(a)| == |a|;
      assert a == [a[0]] + a[1..];
      assert b == [b[0]] + b[1..];
      assert a[0] in multiset(b);
      assert b[0] in multiset(a);
      var i :| 0 <= i < |b| && b[i] == a[0];
      var j :| 0 <= j < |a| && a[j] == b[0];
      assert le(b[0], b[0]) && le(a[0], a[0]);
      assert a[0] == b[0];
      assert multiset(a) == multiset{a[0]} + multiset(a[1..]);
      assert multiset(b) == multiset{b[0]} + multiset(b[1..]);
      assert multiset(a[1..]) == multiset(a) - multiset{a[0]};
      assert multiset(b[1..]) == multiset(b) - multiset{b[0]};
      SortedUnique(a[1..], b[1..], le);
    }
  }

  /** Sorting does not depend on the order of its input. */
  lemma SortPermutation<T(!new)>(a: seq<T>, b: seq<T>, le: (T, T) -> bool)
    requires TotalPreorder(le) && Antisymmetric(le)
    requires multiset(a) == multiset(b)
    ensures Sort(a, le) == Sort(b, le)
  {
    SortedUnique(Sort(a, le), Sort(b, le), le);
  }
}
