/** Filtering, mapping and counting over sequences, with the facts the
    aggregation step needs: they distribute over concatenation and only
    depend on the multiset of their input. */
module Seqs {
  import opened Results

  function Pick<B>(o: Option<B>): seq<B>
  {
    if o.Some? then [o.value] else []
  }

  /** The elements `f` maps to `Some`, in input order. */
  function FilterMap<A, B>(s: seq<A>, f: A -> Option<B>): (r: seq<B>)
    ensures |r| <= |s|
  {
    if |s| == 0 then [] else Pick(f(s[0])) + FilterMap(s[1..], f)
  }

  lemma {:induction false} FilterMapAppend<A, B>(a: seq<A>, b: seq<A>, f: A -> Option<B>)
    ensures FilterMap(a + b, f) == FilterMap(a, f) + FilterMap(b, f)
    decreases |a|
  {
    if |a| > 0 {
      assert (a + b)[1..] == a[1..] + b;
      FilterMapAppend(a[1..], b, f);
    } else {
      assert a + b == b;
    }
  }

  lemma {:induction false} FilterMapMember<A, B>(s: seq<A>, f: A -> Option<B>, y: B)
    ensures y in FilterMap(s, f) <==> exists i :: 0 <= i < |s| && f(s[i]) == Some(y)
    decreases |s|
  {
    if |s| > 0 {
      FilterMapMember(s[1..], f, y);
      if exists i :: 0 <= i < |s| && f(s[i]) == Some(y) {
        var i :| 0 <= i < |s| && f(s[i]) == Some(y);
        if i > 0 {
          assert s[1..][i - 1] == s[i];
        }
      }
      if exists i :: 0 <= i < |s[1..]| && f(s[1..][i]) == Some(y) {
        var i :| 0 <= i < |s[1..]| && f(s[1..][i]) == Some(y);
        assert s[i + 1] == s[1..][i];
      }
    }
  }

  /** Some element mapped to `x` comes strictly before one mapped to `y`. */
  ghost predicate Precedes<A, B>(s: seq<A>, f: A -> Option<B>, x: B, y: B)
  {
    exists i, j :: 0 <= i < j < |s| && f(s[i]) == Some(x) && f(s[j]) == Some(y)
  }

  /** The results keep the order of the elements they come from. */
  lemma {:induction false} FilterMapOrder<A, B>(s: seq<A>, f: A -> Option<B>)
    ensures forall a, b :: 0 <= a < b < |FilterMap(s, f)| ==>
      Precedes(s, f, FilterMap(s, f)[a], FilterMap(s, f)[b])
    decreases |s|
  {
    var r := FilterMap(s, f);
    if |s| > 0 {
      var t := s[1..];
      var head := Pick(f(s[0]));
      var rest := FilterMap(t, f);
      assert r == head + rest;
      FilterMapOrder(t, f);
      forall a, b | 0 <= a < b < |r|
        ensures Precedes(s, f, r[a], r[b])
      {
        assert r[b] == rest[b - |head|];
        if a < |head| {
          assert r[b] in rest;
          FilterMapMember(t, f, r[b]);
          var j :| 0 <= j < |t| && f(t[j]) == Some(r[b]);
          assert f(s[0]) == Some(r[a]) && f(s[j + 1]) == Some(r[b]);
        } else {
          assert r[a] == rest[a - |head|];
          assert Precedes(t, f, rest[a - |head|], rest[b - |head|]);
          var i1, j1 :| 0 <= i1 < j1 < |t| && f(t[i1]) == Some(rest[a - |head|]) && f(t[j1]) == Some(rest[b - |head|]);
          assert f(s[i1 + 1]) == Some(r[a]) && f(s[j1 + 1]) == Some(r[b]);
        }
      }
    }
  }

  lemma {:induction false} FilterMapTotal<A, B>(s: seq<A>, f: A -> Option<B>)
    requires forall i :: 0 <= i < |s| ==> f(s[i]).Some?
    ensures |FilterMap(s, f)| == |s|
    ensures forall i :: 0 <= i < |s| ==> FilterMap(s, f)[i] == f(s[i]).value
    decreases |s|
  {
    if |s| > 0 {
      FilterMapTotal(s[1..], f);
    }
  }

  /** Everything kept unchanged, everything returned. */
  lemma {:induction false} FilterMapIdentity<A>(s: seq<A>, f: A -> Option<A>)
    requires forall i :: 0 <= i < |s| ==> f(s[i]) == Some(s[i])
    ensures FilterMap(s, f) == s
    decreases |s|
  {
    if |s| > 0 {
      FilterMapIdentity(s[1..], f);
      assert s == [s[0]] + s[1..];
    }
  }

  /** Nothing kept, nothing returned. */
  lemma {:induction false} FilterMapNone<A, B>(s: seq<A>, f: A -> Option<B>)
    requires forall i :: 0 <= i < |s| ==> f(s[i]).None?
    ensures FilterMap(s, f) == []
    decreases |s|
  {
    if |s| > 0 {
      FilterMapNone(s[1..], f);
    }
  }

  /** Permuting the input permutes the output. */
  lemma {:induction false} FilterMapPermutation<A, B>(a: seq<A>, b: seq<A>, f: A -> Option<B>)
    requires multiset(a) == multiset(b)
    ensures multiset(FilterMap(a, f)) == multiset(FilterMap(b, f))
    decreases |a|
  {
    if |a| == 0 {
      assert |multiset(b)| == 0;
      assert b == [];
    } else {
      var x := a[0];
      var k :| 0 <= k < |b| && b[k] == x by {
        assert x in multiset(a);
      }
      var p, q := b[..k], b[k + 1..];
      assert b == p + [x] + q;
      RemoveOne(a, b, k);
      FilterMapPermutation(a[1..], p + q, f);
      FilterMapRemove(p, x, q, f);
      assert FilterMap(a, f) == Pick(f(x)) + FilterMap(a[1..], f);
    }
  }

  /** Taking the head of `a` out of a permutation `b` of it, wherever it sits. */
  lemma RemoveOne<A>(a: seq<A>, b: seq<A>, k: int)
    requires multiset(a) == multiset(b) && |a| > 0 && 0 <= k < |b| && b[k] == a[0]
    ensures multiset(a[1..]) == multiset(b[..k] + b[k + 1..])
  {
    assert a == [a[0]] + a[1..];
    assert b == b[..k] + [b[k]] + b[k + 1..];
    assert multiset(b) == multiset(b[..k]) + multiset{b[k]} + multiset(b[k + 1..]);
    assert multiset(b[..k] + b[k + 1..]) == multiset(b[..k]) + multiset(b[k + 1..]);
    assert multiset(a[1..]) == multiset(a) - multiset{a[0]};
  }

  /** Dropping one element drops its result, if any. */
  lemma FilterMapRemove<A, B>(p: seq<A>, x: A, q: seq<A>, f: A -> Option<B>)
    ensures multiset(FilterMap(p + [x] + q, f)) == multiset(Pick(f(x))) + multiset(FilterMap(p + q, f))
  {
    FilterMapAppend(p + [x], q, f);
    FilterMapAppend(p, [x], f);
    FilterMapAppend(p, q, f);
    assert FilterMap([x], f) == Pick(f(x));
  }

  function Keeping<A>(p: A -> bool): A -> Option<A>
  {
    x => if p(x) then Some(x) else None
  }

  /** How many elements of `s` satisfy `p`. */
  function Count<A>(s: seq<A>, p: A -> bool): nat
  {
    |FilterMap(s, Keeping(p))|
  }

  lemma {:induction false} CountBounds<A>(s: seq<A>, p: A -> bool)
    ensures (forall i :: 0 <= i < |s| ==> p(s[i])) ==> Count(s, p) == |s|
    ensures (forall i :: 0 <= i < |s| ==> !p(s[i])) ==> Count(s, p) == 0
    ensures Count(s, p) <= |s|
    decreases |s|
  {
    if |s| > 0 {
      CountBounds(s[1..], p);
    }
  }

  lemma CountAppend<A>(a: seq<A>, b: seq<A>, p: A -> bool)
    ensures Count(a + b, p) == Count(a, p) + Count(b, p)
  {
    FilterMapAppend(a, b, Keeping(p));
  }

  lemma CountPermutation<A>(a: seq<A>, b: seq<A>, p: A -> bool)
    requires multiset(a) == multiset(b)
    ensures Count(a, p) == Count(b, p)
  {
    FilterMapPermutation(a, b, Keeping(p));
    assert |multiset(FilterMap(a, Keeping(p)))| == |multiset(FilterMap(b, Keeping(p)))|;
  }
}
