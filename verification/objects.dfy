/**
  JavaScript plain objects used as string-keyed dictionaries. An object
  remembers the order in which its keys were first assigned, and assigning
  to an existing key replaces its value but keeps its position. For keys
  that are not array indices this is the order `Object.keys` and
  `Object.entries` report; keys such as "1" would come first, in numeric
  order, which the model does not represent.

  Every table in the system is built by assigning entries one at a time
  (`obj[k] = v`), so later writes win; `Select` is that loop. Every table
  that leaves a component is re-built in ascending key order
  (`Object.keys(obj).sort().reduce(...)`); `Emit` is that step, producing
  the ordered list of entries.
*/
module Objects {
  import opened Text
  import Sorting

  datatype RawObject<V> = RawObject(keys: seq<string>, vals: map<string, V>)

  ghost predicate Distinct<T>(s: seq<T>)
  {
    forall i, j :: 0 <= i < j < |s| ==> s[i] != s[j]
  }

  ghost predicate WellFormed<V>(o: RawObject<V>)
  {
    Distinct(o.keys) && forall k :: k in o.vals <==> k in o.keys
  }

  /** A JavaScript object: each key listed once, in insertion order. */
  type Object<V> = o: RawObject<V> | WellFormed(o) witness RawObject([], map[])

  function Empty<V>(): (r: Object<V>)
    ensures r.vals == map[] && r.keys == []
  {
    RawObject([], map[])
  }

  /** `obj[k] = v` */
  function Put<V>(o: Object<V>, k: string, v: V): (r: Object<V>)
    ensures r.vals == o.vals[k := v]
    ensures k in o.vals ==> r.keys == o.keys
    ensures k !in o.vals ==> r.keys == o.keys + [k]
  {
    if k in o.vals then RawObject(o.keys, o.vals[k := v])
    else RawObject(o.keys + [k], o.vals[k := v])
  }

  /** `Object.entries(obj)` */
  function Entries<V>(o: Object<V>): (es: seq<(string, V)>)
    ensures |es| == |o.keys|
    ensures forall i :: 0 <= i < |es| ==> es[i].0 == o.keys[i] && es[i].1 == o.vals[o.keys[i]]
  {
    seq(|o.keys|, i requires 0 <= i < |o.keys| => (o.keys[i], o.vals[o.keys[i]]))
  }

  /** Some entry's key normalises to `s`. */
  ghost predicate Occurs<V>(es: seq<(string, V)>, norm: string -> string, s: string)
  {
    exists i :: 0 <= i < |es| && norm(es[i].0) == s
  }

  /** Entry `i` is the last entry whose key normalises to `s`. */
  ghost predicate LastFor<V>(es: seq<(string, V)>, norm: string -> string, s: string, i: int)
  {
    0 <= i < |es| && norm(es[i].0) == s
    && forall j :: i < j < |es| ==> norm(es[j].0) != s
  }

  /**
    The assignment loop every adapter runs over its input:
    `for (const [k, v] of es) { const s = norm(k); if (keep(s)) obj[s] = f(v) }`.
    A key is present exactly when some entry normalises to it and is kept,
    and its value comes from the LAST such entry (later writes win).
  */
  function Select<V, W>(es: seq<(string, V)>, norm: string -> string, keep: string -> bool, f: V -> W): (r: Object<W>)
    ensures forall s :: s in r.vals <==> keep(s) && Occurs(es, norm, s)
    ensures forall s :: s in r.vals ==> exists i :: LastFor(es, norm, s, i) && r.vals[s] == f(es[i].1)
    decreases |es|
  {
    if |es| == 0 then Empty()
    else
      var init := es[..|es| - 1];
      var prev := Select(init, norm, keep, f);
      var last := es[|es| - 1];
      var r := if keep(norm(last.0)) then Put(prev, norm(last.0), f(last.1)) else prev;
      SelectKeysStep(es, init, norm, keep, f, prev, r);
      SelectValuesStep(es, init, norm, keep, f, prev, r);
      r
  }

  /** Induction step of `Select` for its keys. */
  lemma SelectKeysStep<V, W>(es: seq<(string, V)>, init: seq<(string, V)>, norm: string -> string, keep: string -> bool, f: V -> W, prev: Object<W>, r: Object<W>)
    requires |es| > 0 && init == es[..|es| - 1]
    requires forall s :: s in prev.vals <==> keep(s) && Occurs(init, norm, s)
    requires r == if keep(norm(es[|es| - 1].0)) then Put(prev, norm(es[|es| - 1].0), f(es[|es| - 1].1)) else prev
    ensures forall s :: s in r.vals <==> keep(s) && Occurs(es, norm, s)
  {
    var n := |es| - 1;
    forall s
      ensures s in r.vals <==> keep(s) && Occurs(es, norm, s)
    {
      if Occurs(es, norm, s) && norm(es[n].0) != s {
        var i :| 0 <= i < |es| && norm(es[i].0) == s;
        assert init[i] == es[i];
      }
      if Occurs(init, norm, s) {
        var i :| 0 <= i < n && norm(init[i].0) == s;
        assert es[i] == init[i];
      }
    }
  }

  /** Induction step of `Select` for its values: the last entry overrides. */
  lemma SelectValuesStep<V, W>(es: seq<(string, V)>, init: seq<(string, V)>, norm: string -> string, keep: string -> bool, f: V -> W, prev: Object<W>, r: Object<W>)
    requires |es| > 0 && init == es[..|es| - 1]
    requires forall s :: s in prev.vals ==> keep(s)
    requires forall s :: s in prev.vals ==> exists i :: LastFor(init, norm, s, i) && prev.vals[s] == f(init[i].1)
    requires r == if keep(norm(es[|es| - 1].0)) then Put(prev, norm(es[|es| - 1].0), f(es[|es| - 1].1)) else prev
    ensures forall s :: s in r.vals ==> exists i :: LastFor(es, norm, s, i) && r.vals[s] == f(es[i].1)
  {
    var n := |es| - 1;
    forall s | s in r.vals
      ensures exists i :: LastFor(es, norm, s, i) && r.vals[s] == f(es[i].1)
    {
      if keep(norm(es[n].0)) && s == norm(es[n].0) {
        assert LastFor(es, norm, s, n);
      } else {
        var i :| LastFor(init, norm, s, i) && prev.vals[s] == f(init[i].1);
        assert init[i] == es[i];
        assert LastFor(es, norm, s, i);
      }
    }
  }

  /** One more entry: it overwrites its key when kept, and is ignored otherwise. */
  lemma SelectSnoc<V, W>(es: seq<(string, V)>, e: (string, V), norm: string -> string, keep: string -> bool, f: V -> W)
    ensures keep(norm(e.0)) ==>
      Select(es + [e], norm, keep, f).vals == Select(es, norm, keep, f).vals[norm(e.0) := f(e.1)]
    ensures !keep(norm(e.0)) ==> Select(es + [e], norm, keep, f) == Select(es, norm, keep, f)
  {
    assert (es + [e])[..|es|] == es;
  }

  /** `Select` sees an entry only through its normalised key and its
      transformed value: rows that agree on both give the same object. */
  lemma {:induction false} SelectCongruent<V, W>(es: seq<(string, V)>, fs: seq<(string, V)>, norm: string -> string, keep: string -> bool, f: V -> W)
    requires |es| == |fs|
    requires forall i :: 0 <= i < |es| ==> norm(es[i].0) == norm(fs[i].0) && f(es[i].1) == f(fs[i].1)
    ensures Select(es, norm, keep, f) == Select(fs, norm, keep, f)
    decreases |es|
  {
    if |es| > 0 {
      SelectCongruent(es[..|es| - 1], fs[..|fs| - 1], norm, keep, f);
    }
  }

  /** Selecting over the entries of an object whose keys are already
      normal gives each kept key its own value, transformed. */
  lemma SelectEntries<V, W>(o: Object<V>, norm: string -> string, keep: string -> bool, f: V -> W)
    requires forall k :: k in o.vals ==> norm(k) == k
    ensures forall s :: s in Select(Entries(o), norm, keep, f).vals <==> s in o.vals && keep(s)
    ensures forall s :: s in Select(Entries(o), norm, keep, f).vals ==> Select(Entries(o), norm, keep, f).vals[s] == f(o.vals[s])
  {
    var es := Entries(o);
    SelectedFromNormal(o, norm, keep, f, es, Select(es, norm, keep, f));
  }

  /** The facts `SelectEntries` states, from those of `Entries` and `Select`. */
  lemma SelectedFromNormal<V, W>(o: Object<V>, norm: string -> string, keep: string -> bool, f: V -> W,
                                 es: seq<(string, V)>, r: Object<W>)
    requires forall k :: k in o.vals ==> norm(k) == k
    requires |es| == |o.keys|
    requires forall i :: 0 <= i < |es| ==> es[i].0 == o.keys[i] && es[i].1 == o.vals[o.keys[i]]
    requires forall s :: s in r.vals <==> keep(s) && Occurs(es, norm, s)
    requires forall s :: s in r.vals ==> exists i :: LastFor(es, norm, s, i) && r.vals[s] == f(es[i].1)
    ensures forall s :: s in r.vals <==> s in o.vals && keep(s)
    ensures forall s :: s in r.vals ==> r.vals[s] == f(o.vals[s])
  {
    forall s
      ensures s in r.vals <==> s in o.vals && keep(s)
    {
      if s in o.vals {
        var i :| 0 <= i < |o.keys| && o.keys[i] == s;
        assert norm(es[i].0) == s;
      }
    }
    forall s | s in r.vals
      ensures r.vals[s] == f(o.vals[s])
    {
      var i :| LastFor(es, norm, s, i) && r.vals[s] == f(es[i].1);
    }
  }

  /** The tail of a list without repeats has none, nor its head. */
  lemma DistinctTail<T>(ks: seq<T>)
    requires |ks| > 0 && Distinct(ks)
    ensures Distinct(ks[1..]) && ks[0] !in ks[1..]
  {
    forall i, j | 0 <= i < j < |ks[1..]|
      ensures ks[1..][i] != ks[1..][j]
    {
      assert ks[1..][i] == ks[i + 1] && ks[1..][j] == ks[j + 1];
    }
  }

  lemma {:induction false} DistinctCard(s: seq<string>)
    requires Distinct(s)
    ensures |set x | x in s| == |s|
    decreases |s|
  {
    if |s| > 0 {
      DistinctCard(s[1..]);
      assert (set x | x in s) == {s[0]} + (set x | x in s[1..]);
      assert s[0] !in s[1..];
    }
  }

  /** An object has as many keys in its key list as in its map. */
  lemma KeyCount<V>(o: Object<V>)
    ensures |o.keys| == |o.vals|
  {
    DistinctCard(o.keys);
    assert (set x | x in o.keys) == o.vals.Keys;
  }

  lemma {:induction false} DistinctMultiplicity<T>(s: seq<T>, x: T)
    requires Distinct(s)
    ensures multiset(s)[x] <= 1
    decreases |s|
  {
    if |s| > 0 {
      assert s == [s[0]] + s[1..];
      DistinctMultiplicity(s[1..], x);
      assert s[0] !in s[1..];
    }
  }

  /** A permutation of a sequence without repetitions has none either. */
  lemma DistinctPermutation<T>(a: seq<T>, b: seq<T>)
    requires Distinct(a) && multiset(a) == multiset(b)
    ensures Distinct(b)
  {
    forall i, j | 0 <= i < j < |b|
      ensures b[i] != b[j]
    {
      if b[i] == b[j] {
        assert b == b[..i] + [b[i]] + b[i + 1..j] + [b[j]] + b[j + 1..];
        assert multiset(b)[b[i]] >= 2;
        DistinctMultiplicity(a, b[i]);
        assert false;
      }
    }
  }

  /** Two sequences without repetitions that hold the same elements are
      permutations of each other. */
  lemma DistinctSameElements<T>(a: seq<T>, b: seq<T>)
    requires Distinct(a) && Distinct(b)
    requires forall x :: x in a <==> x in b
    ensures multiset(a) == multiset(b)
  {
    forall x
      ensures multiset(a)[x] == multiset(b)[x]
    {
      DistinctMultiplicity(a, x);
      DistinctMultiplicity(b, x);
      assert x in a <==> x in multiset(a);
      assert x in b <==> x in multiset(b);
    }
  }

  /** Keys strictly ascending: each appears once, in sorted order. */
  ghost predicate StrictlyAscending<V>(es: seq<(string, V)>)
  {
    forall i, j :: 0 <= i < j < |es| ==> LexLt(es[i].0, es[j].0)
  }

  /** The list holds exactly the entries of `m`. */
  ghost predicate ListsExactly<V>(es: seq<(string, V)>, m: map<string, V>)
  {
    (forall i :: 0 <= i < |es| ==> es[i].0 in m && m[es[i].0] == es[i].1)
    && (forall k :: k in m ==> exists i :: 0 <= i < |es| && es[i].0 == k)
  }

  /**
    `Object.keys(obj).sort().reduce((out, k) => { out[k] = obj[k]; return out }, {})`:
    the entries of `obj` re-listed in ascending key order, values unchanged.
  */
  function Emit<V>(o: Object<V>): (r: seq<(string, V)>)
    ensures StrictlyAscending(r)
    ensures ListsExactly(r, o.vals)
    ensures |r| == |o.vals|
  {
    var ks := SortKeys(o.keys);
    var r := seq(|ks|, i requires 0 <= i < |ks| => (ks[i], o.vals[ks[i]]));
    EmitFacts(o, ks, r);
    r
  }

  /** `keys.sort()` with JavaScript's default string order. */
  function SortKeys(keys: seq<string>): (ks: seq<string>)
    ensures Sorting.Sorted(ks, LexLe)
    ensures multiset(ks) == multiset(keys)
    ensures forall k :: k in ks ==> k in keys
  {
    LexLeIsTotalOrder();
    var ks := Sorting.Sort(keys, LexLe);
    assert forall k :: k in ks ==> k in multiset(keys);
    ks
  }

  lemma EmitFacts<V>(o: Object<V>, ks: seq<string>, r: seq<(string, V)>)
    requires Sorting.Sorted(ks, LexLe) && multiset(ks) == multiset(o.keys)
    requires forall k :: k in ks ==> k in o.vals
    requires |r| == |ks| && forall i :: 0 <= i < |ks| ==> r[i] == (ks[i], o.vals[ks[i]])
    ensures StrictlyAscending(r)
    ensures ListsExactly(r, o.vals)
    ensures |r| == |o.vals|
  {
    DistinctPermutation(o.keys, ks);
    KeyCount(o);
    assert |ks| == |multiset(ks)| == |multiset(o.keys)| == |o.keys|;
    forall k | k in o.vals
      ensures exists i :: 0 <= i < |r| && r[i].0 == k
    {
      assert k in multiset(ks);
      var i :| 0 <= i < |ks| && ks[i] == k;
      assert r[i].0 == k;
    }
    forall i | 0 <= i < |r|
      ensures r[i].0 in o.vals
    {
      assert ks[i] in multiset(o.keys);
    }
  }

  /** The emitted list depends only on the object's contents, not on the
      order in which its keys were inserted. */
  lemma EmitIgnoresInsertionOrder<V>(a: Object<V>, b: Object<V>)
    requires a.vals == b.vals
    ensures Emit(a) == Emit(b)
  {
    DistinctSameElements(a.keys, b.keys);
    LexLeIsTotalOrder();
    Sorting.SortedUnique(SortKeys(a.keys), SortKeys(b.keys), LexLe);
  }
}
