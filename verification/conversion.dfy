/**
  What every provider adapter shares: the failure it reports when a pivot
  rate is unusable, the "first occurrence wins" loop the two crypto
  price adapters run, and the final step that lists the rates in
  ascending key order. All rates are "units of X per 1 CHF".
*/
module Conversion {
  import opened Numbers
  import opened Text
  import opened Objects
  import opened Results

  datatype Error =
    | PivotNotFound(code: string)       // the pivot rate is missing, zero or NaN
    | ReferenceNotFound(code: string)   // no reference currency with this symbol
    | ReferenceRateUnusable             // the reference rate gives no finite, non-zero factor

  /** A rates object under construction: currency code to rate. */
  type Rates = Object<Num>

  /** `const p = table[code]; if (!p) throw ...` passes exactly when the
      entry exists and is neither zero nor NaN. */
  predicate PivotUsable(m: map<string, Num>, code: string)
  {
    code in m && Truthy(m[code])
  }

  /** The value transform of adapters that copy rates as they are. */
  function Unchanged(x: Num): Num
  {
    x
  }

  /** `for (const [c, x] of Object.entries(src)) { if (!(c in tracked)) continue; rates[c] = f(x) }`:
      the tracked codes of `src`, each with its own value transformed. */
  function ConvertTracked(src: Rates, tracked: set<string>, f: Num -> Num): (r: Rates)
    ensures forall c :: c in r.vals <==> c in src.vals && c in tracked
    ensures forall c :: c in r.vals ==> r.vals[c] == f(src.vals[c])
  {
    var keep := (c: string) => c in tracked;
    SelectEntries(src, AsSpelt, keep, f);
    Select(Entries(src), AsSpelt, keep, f)
  }

  /** Each tracked code of `src` divided by a pivot: `rates[c] = src[c] / pivot`. */
  function DivideTracked(src: Rates, tracked: set<string>, pivot: Num): (r: Rates)
    ensures forall c :: c in r.vals <==> c in src.vals && c in tracked
    ensures forall c :: c in r.vals ==> r.vals[c] == Div(src.vals[c], pivot)
  {
    ConvertTracked(src, tracked, x => Div(x, pivot))
  }

  /** A pivot divided by each tracked code of `src`: `rates[c] = pivot / src[c]`. */
  function InvertTracked(src: Rates, tracked: set<string>, pivot: Num): (r: Rates)
    ensures forall c :: c in r.vals <==> c in src.vals && c in tracked
    ensures forall c :: c in r.vals ==> r.vals[c] == Div(pivot, src.vals[c])
  {
    ConvertTracked(src, tracked, x => Div(pivot, x))
  }

  /**
    The direct-copy step of the adapters whose provider already quotes
    units per 1 CHF: `for ([k, v] of es) { s = k.toUpperCase(); if (s in tracked) rates[s] = +v }`.
    A code is present exactly when it is tracked and some key upper-cases
    to it; its value is copied unchanged from the last such key.
  */
  function CopyTracked(es: seq<(string, Num)>, tracked: set<string>): (r: Rates)
    ensures forall s :: s in r.vals <==> s in tracked && Occurs(es, Upper, s)
    ensures forall s :: s in r.vals ==> exists i :: LastFor(es, Upper, s, i) && r.vals[s] == es[i].1
  {
    var keep := (s: string) => s in tracked;
    Select(es, Upper, keep, Unchanged)
  }

  /** Tracking more codes changes nothing about the codes already tracked. */
  lemma CopyTrackedMonotone(es: seq<(string, Num)>, small: set<string>, big: set<string>, s: string)
    requires small <= big && s in small
    ensures s in CopyTracked(es, small).vals <==> s in CopyTracked(es, big).vals
    ensures s in CopyTracked(es, small).vals ==> CopyTracked(es, small).vals[s] == CopyTracked(es, big).vals[s]
  {
    SameLastEntry(es, s, CopyTracked(es, small), CopyTracked(es, big));
  }

  /** Two copies that both hold `s` took it from the same, last, entry. */
  lemma SameLastEntry(es: seq<(string, Num)>, s: string, a: Rates, b: Rates)
    requires s in a.vals ==> exists i :: LastFor(es, Upper, s, i) && a.vals[s] == es[i].1
    requires s in b.vals ==> exists i :: LastFor(es, Upper, s, i) && b.vals[s] == es[i].1
    ensures s in a.vals && s in b.vals ==> a.vals[s] == b.vals[s]
  {
    if s in a.vals && s in b.vals {
      var i :| LastFor(es, Upper, s, i) && a.vals[s] == es[i].1;
      var j :| LastFor(es, Upper, s, j) && b.vals[s] == es[j].1;
      assert !(i < j) && !(j < i);
    }
  }

  /** Copying from an object: a tracked code is present exactly when some
      key of the source upper-cases to it, and its value is that of the last
      such key in `Object.entries` order. */
  function CopyObject(src: Rates, tracked: set<string>): (r: Rates)
    ensures forall s :: s in r.vals <==> s in tracked && exists k :: k in src.vals && Upper(k) == s
    ensures forall s :: s in r.vals ==> exists k :: k in src.vals && Upper(k) == s && r.vals[s] == src.vals[k]
    ensures forall s :: s in r.vals ==>
      exists i :: LastFor(Entries(src), Upper, s, i) && r.vals[s] == src.vals[src.keys[i]]
  {
    var es := Entries(src);
    var r := CopyTracked(es, tracked);
    CopiedFromKeys(src, tracked, es, r);
    r
  }

  /** The facts `CopyObject` states, from those of `Entries` and `CopyTracked`. */
  lemma CopiedFromKeys(src: Rates, tracked: set<string>, es: seq<(string, Num)>, r: Rates)
    requires |es| == |src.keys|
    requires forall i :: 0 <= i < |es| ==> es[i].0 == src.keys[i] && es[i].1 == src.vals[src.keys[i]]
    requires forall s :: s in r.vals <==> s in tracked && Occurs(es, Upper, s)
    requires forall s :: s in r.vals ==> exists i :: LastFor(es, Upper, s, i) && r.vals[s] == es[i].1
    ensures forall s :: s in r.vals <==> s in tracked && exists k :: k in src.vals && Upper(k) == s
    ensures forall s :: s in r.vals ==> exists k :: k in src.vals && Upper(k) == s && r.vals[s] == src.vals[k]
    ensures forall s :: s in r.vals ==> exists i :: LastFor(es, Upper, s, i) && r.vals[s] == src.vals[src.keys[i]]
  {
    forall s
      ensures s in r.vals <==> s in tracked && exists k :: k in src.vals && Upper(k) == s
    {
      if s in tracked && exists k :: k in src.vals && Upper(k) == s {
        var k :| k in src.vals && Upper(k) == s;
        var i :| 0 <= i < |src.keys| && src.keys[i] == k;
        assert Upper(es[i].0) == s;
      }
    }
    forall s | s in r.vals
      ensures exists k :: k in src.vals && Upper(k) == s && r.vals[s] == src.vals[k]
    {
      var i :| LastFor(es, Upper, s, i) && r.vals[s] == es[i].1;
      assert src.keys[i] in src.vals;
    }
  }

  /** When every source key is already upper case, copying is restriction:
      the tracked codes of the source, each with its own value. */
  lemma CopyUpperIsRestriction(src: Rates, tracked: set<string>)
    requires forall k :: k in src.vals ==> IsUpper(k)
    ensures CopyObject(src, tracked).vals == map c | c in src.vals && c in tracked :: src.vals[c]
  {
    forall k | k in src.vals
      ensures Upper(k) == k
    {
      UpperFixesUpper(k);
    }
    RestrictedCopy(src, tracked, CopyObject(src, tracked));
  }

  lemma RestrictedCopy(src: Rates, tracked: set<string>, r: Rates)
    requires forall k :: k in src.vals ==> Upper(k) == k
    requires forall s :: s in r.vals <==> s in tracked && exists k :: k in src.vals && Upper(k) == s
    requires forall s :: s in r.vals ==> exists k :: k in src.vals && Upper(k) == s && r.vals[s] == src.vals[k]
    ensures r.vals == map c | c in src.vals && c in tracked :: src.vals[c]
  {
    var m := map c | c in src.vals && c in tracked :: src.vals[c];
    forall s
      ensures s in r.vals <==> s in m
    {
      if s in m {
        assert Upper(s) == s;
      }
    }
    forall s | s in r.vals
      ensures r.vals[s] == m[s]
    {
      var k :| k in src.vals && Upper(k) == s && r.vals[s] == src.vals[k];
    }
  }

  /**
    The "pivot over X" step shared by the adapters whose table quotes the
    home currency per unit of X: fail unless the table's CHF entry is usable,
    then `rates[X] = t[CHF] / t[X]` for each tracked X, and the home currency
    itself, when tracked, is `t[CHF]` (one CHF buys that many home units).
  */
  function InvertViaChf(t: Rates, tracked: set<string>, home: string): (r: Result<Rates, Error>)
    ensures r.Failure? <==> !PivotUsable(t.vals, "CHF")
    ensures r.Failure? ==> r.error == PivotNotFound("CHF")
    ensures r.Success? ==> forall c :: c in r.value.vals <==> c in tracked && (c in t.vals || c == home)
    ensures r.Success? ==> forall c :: c in r.value.vals && c != home ==> r.value.vals[c] == Div(t.vals["CHF"], t.vals[c])
    ensures r.Success? && home in tracked ==> r.value.vals[home] == t.vals["CHF"]
  {
    if !PivotUsable(t.vals, "CHF") then Failure(PivotNotFound("CHF"))
    else
      var perChf := t.vals["CHF"];
      var rates := InvertTracked(t, tracked, perChf);
      var out := if home in tracked then Put(rates, home, perChf) else rates;
      HomeAdded(t, tracked, home, perChf, rates, out);
      Success(out)
  }

  /** Adding the home currency, when tracked, to rates converted from `t`:
      every other code keeps its converted value. */
  lemma HomeAdded(t: Rates, tracked: set<string>, home: string, v: Num, rates: Rates, out: Rates)
    requires forall c :: c in rates.vals <==> c in t.vals && c in tracked
    requires out.vals == if home in tracked then rates.vals[home := v] else rates.vals
    ensures forall c :: c in out.vals <==> c in tracked && (c in t.vals || c == home)
    ensures forall c :: c in out.vals && c != home ==> c in rates.vals && out.vals[c] == rates.vals[c]
    ensures home in tracked ==> out.vals[home] == v
  {
  }

  /** The adapter's result as written out: the same failure, or the rates
      listed in ascending key order with unchanged values. */
  function Published(r: Result<Rates, Error>): (out: Result<seq<(string, Num)>, Error>)
    ensures out.Success? <==> r.Success?
    ensures r.Failure? ==> out == Failure(r.error)
    ensures r.Success? ==> StrictlyAscending(out.value) && ListsExactly(out.value, r.value.vals)
    ensures r.Success? ==> |out.value| == |r.value.vals|
  {
    match r
    case Failure(e) => Failure(e)
    case Success(rates) => Success(Emit(rates))
  }

  /** Item `i` is a listing of `s` that the crypto adapters can use: its
      symbol upper-cases to `s` and its price is neither zero nor NaN. */
  ghost predicate Usable(items: seq<(string, Num)>, s: string, i: int)
  {
    0 <= i < |items| && Upper(items[i].0) == s && Truthy(items[i].1)
  }

  /** Item `i` is the first usable listing of `s`. */
  ghost predicate FirstUsable(items: seq<(string, Num)>, s: string, i: int)
  {
    Usable(items, s, i) && forall j :: 0 <= j < i ==> !Usable(items, s, j)
  }

  /**
    The crypto price loop:
    `for (item of items) { s = upper(symbol); if (!keep(s)) continue;
       if (s in rates) continue; if (!price) continue; rates[s] = f(price) }`.
    A symbol is present exactly when it is kept and has a usable listing,
    and its rate comes from the FIRST usable listing: earlier duplicates
    block later ones, but a skipped zero/NaN price blocks nothing.
  */
  function FirstWins(items: seq<(string, Num)>, keep: string -> bool, f: Num -> Num): (r: Rates)
    ensures forall s :: s in r.vals <==> keep(s) && exists i :: Usable(items, s, i)
    ensures forall s :: s in r.vals ==> exists i :: FirstUsable(items, s, i) && r.vals[s] == f(items[i].1)
    decreases |items|
  {
    if |items| == 0 then Empty()
    else
      var init := items[..|items| - 1];
      var prev := FirstWins(init, keep, f);
      var last := items[|items| - 1];
      var s := Upper(last.0);
      var r := if !keep(s) || s in prev.vals || !Truthy(last.1) then prev else Put(prev, s, f(last.1));
      FirstWinsKeysStep(items, init, keep, f, prev, r);
      FirstWinsValuesStep(items, init, keep, f, prev, r);
      r
  }

  lemma FirstWinsKeysStep(items: seq<(string, Num)>, init: seq<(string, Num)>, keep: string -> bool, f: Num -> Num, prev: Rates, r: Rates)
    requires |items| > 0 && init == items[..|items| - 1]
    requires forall s :: s in prev.vals <==> keep(s) && exists i :: Usable(init, s, i)
    requires var last := items[|items| - 1]; var s := Upper(last.0);
      r == if !keep(s) || s in prev.vals || !Truthy(last.1) then prev else Put(prev, s, f(last.1))
    ensures forall s :: s in r.vals <==> keep(s) && exists i :: Usable(items, s, i)
  {
    var n := |items| - 1;
    assert prev.vals.Keys <= r.vals.Keys;
    forall s
      ensures s in r.vals <==> keep(s) && exists i :: Usable(items, s, i)
    {
      if s in r.vals && s !in prev.vals {
        assert Usable(items, s, n);
      }
      if exists i :: Usable(init, s, i) {
        var i :| Usable(init, s, i);
        assert items[i] == init[i];
        assert Usable(items, s, i);
      }
      if keep(s) && exists i :: Usable(items, s, i) {
        var i :| Usable(items, s, i);
        if i < n {
          assert init[i] == items[i];
          assert Usable(init, s, i);
        } else {
          assert Usable(items, s, n);
        }
      }
    }
  }

  lemma FirstWinsValuesStep(items: seq<(string, Num)>, init: seq<(string, Num)>, keep: string -> bool, f: Num -> Num, prev: Rates, r: Rates)
    requires |items| > 0 && init == items[..|items| - 1]
    requires forall s :: s in prev.vals <==> keep(s) && exists i :: Usable(init, s, i)
    requires forall s :: s in prev.vals ==> exists i :: FirstUsable(init, s, i) && prev.vals[s] == f(init[i].1)
    requires var last := items[|items| - 1]; var s := Upper(last.0);
      r == if !keep(s) || s in prev.vals || !Truthy(last.1) then prev else Put(prev, s, f(last.1))
    ensures forall s :: s in r.vals ==> exists i :: FirstUsable(items, s, i) && r.vals[s] == f(items[i].1)
  {
    var n := |items| - 1;
    forall s | s in r.vals
      ensures exists i :: FirstUsable(items, s, i) && r.vals[s] == f(items[i].1)
    {
      if s in prev.vals {
        var i :| FirstUsable(init, s, i) && prev.vals[s] == f(init[i].1);
        assert items[i] == init[i];
        forall j | 0 <= j < i
          ensures !Usable(items, s, j)
        {
          assert items[j] == init[j];
          assert !Usable(init, s, j);
        }
        assert FirstUsable(items, s, i);
      } else {
        assert s == Upper(items[n].0) && Truthy(items[n].1) && keep(s);
        assert !exists i :: Usable(init, s, i);
        forall j | 0 <= j < n
          ensures !Usable(items, s, j)
        {
          assert items[j] == init[j];
          assert !Usable(init, s, j);
        }
        assert FirstUsable(items, s, n);
      }
    }
  }

  /** One more listing: it is recorded only when its symbol is kept, not yet
      recorded, and its price is usable; otherwise nothing changes. */
  lemma FirstWinsSnoc(items: seq<(string, Num)>, x: (string, Num), keep: string -> bool, f: Num -> Num)
    ensures var s := Upper(x.0); var prev := FirstWins(items, keep, f).vals;
      FirstWins(items + [x], keep, f).vals ==
        if keep(s) && s !in prev && Truthy(x.1) then prev[s := f(x.1)] else prev
  {
    assert (items + [x])[..|items|] == items;
  }
}
