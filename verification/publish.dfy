/**
  The aggregation step: provider rate files are grouped per symbol, the
  consensus rate of a symbol is the median of its providers' values, and
  two checks report (without changing any data) the observations that sit
  more than 10% away from their median and the catalogue symbols that no
  provider reported. The published table lists the medians in ascending
  symbol order, with a count, the display names and the providers behind
  each symbol.
*/
module Publish {
  import opened Results
  import opened Numbers
  import opened Text
  import opened Seqs
  import opened Objects
  import Sorting
  import opened Median

  /** One provider's value for one symbol. */
  datatype Observation = Observation(provider: string, value: real)

  /** A provider file as read: its provider name and its `rates` object,
      when it has one. */
  datatype ProviderFile = ProviderFile(provider: string, rates: Option<Object<real>>)

  /** A provider file that takes part in the consensus. */
  datatype ProviderRates = ProviderRates(provider: string, rates: Object<real>)

  /** `if (!data.rates || Object.keys(data.rates).length === 0) continue`:
      a file takes part when it has a non-empty rates object. */
  function Loaded(f: ProviderFile): (r: Option<ProviderRates>)
    ensures r.Some? <==> f.rates.Some? && |f.rates.value.keys| > 0
    ensures r.Some? ==> r.value == ProviderRates(f.provider, f.rates.value)
  {
    if f.rates.Some? && |f.rates.value.keys| > 0 then Some(ProviderRates(f.provider, f.rates.value)) else None
  }

  /** The files that take part, in reading order. */
  function Participants(files: seq<ProviderFile>): (ps: seq<ProviderRates>)
    ensures forall p :: p in ps <==> |p.rates.keys| > 0 && ProviderFile(p.provider, Some(p.rates)) in files
  {
    var ps := FilterMap(files, Loaded);
    forall p
      ensures p in ps <==> |p.rates.keys| > 0 && ProviderFile(p.provider, Some(p.rates)) in files
    {
      FilterMapMember(files, Loaded, p);
      if |p.rates.keys| > 0 && ProviderFile(p.provider, Some(p.rates)) in files {
        var i :| 0 <= i < |files| && files[i] == ProviderFile(p.provider, Some(p.rates));
        assert Loaded(files[i]) == Some(p);
      }
    }
    ps
  }

  /** Reading one more file appends its entry, when it takes part, after
      those of the earlier files: participants keep the reading order, and a
      file read twice takes part twice. */
  lemma ParticipantsSnoc(files: seq<ProviderFile>, f: ProviderFile)
    ensures Participants([]) == []
    ensures Participants(files + [f]) == Participants(files) +
      (if f.rates.Some? && |f.rates.value.keys| > 0 then [ProviderRates(f.provider, f.rates.value)] else [])
  {
    FilterMapAppend(files, [f], Loaded);
    assert [f][1..] == [];
  }

  /** The observations recorded so far for `s` (none when `s` is absent). */
  function Get(m: map<string, seq<Observation>>, s: string): seq<Observation>
  {
    if s in m then m[s] else []
  }

  /** `if (!ratesMap[s]) ratesMap[s] = []; ratesMap[s].push(o)` */
  function Push(m: Object<seq<Observation>>, s: string, o: Observation): (r: Object<seq<Observation>>)
    ensures r.vals == m.vals[s := Get(m.vals, s) + [o]]
    ensures r.keys == if s in m.vals then m.keys else m.keys + [s]
  {
    Put(m, s, Get(m.vals, s) + [o])
  }

  /** The keys of `ks` not among the `seen` ones yet, in order. */
  function NewKeys(ks: seq<string>, seen: set<string>): (r: seq<string>)
    ensures forall k :: k in r <==> k in ks && k !in seen
  {
    if |ks| == 0 then []
    else (if ks[0] in seen then [] else [ks[0]]) + NewKeys(ks[1..], seen)
  }

  /**
    The inner loop of `collectRates` over the keys `ks` of one provider's
    rates: every key gets one more observation, other symbols are untouched,
    and symbols seen for the first time are appended in the provider's order.
  */
  function AddKeys(m: Object<seq<Observation>>, provider: string, rates: Object<real>, ks: seq<string>): (r: Object<seq<Observation>>)
    requires Distinct(ks) && forall k :: k in ks ==> k in rates.vals
    ensures forall s :: s in r.vals <==> s in m.vals || s in ks
    ensures forall s :: s in r.vals ==>
      r.vals[s] == Get(m.vals, s) + (if s in ks then [Observation(provider, rates.vals[s])] else [])
    ensures r.keys == m.keys + NewKeys(ks, m.vals.Keys)
    decreases |ks|
  {
    if |ks| == 0 then m
    else
      var init := ks[..|ks| - 1];
      var k := ks[|ks| - 1];
      assert ks == init + [k];
      assert k !in init;
      var prev := AddKeys(m, provider, rates, init);
      var r := Push(prev, k, Observation(provider, rates.vals[k]));
      AddKeysOrderStep(m.keys, m.vals.Keys, init, k, prev.keys, r.keys, k in prev.vals);
      AddKeysValuesStep(m.vals, provider, rates.vals, init, k, prev.vals, r.vals);
      r
  }

  lemma AddKeysValuesStep(m: map<string, seq<Observation>>, provider: string, rates: map<string, real>, init: seq<string>, k: string, prev: map<string, seq<Observation>>, r: map<string, seq<Observation>>)
    requires k !in init && k in rates && forall s :: s in init ==> s in rates
    requires forall s :: s in prev <==> s in m || s in init
    requires forall s :: s in prev ==> prev[s] == Get(m, s) + (if s in init then [Observation(provider, rates[s])] else [])
    requires r == prev[k := Get(prev, k) + [Observation(provider, rates[k])]]
    ensures forall s :: s in r <==> s in m || s in init + [k]
    ensures forall s :: s in r ==> r[s] == Get(m, s) + (if s in init + [k] then [Observation(provider, rates[s])] else [])
  {
    forall s | s in r
      ensures r[s] == Get(m, s) + (if s in init + [k] then [Observation(provider, rates[s])] else [])
    {
      if s == k {
        assert Get(prev, k) == Get(m, k);
      } else {
        assert s in init + [k] <==> s in init;
      }
    }
  }

  lemma AddKeysOrderStep(keys: seq<string>, seen: set<string>, init: seq<string>, k: string,
                         prevKeys: seq<string>, rKeys: seq<string>, present: bool)
    requires k !in init
    requires present <==> k in seen || k in init
    requires prevKeys == keys + NewKeys(init, seen)
    requires rKeys == if present then prevKeys else prevKeys + [k]
    ensures rKeys == keys + NewKeys(init + [k], seen)
  {
    NewKeysSnoc(init, k, seen);
    if !present {
      assert keys + (NewKeys(init, seen) + [k]) == (keys + NewKeys(init, seen)) + [k];
    }
  }

  lemma {:induction false} NewKeysSnoc(ks: seq<string>, k: string, seen: set<string>)
    ensures NewKeys(ks + [k], seen) == NewKeys(ks, seen) + (if k in seen then [] else [k])
    decreases |ks|
  {
    if |ks| == 0 {
      assert [k][1..] == [];
    } else {
      var head := if ks[0] in seen then [] else [ks[0]];
      var tail := if k in seen then [] else [k];
      assert (ks + [k])[0] == ks[0] && (ks + [k])[1..] == ks[1..] + [k];
      assert NewKeys(ks + [k], seen) == head + NewKeys(ks[1..] + [k], seen);
      NewKeysSnoc(ks[1..], k, seen);
      assert head + (NewKeys(ks[1..], seen) + tail) == (head + NewKeys(ks[1..], seen)) + tail;
    }
  }

  /** One provider's observation of `s`, if it reports `s`. */
  function ObservationOf(s: string): ProviderRates -> Option<Observation>
  {
    (p: ProviderRates) => if s in p.rates.vals then Some(Observation(p.provider, p.rates.vals[s])) else None
  }

  /** The observations of `s`: one per provider that reports it, in
      provider order. */
  function ObsFor(ps: seq<ProviderRates>, s: string): seq<Observation>
  {
    FilterMap(ps, ObservationOf(s))
  }

  /** Some provider reports `s`. */
  ghost predicate Reported(ps: seq<ProviderRates>, s: string)
  {
    exists i :: 0 <= i < |ps| && s in ps[i].rates.vals
  }

  /**
    `collectRates`: a symbol is present exactly when some provider reports
    it, its list holds one observation per reporting provider in provider
    order, and no list is empty.
  */
  function Collect(ps: seq<ProviderRates>): (m: Object<seq<Observation>>)
    ensures forall s :: s in m.vals <==> Reported(ps, s)
    ensures forall s :: s in m.vals ==> m.vals[s] == ObsFor(ps, s) && |m.vals[s]| > 0
    decreases |ps|
  {
    if |ps| == 0 then Empty()
    else
      var init := ps[..|ps| - 1];
      var p := ps[|ps| - 1];
      var prev := Collect(init);
      var r := AddKeys(prev, p.provider, p.rates, p.rates.keys);
      CollectStep(ps, init, p, prev, r);
      r
  }

  lemma CollectStep(ps: seq<ProviderRates>, init: seq<ProviderRates>, p: ProviderRates, prev: Object<seq<Observation>>, r: Object<seq<Observation>>)
    requires |ps| > 0 && init == ps[..|ps| - 1] && p == ps[|ps| - 1]
    requires forall s :: s in prev.vals <==> Reported(init, s)
    requires forall s :: s in prev.vals ==> prev.vals[s] == ObsFor(init, s) && |prev.vals[s]| > 0
    requires forall s :: s in r.vals <==> s in prev.vals || s in p.rates.keys
    requires forall s :: s in r.vals ==>
      r.vals[s] == Get(prev.vals, s) + (if s in p.rates.keys then [Observation(p.provider, p.rates.vals[s])] else [])
    ensures forall s :: s in r.vals <==> Reported(ps, s)
    ensures forall s :: s in r.vals ==> r.vals[s] == ObsFor(ps, s) && |r.vals[s]| > 0
  {
    CollectKeysStep(ps, init, p, prev, r);
    assert ps == init + [p];
    forall s | s in r.vals
      ensures r.vals[s] == ObsFor(ps, s) && |r.vals[s]| > 0
    {
      CollectAt(init, p, s, s in prev.vals, Get(prev.vals, s), r.vals[s]);
    }
  }

  /** The step of `CollectStep` for one symbol `s`, whose earlier
      observations are `before` and whose updated ones are `after`. */
  lemma CollectAt(init: seq<ProviderRates>, p: ProviderRates, s: string, seen: bool, before: seq<Observation>, after: seq<Observation>)
    requires seen ==> before == ObsFor(init, s) && |before| > 0
    requires !seen ==> !Reported(init, s) && before == [] && s in p.rates.keys
    requires after == before + (if s in p.rates.keys then [Observation(p.provider, p.rates.vals[s])] else [])
    ensures after == ObsFor(init + [p], s) && |after| > 0
  {
    ObsForSnoc(init, p, s);
    if !seen {
      ObsForNone(init, s);
    }
  }

  /** One more provider adds its own observation of `s`, if any, last. */
  lemma ObsForSnoc(init: seq<ProviderRates>, p: ProviderRates, s: string)
    ensures ObsFor(init + [p], s) == ObsFor(init, s) + Pick(ObservationOf(s)(p))
  {
    FilterMapAppend(init, [p], ObservationOf(s));
    assert [p][1..] == [];
  }

  lemma ObsForNone(init: seq<ProviderRates>, s: string)
    requires !Reported(init, s)
    ensures ObsFor(init, s) == []
  {
    FilterMapNone(init, ObservationOf(s));
  }

  lemma CollectKeysStep(ps: seq<ProviderRates>, init: seq<ProviderRates>, p: ProviderRates, prev: Object<seq<Observation>>, r: Object<seq<Observation>>)
    requires |ps| > 0 && init == ps[..|ps| - 1] && p == ps[|ps| - 1]
    requires forall s :: s in prev.vals <==> Reported(init, s)
    requires forall s :: s in r.vals <==> s in prev.vals || s in p.rates.keys
    ensures forall s :: s in r.vals <==> Reported(ps, s)
  {
    forall s
      ensures s in r.vals <==> Reported(ps, s)
    {
      if Reported(ps, s) {
        var i :| 0 <= i < |ps| && s in ps[i].rates.vals;
        if i < |init| {
          assert init[i] == ps[i];
        }
      }
      if Reported(init, s) {
        var i :| 0 <= i < |init| && s in init[i].rates.vals;
        assert init[i] == ps[i];
      }
    }
  }

  /** `entries.map((e) => e.value)` */
  function Values(obs: seq<Observation>): (vs: seq<real>)
    ensures |vs| == |obs| && forall i :: 0 <= i < |obs| ==> vs[i] == obs[i].value
  {
    seq(|obs|, i requires 0 <= i < |obs| => obs[i].value)
  }

  /**
    `computeMedianRates`: the same symbols in the same order, each with the
    median of its providers' values.
  */
  function ComputeMedianRates(m: Object<seq<Observation>>): (r: Object<real>)
    requires forall s :: s in m.vals ==> |m.vals[s]| > 0
    ensures r.keys == m.keys
    ensures forall s :: s in r.vals <==> s in m.vals
    ensures forall s :: s in r.vals ==> r.vals[s] == Median.Median(Values(m.vals[s]))
  {
    RawObject(m.keys, map s | s in m.vals :: Median.Median(Values(m.vals[s])))
  }

  /** Each consensus value lies between two of its symbol's observations. */
  lemma MedianRatesWithin(m: Object<seq<Observation>>, s: string)
    requires forall s :: s in m.vals ==> |m.vals[s]| > 0
    requires s in m.vals
    ensures exists i :: 0 <= i < |m.vals[s]| && m.vals[s][i].value <= ComputeMedianRates(m).vals[s]
    ensures exists j :: 0 <= j < |m.vals[s]| && ComputeMedianRates(m).vals[s] <= m.vals[s][j].value
  {
    MedianWithin(m.vals[s]);
  }

  /** The median of a symbol's observations lies between two of them. */
  lemma MedianWithin(obs: seq<Observation>)
    requires |obs| > 0
    ensures exists i :: 0 <= i < |obs| && obs[i].value <= Median.Median(Values(obs))
    ensures exists j :: 0 <= j < |obs| && Median.Median(Values(obs)) <= obs[j].value
  {
    var vs := Values(obs);
    var i :| 0 <= i < |vs| && vs[i] <= Median.Median(vs);
    var j :| 0 <= j < |vs| && Median.Median(vs) <= vs[j];
    assert obs[i].value == vs[i] && obs[j].value == vs[j];
  }

  /** `Math.abs(value - med) / med`, where a symbol without a median reads
      as `undefined` and the arithmetic gives NaN. */
  function Ratio(value: real, med: Option<real>): Num
  {
    match med
    case None => NaN
    case Some(m) => Div(Fin(if value < m then m - value else value - m), Fin(m))
  }

  /** `deviation > 0.1` */
  predicate AboveTolerance(deviation: Num)
  {
    match deviation
    case Fin(x) => x > 1.0 / 10.0
    case Inf(negative) => !negative
    case NaN => false
  }

  /** For a positive median, the ratio exceeds a tenth exactly when the
      distance does. */
  lemma TenthOfPositive(d: real, m: real)
    requires m > 0.0 && d >= 0.0
    ensures d / m > 1.0 / 10.0 <==> d > m / 10.0
  {
    var q := d / m;
    assert q * m == d;
    if q > 1.0 / 10.0 {
      assert (q - 1.0 / 10.0) * m > 0.0;
    }
    if d > m / 10.0 {
      assert (q - 1.0 / 10.0) * m > 0.0;
    }
  }

  /** For a negative median, the ratio is never positive. */
  lemma NonPositiveOfNegative(d: real, m: real)
    requires m < 0.0 && d >= 0.0
    ensures d / m <= 0.0
  {
    var q := d / m;
    assert q * m == d;
  }

  /** An observation is flagged exactly when its median exists and either
      the median is positive and the value lies strictly more than a tenth
      of it away, or the median is zero and the value is not. A negative
      median flags nothing. */
  lemma FlaggedExactly(value: real, med: Option<real>)
    ensures AboveTolerance(Ratio(value, med)) <==>
      med.Some? && ((med.value > 0.0 && (value - med.value > med.value / 10.0 || med.value - value > med.value / 10.0))
                    || (med.value == 0.0 && value != 0.0))
  {
    if med.Some? {
      var m := med.value;
      var d := if value < m then m - value else value - m;
      assert value - m > m / 10.0 || m - value > m / 10.0 <==> d > m / 10.0;
      if m > 0.0 {
        assert Ratio(value, med) == Fin(d / m);
        TenthOfPositive(d, m);
      } else if m < 0.0 {
        assert Ratio(value, med) == Fin(d / m);
        NonPositiveOfNegative(d, m);
      }
    }
  }

  /** What `checkDeviations` reports. */
  datatype Diagnostic =
    | Deviation(provider: string, symbol: string, deviation: Num, value: real, median: real)
    | Missing(symbol: string)

  /** The report, if any, for one observation of `s` against its median. */
  function Check(s: string, med: Option<real>): Observation -> Option<Diagnostic>
  {
    (o: Observation) =>
      if med.Some? && AboveTolerance(Ratio(o.value, med))
      then Some(Deviation(o.provider, s, Ratio(o.value, med), o.value, med.value))
      else None
  }

  function Lookup(med: map<string, real>, s: string): Option<real>
  {
    if s in med then Some(med[s]) else None
  }

  /** Observation `i` of `s` raises diagnostic `d`. */
  ghost predicate Raises(m: Object<seq<Observation>>, med: map<string, real>, s: string, i: int, d: Diagnostic)
  {
    s in m.vals && 0 <= i < |m.vals[s]| && Check(s, Lookup(med, s))(m.vals[s][i]) == Some(d)
  }

  /** Symbol `x` comes no later than symbol `y` in `ks`. */
  ghost predicate NoLater(ks: seq<string>, x: string, y: string)
  {
    exists i, j :: 0 <= i <= j < |ks| && ks[i] == x && ks[j] == y
  }

  /** The reports for the symbols `ks`, symbol by symbol, each symbol's in
      observation order. */
  function DeviationsFrom(m: Object<seq<Observation>>, med: map<string, real>, ks: seq<string>): (r: seq<Diagnostic>)
    requires forall k :: k in ks ==> k in m.vals
    ensures forall d :: d in r <==> exists j, i :: 0 <= j < |ks| && Raises(m, med, ks[j], i, d)
    ensures forall a, b :: 0 <= a < b < |r| ==> NoLater(ks, r[a].symbol, r[b].symbol)
    decreases |ks|
  {
    if |ks| == 0 then []
    else
      var here := FilterMap(m.vals[ks[0]], Check(ks[0], Lookup(med, ks[0])));
      var rest := DeviationsFrom(m, med, ks[1..]);
      DeviationsStep(m, med, ks, here, rest);
      here + rest
  }

  lemma DeviationsStep(m: Object<seq<Observation>>, med: map<string, real>, ks: seq<string>, here: seq<Diagnostic>, rest: seq<Diagnostic>)
    requires |ks| > 0 && forall k :: k in ks ==> k in m.vals
    requires here == FilterMap(m.vals[ks[0]], Check(ks[0], Lookup(med, ks[0])))
    requires forall d :: d in rest <==> exists j, i :: 0 <= j < |ks[1..]| && Raises(m, med, ks[1..][j], i, d)
    requires forall a, b :: 0 <= a < b < |rest| ==> NoLater(ks[1..], rest[a].symbol, rest[b].symbol)
    ensures forall d :: d in here + rest <==> exists j, i :: 0 <= j < |ks| && Raises(m, med, ks[j], i, d)
    ensures forall a, b :: 0 <= a < b < |here + rest| ==> NoLater(ks, (here + rest)[a].symbol, (here + rest)[b].symbol)
  {
    DeviationsMembersStep(m, med, ks, here, rest);
    DeviationsOrderStep(m, med, ks, here, rest);
  }

  lemma DeviationsMembersStep(m: Object<seq<Observation>>, med: map<string, real>, ks: seq<string>, here: seq<Diagnostic>, rest: seq<Diagnostic>)
    requires |ks| > 0 && forall k :: k in ks ==> k in m.vals
    requires here == FilterMap(m.vals[ks[0]], Check(ks[0], Lookup(med, ks[0])))
    requires forall d :: d in rest <==> exists j, i :: 0 <= j < |ks[1..]| && Raises(m, med, ks[1..][j], i, d)
    ensures forall d :: d in here + rest <==> exists j, i :: 0 <= j < |ks| && Raises(m, med, ks[j], i, d)
  {
    var f := Check(ks[0], Lookup(med, ks[0]));
    var obs := m.vals[ks[0]];
    forall d
      ensures d in here + rest <==> exists j, i :: 0 <= j < |ks| && Raises(m, med, ks[j], i, d)
    {
      FilterMapMember(obs, f, d);
      if d in here {
        var i :| 0 <= i < |obs| && f(obs[i]) == Some(d);
        assert Raises(m, med, ks[0], i, d);
      }
      if exists j, i :: 0 <= j < |ks| && Raises(m, med, ks[j], i, d) {
        var j, i :| 0 <= j < |ks| && Raises(m, med, ks[j], i, d);
        if j > 0 {
          assert ks[1..][j - 1] == ks[j];
          assert Raises(m, med, ks[1..][j - 1], i, d);
        } else {
          assert f(obs[i]) == Some(d);
        }
      }
      if exists j, i :: 0 <= j < |ks[1..]| && Raises(m, med, ks[1..][j], i, d) {
        var j, i :| 0 <= j < |ks[1..]| && Raises(m, med, ks[1..][j], i, d);
        assert Raises(m, med, ks[j + 1], i, d);
      }
    }
  }

  /** Every report for observations of `s` names `s`. */
  lemma ReportsName(obs: seq<Observation>, s: string, med: Option<real>)
    ensures forall a :: 0 <= a < |FilterMap(obs, Check(s, med))| ==> FilterMap(obs, Check(s, med))[a].symbol == s
  {
    var here := FilterMap(obs, Check(s, med));
    forall a | 0 <= a < |here|
      ensures here[a].symbol == s
    {
      FilterMapMember(obs, Check(s, med), here[a]);
    }
  }

  lemma DeviationsOrderStep(m: Object<seq<Observation>>, med: map<string, real>, ks: seq<string>, here: seq<Diagnostic>, rest: seq<Diagnostic>)
    requires |ks| > 0 && forall k :: k in ks ==> k in m.vals
    requires here == FilterMap(m.vals[ks[0]], Check(ks[0], Lookup(med, ks[0])))
    requires forall d :: d in rest ==> exists j, i :: 0 <= j < |ks[1..]| && Raises(m, med, ks[1..][j], i, d)
    requires forall a, b :: 0 <= a < b < |rest| ==> NoLater(ks[1..], rest[a].symbol, rest[b].symbol)
    ensures forall a, b :: 0 <= a < b < |here + rest| ==> NoLater(ks, (here + rest)[a].symbol, (here + rest)[b].symbol)
  {
    ReportsName(m.vals[ks[0]], ks[0], Lookup(med, ks[0]));
    forall a, b | 0 <= a < b < |here + rest|
      ensures NoLater(ks, (here + rest)[a].symbol, (here + rest)[b].symbol)
    {
      var x := (here + rest)[a];
      var y := (here + rest)[b];
      if b < |here| {
        assert x.symbol == ks[0] && y.symbol == ks[0];
      } else {
        assert y == rest[b - |here|];
        assert y in rest;
        var j, i :| 0 <= j < |ks[1..]| && Raises(m, med, ks[1..][j], i, y);
        assert y.symbol == ks[j + 1];
        if a < |here| {
          assert x.symbol == ks[0];
        } else {
          assert x == rest[a - |here|];
          var i1, j1 :| 0 <= i1 <= j1 < |ks[1..]| && ks[1..][i1] == x.symbol && ks[1..][j1] == y.symbol;
          assert ks[i1 + 1] == x.symbol && ks[j1 + 1] == y.symbol;
        }
      }
    }
  }

  /**
    `checkDeviations`: a diagnostic is reported exactly when some
    observation is flagged against its symbol's median, and diagnostics
    come symbol by symbol in the order of the grouped table.
  */
  function CheckDeviations(m: Object<seq<Observation>>, med: map<string, real>): (r: seq<Diagnostic>)
    ensures forall d :: d in r <==> exists s, i :: Raises(m, med, s, i, d)
    ensures forall a, b :: 0 <= a < b < |r| ==> NoLater(m.keys, r[a].symbol, r[b].symbol)
  {
    var r := DeviationsFrom(m, med, m.keys);
    forall d
      ensures d in r <==> exists s, i :: Raises(m, med, s, i, d)
    {
      if exists s, i :: Raises(m, med, s, i, d) {
        var s, i :| Raises(m, med, s, i, d);
        var j :| 0 <= j < |m.keys| && m.keys[j] == s;
      }
    }
    r
  }

  /** Keeps the diagnostics about symbol `s`. */
  function OfSymbol(s: string): Diagnostic -> Option<Diagnostic>
  {
    (d: Diagnostic) => if d.symbol == s then Some(d) else None
  }

  lemma {:induction false} DeviationsOfSymbol(m: Object<seq<Observation>>, med: map<string, real>, ks: seq<string>, s: string)
    requires Distinct(ks) && forall k :: k in ks ==> k in m.vals
    ensures FilterMap(DeviationsFrom(m, med, ks), OfSymbol(s)) ==
      if s in ks then FilterMap(m.vals[s], Check(s, Lookup(med, s))) else []
    decreases |ks|
  {
    if |ks| > 0 {
      var here := FilterMap(m.vals[ks[0]], Check(ks[0], Lookup(med, ks[0])));
      var rest := DeviationsFrom(m, med, ks[1..]);
      assert DeviationsFrom(m, med, ks) == here + rest;
      DistinctTail(ks);
      DeviationsOfSymbol(m, med, ks[1..], s);
      SymbolStep(m, med, ks, s, here, rest);
    }
  }

  lemma SymbolStep(m: Object<seq<Observation>>, med: map<string, real>, ks: seq<string>, s: string,
                   here: seq<Diagnostic>, rest: seq<Diagnostic>)
    requires |ks| > 0 && ks[0] !in ks[1..] && forall k :: k in ks ==> k in m.vals
    requires here == FilterMap(m.vals[ks[0]], Check(ks[0], Lookup(med, ks[0])))
    requires FilterMap(rest, OfSymbol(s)) == if s in ks[1..] then FilterMap(m.vals[s], Check(s, Lookup(med, s))) else []
    ensures FilterMap(here + rest, OfSymbol(s)) == if s in ks then FilterMap(m.vals[s], Check(s, Lookup(med, s))) else []
  {
    FilterMapAppend(here, rest, OfSymbol(s));
    ReportsName(m.vals[ks[0]], ks[0], Lookup(med, ks[0]));
    if s == ks[0] {
      FilterMapIdentity(here, OfSymbol(s));
    } else {
      FilterMapNone(here, OfSymbol(s));
      assert s in ks <==> s in ks[1..];
    }
  }

  /** The diagnostics about one symbol are exactly that symbol's flagged
      observations, one each, in provider order; a symbol nobody reported
      has none. */
  lemma DeviationsPerSymbol(m: Object<seq<Observation>>, med: map<string, real>, s: string)
    ensures FilterMap(CheckDeviations(m, med), OfSymbol(s)) ==
      if s in m.vals then FilterMap(m.vals[s], Check(s, Lookup(med, s))) else []
  {
    DeviationsOfSymbol(m, med, m.keys, s);
  }

  /** `if (!(symbol in medianRates)) errors.push(...)` */
  function MissingFrom(med: map<string, real>): string -> Option<Diagnostic>
  {
    (s: string) => if s in med then None else Some(Missing(s))
  }

  /**
    `checkCompleteness`: one report per expected symbol that has no
    median, and nothing else.
  */
  function CheckCompleteness(expected: seq<string>, med: map<string, real>): (r: seq<Diagnostic>)
    ensures |r| <= |expected|
    ensures forall d :: d in r ==> d.Missing?
    ensures forall s :: Missing(s) in r <==> s in expected && s !in med
  {
    var r := FilterMap(expected, MissingFrom(med));
    forall d
      ensures d in r <==> exists i :: 0 <= i < |expected| && MissingFrom(med)(expected[i]) == Some(d)
    {
      FilterMapMember(expected, MissingFrom(med), d);
    }
    r
  }

  /** The reports follow the order of the expected list. */
  lemma CompletenessOrder(expected: seq<string>, med: map<string, real>, r: seq<Diagnostic>)
    requires r == CheckCompleteness(expected, med)
    ensures forall a, b :: 0 <= a < b < |r| ==>
      exists i, j :: 0 <= i < j < |expected| && expected[i] == r[a].symbol && expected[j] == r[b].symbol
  {
    FilterMapOrder(expected, MissingFrom(med));
    forall a, b | 0 <= a < b < |r|
      ensures exists i, j :: 0 <= i < j < |expected| && expected[i] == r[a].symbol && expected[j] == r[b].symbol
    {
      assert Precedes(expected, MissingFrom(med), r[a], r[b]);
      var i, j :| 0 <= i < j < |expected| && MissingFrom(med)(expected[i]) == Some(r[a]) && MissingFrom(med)(expected[j]) == Some(r[b]);
      assert expected[i] == r[a].symbol && expected[j] == r[b].symbol;
    }
  }

  /** A symbol listed twice without a median is reported twice: as many
      reports as listings. */
  lemma {:induction false} CompletenessMultiplicity(expected: seq<string>, med: map<string, real>, s: string)
    requires s !in med
    ensures multiset(CheckCompleteness(expected, med))[Missing(s)] == multiset(expected)[s]
    decreases |expected|
  {
    if |expected| > 0 {
      var t := expected[1..];
      var rest := CheckCompleteness(t, med);
      assert CheckCompleteness(expected, med) == Pick(MissingFrom(med)(expected[0])) + rest;
      CompletenessMultiplicity(t, med, s);
      MultiplicityStep(expected, med, s, rest);
    }
  }

  lemma MultiplicityStep(expected: seq<string>, med: map<string, real>, s: string, rest: seq<Diagnostic>)
    requires |expected| > 0 && s !in med
    requires multiset(rest)[Missing(s)] == multiset(expected[1..])[s]
    ensures multiset(Pick(MissingFrom(med)(expected[0])) + rest)[Missing(s)] == multiset(expected)[s]
  {
    assert expected == [expected[0]] + expected[1..];
  }

  /** When every expected symbol has a median, nothing is reported. */
  lemma CompleteWhenAllPresent(expected: seq<string>, med: map<string, real>)
    requires forall s :: s in expected ==> s in med
    ensures CheckCompleteness(expected, med) == []
  {
    FilterMapNone(expected, MissingFrom(med));
  }

  /**
    `[...Object.keys(currencies), ...Object.keys(crypto)].sort()`: every
    catalogue code in ascending order, a code listed in both catalogues
    appearing twice.
  */
  function ExpectedSymbols(fiat: Object<string>, crypto: Object<string>): (r: seq<string>)
    ensures Sorting.Sorted(r, LexLe)
    ensures multiset(r) == multiset(fiat.keys + crypto.keys)
    ensures forall s :: s in r <==> s in fiat.vals || s in crypto.vals
  {
    var r := SortKeys(fiat.keys + crypto.keys);
    forall s
      ensures s in r <==> s in fiat.vals || s in crypto.vals
    {
      assert s in r <==> s in multiset(r);
      assert s in fiat.keys + crypto.keys <==> s in multiset(fiat.keys + crypto.keys);
    }
    r
  }

  /** Each code appears once per catalogue that lists it. */
  lemma ExpectedMultiplicity(fiat: Object<string>, crypto: Object<string>, s: string)
    ensures multiset(ExpectedSymbols(fiat, crypto))[s] ==
      (if s in fiat.vals then 1 else 0) + (if s in crypto.vals then 1 else 0)
  {
    DistinctMultiplicity(fiat.keys, s);
    DistinctMultiplicity(crypto.keys, s);
    assert multiset(fiat.keys + crypto.keys) == multiset(fiat.keys) + multiset(crypto.keys);
    assert s in fiat.keys <==> s in multiset(fiat.keys);
    assert s in crypto.keys <==> s in multiset(crypto.keys);
  }

  /**
    The `names` table of the metadata: every catalogue code with its
    display name, the crypto catalogue's name winning for a code listed in
    both (it is assigned second).
  */
  function Names(fiat: Object<string>, crypto: Object<string>): (r: Object<string>)
    ensures forall s :: s in r.vals <==> s in fiat.vals || s in crypto.vals
    ensures forall s :: s in crypto.vals ==> r.vals[s] == crypto.vals[s]
    ensures forall s :: s in fiat.vals && s !in crypto.vals ==> r.vals[s] == fiat.vals[s]
  {
    var f := Entries(fiat);
    var c := Entries(crypto);
    var r := Select(f + c, AsSpelt, KeepAll, AsSpelt);
    NamesKeys(fiat, crypto, f, c);
    forall s | s in r.vals
      ensures s in crypto.vals ==> r.vals[s] == crypto.vals[s]
      ensures s !in crypto.vals ==> r.vals[s] == fiat.vals[s]
    {
      var i :| LastFor(f + c, AsSpelt, s, i) && r.vals[s] == (f + c)[i].1;
      NamesValue(fiat, crypto, f, c, s, i);
    }
    r
  }

  lemma NamesKeys(fiat: Object<string>, crypto: Object<string>, f: seq<(string, string)>, c: seq<(string, string)>)
    requires f == Entries(fiat) && c == Entries(crypto)
    ensures forall s :: Occurs(f + c, AsSpelt, s) <==> s in fiat.vals || s in crypto.vals
  {
    var es := f + c;
    forall s
      ensures Occurs(es, AsSpelt, s) <==> s in fiat.vals || s in crypto.vals
    {
      if s in fiat.vals {
        var i :| 0 <= i < |fiat.keys| && fiat.keys[i] == s;
        assert es[i] == f[i];
      }
      if s in crypto.vals {
        var j :| 0 <= j < |crypto.keys| && crypto.keys[j] == s;
        assert es[|f| + j] == c[j];
      }
      if Occurs(es, AsSpelt, s) {
        var i :| 0 <= i < |es| && AsSpelt(es[i].0) == s;
        if i < |f| {
          assert f[i] == es[i];
        } else {
          assert c[i - |f|] == es[i];
        }
      }
    }
  }

  lemma NamesValue(fiat: Object<string>, crypto: Object<string>, f: seq<(string, string)>, c: seq<(string, string)>, s: string, i: int)
    requires f == Entries(fiat) && c == Entries(crypto)
    requires LastFor(f + c, AsSpelt, s, i)
    ensures s in crypto.vals ==> (f + c)[i].1 == crypto.vals[s]
    ensures s !in crypto.vals ==> (f + c)[i].1 == fiat.vals[s]
  {
    var es := f + c;
    forall k | |f| <= k < |es|
      ensures es[k].0 in crypto.vals && es[k].1 == crypto.vals[es[k].0]
    {
      assert es[k] == c[k - |f|];
    }
    forall k | 0 <= k < |f|
      ensures es[k].1 == fiat.vals[es[k].0]
    {
      assert es[k] == f[k];
    }
    if s in crypto.vals {
      var j :| 0 <= j < |crypto.keys| && crypto.keys[j] == s;
      assert es[|f| + j].0 == s;
    }
  }

  /** `entries.map((e) => e.provider)` */
  function ProviderNames(obs: seq<Observation>): (ns: seq<string>)
    ensures |ns| == |obs| && forall i :: 0 <= i < |obs| ==> ns[i] == obs[i].provider
  {
    seq(|obs|, i requires 0 <= i < |obs| => obs[i].provider)
  }

  /** `entries.map((e) => e.provider).sort()`: the providers behind a
      symbol's observations, each as often as it appears, ascending. */
  function SortedProviders(obs: seq<Observation>): (ns: seq<string>)
    ensures Sorting.Sorted(ns, LexLe)
    ensures multiset(ns) == multiset(ProviderNames(obs))
  {
    SortKeys(ProviderNames(obs))
  }

  /** The `providers` table of the metadata, one entry per grouped symbol
      in grouping order. */
  function Providers(m: Object<seq<Observation>>): (r: Object<seq<string>>)
    ensures r.keys == m.keys
    ensures forall s :: s in r.vals <==> s in m.vals
    ensures forall s :: s in r.vals ==> r.vals[s] == SortedProviders(m.vals[s])
  {
    RawObject(m.keys, map s | s in m.vals :: SortedProviders(m.vals[s]))
  }

  /** After grouping, a provider is listed for a symbol exactly when it
      reported that symbol. */
  lemma ProvidersAreReporters(ps: seq<ProviderRates>, s: string, name: string)
    requires Reported(ps, s)
    ensures s in Providers(Collect(ps)).vals
    ensures name in Providers(Collect(ps)).vals[s] <==>
      exists i :: 0 <= i < |ps| && ps[i].provider == name && s in ps[i].rates.vals
  {
    var m := Collect(ps);
    assert Providers(m).vals[s] == SortedProviders(ObsFor(ps, s));
    ListedIffObserved(ObsFor(ps, s), name);
    ObservedIffReported(ps, s, name);
  }

  lemma ListedIffObserved(obs: seq<Observation>, name: string)
    ensures name in SortedProviders(obs) <==> exists k :: 0 <= k < |obs| && obs[k].provider == name
  {
    var ns := SortedProviders(obs);
    assert name in ns <==> name in multiset(ns);
    assert name in ProviderNames(obs) <==> name in multiset(ProviderNames(obs));
  }

  lemma ObservedIffReported(ps: seq<ProviderRates>, s: string, name: string)
    ensures (exists k :: 0 <= k < |ObsFor(ps, s)| && ObsFor(ps, s)[k].provider == name) <==>
      exists i :: 0 <= i < |ps| && ps[i].provider == name && s in ps[i].rates.vals
  {
    var obs := ObsFor(ps, s);
    forall k | 0 <= k < |obs| && obs[k].provider == name
      ensures exists i :: 0 <= i < |ps| && ps[i].provider == name && s in ps[i].rates.vals
    {
      FilterMapMember(ps, ObservationOf(s), obs[k]);
      var i :| 0 <= i < |ps| && ObservationOf(s)(ps[i]) == Some(obs[k]);
    }
    forall i | 0 <= i < |ps| && ps[i].provider == name && s in ps[i].rates.vals
      ensures exists k :: 0 <= k < |obs| && obs[k].provider == name
    {
      var o := Observation(name, ps[i].rates.vals[s]);
      assert ObservationOf(s)(ps[i]) == Some(o);
      FilterMapMember(ps, ObservationOf(s), o);
      var k :| 0 <= k < |obs| && obs[k] == o;
    }
  }

  /** Reading the same provider files in another order leaves every
      symbol's observations the same up to order. */
  lemma ObservationsPermute(ps: seq<ProviderRates>, qs: seq<ProviderRates>, s: string)
    requires multiset(ps) == multiset(qs)
    ensures Reported(ps, s) <==> Reported(qs, s)
    ensures multiset(ObsFor(ps, s)) == multiset(ObsFor(qs, s))
  {
    FilterMapPermutation(ps, qs, ObservationOf(s));
    if Reported(ps, s) {
      var i :| 0 <= i < |ps| && s in ps[i].rates.vals;
      assert ps[i] in multiset(qs);
      var j :| 0 <= j < |qs| && qs[j] == ps[i];
    }
    if Reported(qs, s) {
      var j :| 0 <= j < |qs| && s in qs[j].rates.vals;
      assert qs[j] in multiset(ps);
      var i :| 0 <= i < |ps| && ps[i] == qs[j];
    }
  }

  function ValueOf(o: Observation): Option<real>
  {
    Some(o.value)
  }

  function ProviderOf(o: Observation): Option<string>
  {
    Some(o.provider)
  }

  lemma ValuesPermute(a: seq<Observation>, b: seq<Observation>)
    requires multiset(a) == multiset(b)
    ensures multiset(Values(a)) == multiset(Values(b))
    ensures multiset(ProviderNames(a)) == multiset(ProviderNames(b))
  {
    ValuesOfPermutation(a, b);
    NamesOfPermutation(a, b);
  }

  lemma ValuesOfPermutation(a: seq<Observation>, b: seq<Observation>)
    requires multiset(a) == multiset(b)
    ensures multiset(Values(a)) == multiset(Values(b))
  {
    FilterMapTotal(a, ValueOf);
    FilterMapTotal(b, ValueOf);
    assert Values(a) == FilterMap(a, ValueOf);
    assert Values(b) == FilterMap(b, ValueOf);
    FilterMapPermutation(a, b, ValueOf);
  }

  lemma NamesOfPermutation(a: seq<Observation>, b: seq<Observation>)
    requires multiset(a) == multiset(b)
    ensures multiset(ProviderNames(a)) == multiset(ProviderNames(b))
  {
    FilterMapTotal(a, ProviderOf);
    FilterMapTotal(b, ProviderOf);
    assert ProviderNames(a) == FilterMap(a, ProviderOf);
    assert ProviderNames(b) == FilterMap(b, ProviderOf);
    FilterMapPermutation(a, b, ProviderOf);
  }

  /** The consensus of a symbol does not depend on the order in which the
      provider files are read. */
  lemma MedianIgnoresFileOrder(ps: seq<ProviderRates>, qs: seq<ProviderRates>, s: string)
    requires multiset(ps) == multiset(qs)
    ensures s in ComputeMedianRates(Collect(ps)).vals <==> s in ComputeMedianRates(Collect(qs)).vals
    ensures s in ComputeMedianRates(Collect(ps)).vals ==>
      ComputeMedianRates(Collect(ps)).vals[s] == ComputeMedianRates(Collect(qs)).vals[s]
  {
    ObservationsPermute(ps, qs, s);
    if Reported(ps, s) {
      assert ObsFor(ps, s) == Collect(ps).vals[s];
      ValuesPermute(ObsFor(ps, s), ObsFor(qs, s));
      MedianPermutation(Values(ObsFor(ps, s)), Values(ObsFor(qs, s)));
    }
  }

  /** Nor does the list of providers behind a symbol. */
  lemma ProvidersIgnoreFileOrder(ps: seq<ProviderRates>, qs: seq<ProviderRates>, s: string)
    requires multiset(ps) == multiset(qs)
    ensures s in Providers(Collect(ps)).vals <==> s in Providers(Collect(qs)).vals
    ensures s in Providers(Collect(ps)).vals ==>
      Providers(Collect(ps)).vals[s] == Providers(Collect(qs)).vals[s]
  {
    ObservationsPermute(ps, qs, s);
    if Reported(ps, s) {
      ValuesPermute(ObsFor(ps, s), ObsFor(qs, s));
      LexLeIsTotalOrder();
      Sorting.SortedUnique(SortedProviders(ObsFor(ps, s)), SortedProviders(ObsFor(qs, s)), LexLe);
    }
  }

  /** The consensus table as written to `rates.json`. */
  function Table(files: seq<ProviderFile>): (t: seq<(string, real)>)
    ensures StrictlyAscending(t)
    ensures forall s :: (exists i :: 0 <= i < |t| && t[i].0 == s) <==> Reported(Participants(files), s)
    ensures forall i :: 0 <= i < |t| ==>
      |ObsFor(Participants(files), t[i].0)| > 0 && t[i].1 == Median.Median(Values(ObsFor(Participants(files), t[i].0)))
  {
    var med := ComputeMedianRates(Collect(Participants(files)));
    Emit(med)
  }

  lemma MediansIgnoreFileOrder(ps: seq<ProviderRates>, qs: seq<ProviderRates>)
    requires multiset(ps) == multiset(qs)
    ensures ComputeMedianRates(Collect(ps)).vals == ComputeMedianRates(Collect(qs)).vals
  {
    var a := ComputeMedianRates(Collect(ps)).vals;
    var b := ComputeMedianRates(Collect(qs)).vals;
    forall s
      ensures s in a <==> s in b
      ensures s in a ==> a[s] == b[s]
    {
      MedianIgnoresFileOrder(ps, qs, s);
    }
    SameEntries(a, b);
  }

  lemma SameEntries(a: map<string, real>, b: map<string, real>)
    requires forall s :: s in a <==> s in b
    requires forall s :: s in a ==> a[s] == b[s]
    ensures a == b
  {
  }

  /** The published table is the same whatever order the directory listing
      returns the provider files in. */
  lemma TableIgnoresFileOrder(files: seq<ProviderFile>, others: seq<ProviderFile>)
    requires multiset(files) == multiset(others)
    ensures Table(files) == Table(others)
  {
    var ps := Participants(files);
    var qs := Participants(others);
    FilterMapPermutation(files, others, Loaded);
    MediansIgnoreFileOrder(ps, qs);
    EmitIgnoresInsertionOrder(ComputeMedianRates(Collect(ps)), ComputeMedianRates(Collect(qs)));
  }

  /** Everything one run writes or reports. */
  datatype Publication = Publication(
    rates: seq<(string, real)>,
    count: nat,
    names: Object<string>,
    providers: Object<seq<string>>,
    deviations: seq<Diagnostic>,
    missing: seq<Diagnostic>)

  /**
    The aggregation run over the provider files and the two catalogues:
    the consensus table in ascending order with its count, the catalogue
    names, the providers behind each symbol, and the two kinds of report.
  */
  function Run(files: seq<ProviderFile>, fiat: Object<string>, crypto: Object<string>): (out: Publication)
    ensures out.rates == Table(files)
    ensures out.count == |out.rates|
    ensures forall s :: Missing(s) in out.missing <==>
      (s in fiat.vals || s in crypto.vals) && !Reported(Participants(files), s)
    ensures forall d :: d in out.missing ==> d.Missing?
    ensures forall s :: s in out.names.vals <==> s in fiat.vals || s in crypto.vals
    ensures forall s :: s in out.providers.vals <==> Reported(Participants(files), s)
  {
    var ps := Participants(files);
    var grouped := Collect(ps);
    var med := ComputeMedianRates(grouped);
    var table := Emit(med);
    Publication(
      table,
      |table|,
      Names(fiat, crypto),
      Providers(grouped),
      CheckDeviations(grouped, med.vals),
      CheckCompleteness(ExpectedSymbols(fiat, crypto), med.vals))
  }

  lemma RunNamesPart(files: seq<ProviderFile>, fiat: Object<string>, crypto: Object<string>, out: Publication)
    requires out == Run(files, fiat, crypto)
    ensures out.names == Names(fiat, crypto)
  {
  }

  lemma RunProvidersPart(files: seq<ProviderFile>, fiat: Object<string>, crypto: Object<string>, out: Publication)
    requires out == Run(files, fiat, crypto)
    ensures out.providers == Providers(Collect(Participants(files)))
  {
  }

  lemma RunMissingPart(files: seq<ProviderFile>, fiat: Object<string>, crypto: Object<string>, out: Publication)
    requires out == Run(files, fiat, crypto)
    ensures out.missing == CheckCompleteness(ExpectedSymbols(fiat, crypto),
                                             ComputeMedianRates(Collect(Participants(files))).vals)
  {
  }

  /** The missing-rate reports of a run come in ascending symbol order. */
  lemma RunMissingAscending(files: seq<ProviderFile>, fiat: Object<string>, crypto: Object<string>, out: Publication)
    requires out == Run(files, fiat, crypto)
    ensures AscendingSymbols(out.missing)
  {
    RunMissingPart(files, fiat, crypto, out);
    MissingOrderFrom(fiat, crypto, Participants(files), out.missing);
  }

  lemma MissingOrderFrom(fiat: Object<string>, crypto: Object<string>, ps: seq<ProviderRates>, r: seq<Diagnostic>)
    requires r == CheckCompleteness(ExpectedSymbols(fiat, crypto), ComputeMedianRates(Collect(ps)).vals)
    ensures AscendingSymbols(r)
  {
    var med := ComputeMedianRates(Collect(ps));
    MissingAscending(ExpectedSymbols(fiat, crypto), med.vals, r);
  }

  /** A symbol nobody reported is reported missing once per catalogue
      that lists it. */
  lemma RunMissingPerListing(files: seq<ProviderFile>, fiat: Object<string>, crypto: Object<string>, out: Publication, s: string)
    requires out == Run(files, fiat, crypto)
    requires !Reported(Participants(files), s)
    ensures multiset(out.missing)[Missing(s)] == (if s in fiat.vals then 1 else 0) + (if s in crypto.vals then 1 else 0)
  {
    RunMissingPart(files, fiat, crypto, out);
    MissingCountFrom(fiat, crypto, Participants(files), out.missing, s);
  }

  lemma MissingCountFrom(fiat: Object<string>, crypto: Object<string>, ps: seq<ProviderRates>, r: seq<Diagnostic>, s: string)
    requires r == CheckCompleteness(ExpectedSymbols(fiat, crypto), ComputeMedianRates(Collect(ps)).vals)
    requires !Reported(ps, s)
    ensures multiset(r)[Missing(s)] == (if s in fiat.vals then 1 else 0) + (if s in crypto.vals then 1 else 0)
  {
    var med := ComputeMedianRates(Collect(ps));
    MissingPerListing(fiat, crypto, ps, med.vals, r);
  }

  /** A run's names table gives the crypto name when the crypto catalogue
      lists the code, and the fiat name otherwise. */
  lemma RunNames(files: seq<ProviderFile>, fiat: Object<string>, crypto: Object<string>, out: Publication, s: string)
    requires out == Run(files, fiat, crypto)
    requires s in fiat.vals || s in crypto.vals
    ensures s in out.names.vals && out.names.vals[s] == if s in crypto.vals then crypto.vals[s] else fiat.vals[s]
  {
    RunNamesPart(files, fiat, crypto, out);
    NameOf(fiat, crypto, out.names, s);
  }

  lemma NameOf(fiat: Object<string>, crypto: Object<string>, names: Object<string>, s: string)
    requires names == Names(fiat, crypto)
    requires s in fiat.vals || s in crypto.vals
    ensures s in names.vals && names.vals[s] == if s in crypto.vals then crypto.vals[s] else fiat.vals[s]
  {
  }

  /** A run's provider list for a symbol is ascending and names exactly
      the providers that reported it. */
  lemma RunProviders(files: seq<ProviderFile>, fiat: Object<string>, crypto: Object<string>, out: Publication, s: string, name: string)
    requires out == Run(files, fiat, crypto)
    requires Reported(Participants(files), s)
    ensures s in out.providers.vals
    ensures Sorting.Sorted(out.providers.vals[s], LexLe)
    ensures name in out.providers.vals[s] <==> ReportedBy(Participants(files), s, name)
  {
    RunProvidersPart(files, fiat, crypto, out);
    var ps := Participants(files);
    ProvidersListed(ps, Collect(ps), out.providers);
  }

  /** Provider `name` reports symbol `s`. */
  ghost predicate ReportedBy(ps: seq<ProviderRates>, s: string, name: string)
  {
    exists i :: 0 <= i < |ps| && ps[i].provider == name && s in ps[i].rates.vals
  }

  /** The reports name their symbols in ascending order. */
  predicate AscendingSymbols(r: seq<Diagnostic>)
  {
    forall a, b :: 0 <= a < b < |r| ==> LexLe(r[a].symbol, r[b].symbol)
  }

  /** Missing-rate reports against an ascending list come in ascending order. */
  lemma MissingAscending(expected: seq<string>, med: map<string, real>, r: seq<Diagnostic>)
    requires Sorting.Sorted(expected, LexLe)
    requires r == CheckCompleteness(expected, med)
    ensures AscendingSymbols(r)
  {
    CompletenessOrder(expected, med, r);
    forall a, b | 0 <= a < b < |r|
      ensures LexLe(r[a].symbol, r[b].symbol)
    {
      var i, j :| 0 <= i < j < |expected| && expected[i] == r[a].symbol && expected[j] == r[b].symbol;
    }
  }

  /** A symbol nobody reported gets one report per catalogue listing it. */
  lemma MissingPerListing(fiat: Object<string>, crypto: Object<string>, ps: seq<ProviderRates>,
                          med: map<string, real>, r: seq<Diagnostic>)
    requires forall s :: s in med ==> Reported(ps, s)
    requires r == CheckCompleteness(ExpectedSymbols(fiat, crypto), med)
    ensures forall s :: !Reported(ps, s) ==>
      multiset(r)[Missing(s)] == (if s in fiat.vals then 1 else 0) + (if s in crypto.vals then 1 else 0)
  {
    forall s | !Reported(ps, s)
      ensures multiset(r)[Missing(s)] == (if s in fiat.vals then 1 else 0) + (if s in crypto.vals then 1 else 0)
    {
      CompletenessMultiplicity(ExpectedSymbols(fiat, crypto), med, s);
      ExpectedMultiplicity(fiat, crypto, s);
    }
  }

  /** Each provider list is ascending and names exactly the reporters. */
  lemma ProvidersListed(ps: seq<ProviderRates>, m: Object<seq<Observation>>, prov: Object<seq<string>>)
    requires m == Collect(ps) && prov == Providers(m)
    ensures forall s :: s in prov.vals ==> Sorting.Sorted(prov.vals[s], LexLe)
    ensures forall s, name :: s in prov.vals ==> (name in prov.vals[s] <==> ReportedBy(ps, s, name))
  {
    forall s, name | s in prov.vals
      ensures name in prov.vals[s] <==> ReportedBy(ps, s, name)
    {
      ProvidersAreReporters(ps, s, name);
    }
  }

  /** The consensus-based reading of a deviation: a flagged observation
      of a reported symbol, against the median of all that symbol's
      observations. */
  ghost predicate FlaggedAgainstConsensus(ps: seq<ProviderRates>, d: Diagnostic)
  {
    d.Deviation? && Reported(ps, d.symbol)
    && Observation(d.provider, d.value) in ObsFor(ps, d.symbol)
    && d.median == Median.Median(Values(ObsFor(ps, d.symbol)))
    && d.deviation == Ratio(d.value, Some(d.median))
    && AboveTolerance(d.deviation)
  }

  /** A run reports a deviation exactly for each observation lying more
      than a tenth away from its symbol's consensus. */
  lemma RunFlagsExactly(files: seq<ProviderFile>, fiat: Object<string>, crypto: Object<string>, d: Diagnostic)
    ensures d in Run(files, fiat, crypto).deviations <==> FlaggedAgainstConsensus(Participants(files), d)
  {
    var ps := Participants(files);
    var grouped := Collect(ps);
    var med := ComputeMedianRates(grouped);
    RunDeviations(files, fiat, crypto, ps, grouped, med);
    ConsensusFlags(ps, grouped, med, d);
  }

  lemma ConsensusFlags(ps: seq<ProviderRates>, grouped: Object<seq<Observation>>, med: Object<real>, d: Diagnostic)
    requires grouped == Collect(ps) && med == ComputeMedianRates(grouped)
    ensures d in CheckDeviations(grouped, med.vals) <==> FlaggedAgainstConsensus(ps, d)
  {
    FlagsExactly(ps, grouped, med.vals, CheckDeviations(grouped, med.vals), d);
  }

  lemma RunDeviations(files: seq<ProviderFile>, fiat: Object<string>, crypto: Object<string>,
                      ps: seq<ProviderRates>, grouped: Object<seq<Observation>>, med: Object<real>)
    requires ps == Participants(files) && grouped == Collect(ps) && med == ComputeMedianRates(grouped)
    ensures Run(files, fiat, crypto).deviations == CheckDeviations(grouped, med.vals)
  {
  }

  /** Against grouped observations and their medians, the reports are
      exactly the flagged observations. */
  lemma FlagsExactly(ps: seq<ProviderRates>, m: Object<seq<Observation>>, med: map<string, real>, r: seq<Diagnostic>, d: Diagnostic)
    requires forall s :: s in m.vals <==> Reported(ps, s)
    requires forall s :: s in m.vals ==> m.vals[s] == ObsFor(ps, s) && |m.vals[s]| > 0
    requires forall s :: s in med <==> s in m.vals
    requires forall s :: s in med ==> med[s] == Median.Median(Values(m.vals[s]))
    requires forall d :: d in r <==> exists s, i :: Raises(m, med, s, i, d)
    ensures d in r <==> FlaggedAgainstConsensus(ps, d)
  {
    if d in r {
      var s, i :| Raises(m, med, s, i, d);
      RaisedIsFlagged(ps, m, med, s, i, d);
    }
    if FlaggedAgainstConsensus(ps, d) {
      assert d.symbol in m.vals && m.vals[d.symbol] == ObsFor(ps, d.symbol);
      FlaggedIsRaised(m, med, d);
    }
  }

  lemma RaisedIsFlagged(ps: seq<ProviderRates>, m: Object<seq<Observation>>, med: map<string, real>, s: string, i: int, d: Diagnostic)
    requires forall s :: s in m.vals <==> Reported(ps, s)
    requires forall s :: s in m.vals ==> m.vals[s] == ObsFor(ps, s) && |m.vals[s]| > 0
    requires forall s :: s in med <==> s in m.vals
    requires forall s :: s in med ==> med[s] == Median.Median(Values(m.vals[s]))
    requires Raises(m, med, s, i, d)
    ensures FlaggedAgainstConsensus(ps, d)
  {
    var o := m.vals[s][i];
    assert o in ObsFor(ps, s);
    assert d == Deviation(o.provider, s, Ratio(o.value, Some(med[s])), o.value, med[s]);
  }

  lemma FlaggedIsRaised(m: Object<seq<Observation>>, med: map<string, real>, d: Diagnostic)
    requires d.Deviation? && d.symbol in m.vals && d.symbol in med && d.median == med[d.symbol]
    requires Observation(d.provider, d.value) in m.vals[d.symbol]
    requires d.deviation == Ratio(d.value, Some(d.median)) && AboveTolerance(d.deviation)
    ensures exists s, i :: Raises(m, med, s, i, d)
  {
    var obs := m.vals[d.symbol];
    var i :| 0 <= i < |obs| && obs[i] == Observation(d.provider, d.value);
    assert Check(d.symbol, Lookup(med, d.symbol))(obs[i]) == Some(d);
    assert Raises(m, med, d.symbol, i, d);
  }

  /** A provider with an empty rates object contributes nothing. */
  lemma CollectSkipsEmptyExample(ps: seq<ProviderRates>)
    requires |ps| == 2
    requires ps[0].provider == "a" && ps[0].rates.vals == map[]
    requires ps[1].provider == "b" && ps[1].rates.vals == map["USD" := 1.0]
    ensures forall s :: s in Collect(ps).vals <==> s == "USD"
    ensures Collect(ps).vals["USD"] == [Observation("b", 1.0)]
  {
    var f := ObservationOf("USD");
    assert Reported(ps, "USD") by {
      assert "USD" in ps[1].rates.vals;
    }
    assert f(ps[0]) == None;
    assert f(ps[1]) == Some(Observation("b", 1.0));
    assert ps[1..][1..] == [];
    assert FilterMap(ps[1..], f) == [Observation("b", 1.0)];
    assert ObsFor(ps, "USD") == [Observation("b", 1.0)];
    forall s | s in Collect(ps).vals
      ensures s == "USD"
    {
      var i :| 0 <= i < |ps| && s in ps[i].rates.vals;
    }
  }

  /** Three and two observations: medians 1.1 and 0.925. */
  lemma MedianRatesExample(m: Object<seq<Observation>>, usd: seq<Observation>, eur: seq<Observation>)
    requires usd == [Observation("a", 1.0), Observation("b", 1.2), Observation("c", 1.1)]
    requires eur == [Observation("a", 0.9), Observation("b", 0.95)]
    requires forall s :: s in m.vals ==> s in {"USD", "EUR"}
    requires "USD" in m.vals && m.vals["USD"] == usd
    requires "EUR" in m.vals && m.vals["EUR"] == eur
    ensures ComputeMedianRates(m).vals["USD"] == 1.1
    ensures ComputeMedianRates(m).vals["EUR"] == 0.925
  {
    ValuesOfThree(usd);
    MedianOfThree(Values(usd));
    ValuesOfTwo(eur);
    MedianOfTwo(Values(eur));
  }

  lemma ValuesOfThree(usd: seq<Observation>)
    requires usd == [Observation("a", 1.0), Observation("b", 1.2), Observation("c", 1.1)]
    ensures Values(usd) == [1.0, 1.2, 1.1]
  {
  }

  lemma ValuesOfTwo(eur: seq<Observation>)
    requires eur == [Observation("a", 0.9), Observation("b", 0.95)]
    ensures Values(eur) == [0.9, 0.95]
  {
  }

  lemma MedianOfThree(vs: seq<real>)
    requires vs == [1.0, 1.2, 1.1]
    ensures Median.Median(vs) == 1.1
  {
    var sorted := [1.0, 1.1, 1.2];
    ArrangedThree(vs, sorted);
    MedianOfSorted(vs, sorted);
  }

  lemma ArrangedThree(vs: seq<real>, sorted: seq<real>)
    requires vs == [1.0, 1.2, 1.1] && sorted == [1.0, 1.1, 1.2]
    ensures |vs| > 0 && Sorting.Sorted(sorted, Median.RealLe) && multiset(sorted) == multiset(vs)
    ensures sorted[|sorted| / 2] == 1.1 && |sorted| % 2 != 0
  {
    assert multiset(sorted) == multiset(vs);
  }

  lemma MedianOfTwo(vs: seq<real>)
    requires vs == [0.9, 0.95]
    ensures Median.Median(vs) == 0.925
  {
    ArrangedTwo(vs);
    MedianOfSorted(vs, vs);
  }

  lemma ArrangedTwo(vs: seq<real>)
    requires vs == [0.9, 0.95]
    ensures |vs| > 0 && Sorting.Sorted(vs, Median.RealLe)
    ensures (vs[|vs| / 2 - 1] + vs[|vs| / 2]) / 2.0 == 0.925 && |vs| % 2 == 0
  {
  }

  /** 11 against a median of 10 is exactly 10% away and is not reported. */
  lemma ExactlyTenPercentExample(m: Object<seq<Observation>>, med: map<string, real>)
    requires m == RawObject(["USD"], map["USD" := [Observation("a", 11.0)]])
    requires med == map["USD" := 10.0]
    ensures CheckDeviations(m, med) == []
  {
    var obs := m.vals["USD"];
    var f := Check("USD", Lookup(med, "USD"));
    assert Ratio(11.0, Some(10.0)) == Fin(0.1);
    assert f(obs[0]) == None;
    assert obs[1..] == [];
    assert FilterMap(obs, f) == [];
    assert m.keys[1..] == [];
  }

  /** 1.5 against a median of 1 is 50% away: one report, naming provider b. */
  lemma FiftyPercentExample(m: Object<seq<Observation>>, med: map<string, real>)
    requires m == RawObject(["USD"], map["USD" := [Observation("a", 1.0), Observation("b", 1.5)]])
    requires med == map["USD" := 1.0]
    ensures CheckDeviations(m, med) == [Deviation("b", "USD", Fin(0.5), 1.5, 1.0)]
  {
    var obs := m.vals["USD"];
    var f := Check("USD", Lookup(med, "USD"));
    assert Ratio(1.0, Some(1.0)) == Fin(0.0);
    assert Ratio(1.5, Some(1.0)) == Fin(0.5);
    assert f(obs[0]) == None;
    assert f(obs[1]) == Some(Deviation("b", "USD", Fin(0.5), 1.5, 1.0));
    assert obs[1..] == [obs[1]];
    assert FilterMap(obs, f) == [Deviation("b", "USD", Fin(0.5), 1.5, 1.0)];
    assert m.keys[1..] == [];
  }

  /** `checkCompleteness(['USD', 'EUR', 'GBP'], { USD: 1.0 })` reports EUR
      and GBP, in that order. */
  lemma CompletenessExample(expected: seq<string>, med: map<string, real>)
    requires expected == ["USD", "EUR", "GBP"]
    requires med == map["USD" := 1.0]
    ensures CheckCompleteness(expected, med) == [Missing("EUR"), Missing("GBP")]
  {
    var f := MissingFrom(med);
    assert f("USD") == None && f("EUR") == Some(Missing("EUR")) && f("GBP") == Some(Missing("GBP"));
    assert expected[1..] == ["EUR", "GBP"];
    assert expected[1..][1..] == ["GBP"];
    assert expected[1..][1..][1..] == [];
    assert FilterMap(["GBP"], f) == [Missing("GBP")];
    assert FilterMap(["EUR", "GBP"], f) == [Missing("EUR"), Missing("GBP")];
  }

  /** Two providers far from a USD median of 1 and one far from a EUR
      median of 1: at least two reports. */
  lemma MultipleDeviationsExample(m: Object<seq<Observation>>, med: map<string, real>)
    requires "USD" in m.vals && m.vals["USD"] == [Observation("a", 0.5), Observation("b", 2.0)]
    requires "EUR" in m.vals && m.vals["EUR"] == [Observation("c", 5.0)]
    requires "USD" in med && med["USD"] == 1.0
    requires "EUR" in med && med["EUR"] == 1.0
    ensures |CheckDeviations(m, med)| >= 2
  {
    var d1 := Deviation("a", "USD", Fin(0.5), 0.5, 1.0);
    var d2 := Deviation("b", "USD", Fin(1.0), 2.0, 1.0);
    UsdRaises(m, med, d1, d2);
    TwoReports(m, med, CheckDeviations(m, med), d1, d2);
  }

  lemma UsdRaises(m: Object<seq<Observation>>, med: map<string, real>, d1: Diagnostic, d2: Diagnostic)
    requires "USD" in m.vals && m.vals["USD"] == [Observation("a", 0.5), Observation("b", 2.0)]
    requires "USD" in med && med["USD"] == 1.0
    requires d1 == Deviation("a", "USD", Fin(0.5), 0.5, 1.0)
    requires d2 == Deviation("b", "USD", Fin(1.0), 2.0, 1.0)
    ensures Raises(m, med, "USD", 0, d1) && Raises(m, med, "USD", 1, d2)
  {
    assert Ratio(0.5, Some(1.0)) == Fin(0.5);
    assert Ratio(2.0, Some(1.0)) == Fin(1.0);
  }

  lemma TwoReports(m: Object<seq<Observation>>, med: map<string, real>, r: seq<Diagnostic>, d1: Diagnostic, d2: Diagnostic)
    requires forall d :: d in r <==> exists s, i :: Raises(m, med, s, i, d)
    requires Raises(m, med, "USD", 0, d1) && Raises(m, med, "USD", 1, d2) && d1 != d2
    ensures |r| >= 2
  {
    assert d1 in r && d2 in r;
  }
}
