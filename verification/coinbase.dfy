/**
  Coinbase: the exchange-rates endpoint, asked for CHF, already quotes units of each currency per 1 CHF. Codes are upper-cased and kept when they are in the crypto catalogue.
*/
module Coinbase {
  import opened Numbers
  import opened Text
  import opened Objects
  import opened Conversion

  /** Units of each tracked currency per 1 CHF, copied from `data`. */
  function Rates(data: Rates, tracked: set<string>): (r: Rates)
    ensures forall s :: s in r.vals <==> s in tracked && exists k :: k in data.vals && Upper(k) == s
    ensures forall s :: s in r.vals ==> exists k :: k in data.vals && Upper(k) == s && r.vals[s] == data.vals[k]
    ensures forall s :: s in r.vals ==>
      exists i :: LastFor(Entries(data), Upper, s, i) && r.vals[s] == data.vals[data.keys[i]]
  {
    CopyObject(data, tracked)
  }

  /** A payload whose codes are already upper case is copied as it is,
      restricted to the tracked codes. */
  lemma UpperCaseCopied(data: Rates, tracked: set<string>)
    requires forall k :: k in data.vals ==> IsUpper(k)
    ensures Rates(data, tracked).vals == map c | c in data.vals && c in tracked :: data.vals[c]
  {
    CopyUpperIsRestriction(data, tracked);
  }

  /** Keys that differ only in case collapse into one code, and the later
      key's value wins. */
  lemma CaseVariantsCollapse(data: Rates)
    requires data.keys == ["btc", "BTC"] && data.vals == map["btc" := Fin(1.0), "BTC" := Fin(2.0)]
    ensures Rates(data, {"BTC"}).vals.Keys == {"BTC"}
    ensures Rates(data, {"BTC"}).vals["BTC"] == Fin(2.0)
  {
    var es := Entries(data);
    assert es == [("btc", Fin(1.0)), ("BTC", Fin(2.0))];
    LaterVariantWins(es, CopyTracked(es, {"BTC"}));
  }

  lemma LaterVariantWins(es: seq<(string, Num)>, r: Rates)
    requires es == [("btc", Fin(1.0)), ("BTC", Fin(2.0))]
    requires forall s :: s in r.vals <==> s in {"BTC"} && Occurs(es, Upper, s)
    requires forall s :: s in r.vals ==> exists i :: LastFor(es, Upper, s, i) && r.vals[s] == es[i].1
    ensures r.vals.Keys == {"BTC"} && r.vals["BTC"] == Fin(2.0)
  {
    assert Upper("btc") == "BTC" by {
      assert Upper("btc")[0] == 'B' && Upper("btc")[1] == 'T' && Upper("btc")[2] == 'C';
    }
    assert Upper("BTC") == "BTC" by {
      UpperFixesUpper("BTC");
    }
    assert Upper(es[1].0) == "BTC";
    assert Occurs(es, Upper, "BTC") && "BTC" in r.vals;
    var i :| LastFor(es, Upper, "BTC", i) && r.vals["BTC"] == es[i].1;
    assert i == 1;
  }

  /** The rates as written out: ascending by code, values unchanged. */
  function Output(data: Rates, tracked: set<string>): (out: seq<(string, Num)>)
    ensures StrictlyAscending(out) && ListsExactly(out, Rates(data, tracked).vals)
  {
    Emit(Rates(data, tracked))
  }
}
