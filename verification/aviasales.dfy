/**
  Aviasales: the payload maps lower-case currency codes to RUB per 1 unit.
  The pivot is read under the key `chf`; units of X per 1 CHF are
  RUB-per-CHF over RUB-per-X, keyed by the upper-cased code.
*/
module Aviasales {
  import opened Numbers
  import opened Text
  import opened Objects
  import opened Results
  import opened Conversion

  /** Units of each tracked currency per 1 CHF, from the RUB-based `data`. */
  function Rates(data: Rates, tracked: set<string>): (r: Result<Rates, Error>)
    ensures r.Failure? <==> !PivotUsable(data.vals, "chf")
    ensures r.Failure? ==> r.error == PivotNotFound("CHF")
    ensures r.Success? ==> forall s :: s in r.value.vals <==> s in tracked && Occurs(Entries(data), Upper, s)
    ensures r.Success? ==> forall s :: s in r.value.vals ==>
      exists i :: LastFor(Entries(data), Upper, s, i) && r.value.vals[s] == Div(data.vals["chf"], data.vals[data.keys[i]])
  {
    if !PivotUsable(data.vals, "chf") then Failure(PivotNotFound("CHF"))
    else
      var rubPerChf := data.vals["chf"];
      var keep := (s: string) => s in tracked;
      var invert := (x: Num) => Div(rubPerChf, x);
      Success(Select(Entries(data), Upper, keep, invert))
  }

  /** When `chf` is the only key that upper-cases to CHF and its value is
      finite, CHF itself comes out at exactly 1. */
  lemma ChfIsOne(data: Rates, tracked: set<string>)
    requires "CHF" in tracked
    requires Rates(data, tracked).Success? && data.vals["chf"].Fin?
    requires forall k :: k in data.vals && Upper(k) == "CHF" ==> k == "chf"
    ensures Rates(data, tracked).value.vals["CHF"] == Fin(1.0)
  {
    OnlyChfKey(data, tracked, Entries(data), Rates(data, tracked).value);
  }

  lemma OnlyChfKey(data: Rates, tracked: set<string>, es: seq<(string, Num)>, r: Rates)
    requires "CHF" in tracked && PivotUsable(data.vals, "chf") && data.vals["chf"].Fin?
    requires forall k :: k in data.vals && Upper(k) == "CHF" ==> k == "chf"
    requires |es| == |data.keys|
    requires forall i :: 0 <= i < |es| ==> es[i].0 == data.keys[i] && es[i].1 == data.vals[data.keys[i]]
    requires forall s :: s in r.vals <==> s in tracked && Occurs(es, Upper, s)
    requires forall s :: s in r.vals ==>
      exists i :: LastFor(es, Upper, s, i) && r.vals[s] == Div(data.vals["chf"], data.vals[data.keys[i]])
    ensures "CHF" in r.vals && r.vals["CHF"] == Fin(1.0)
  {
    assert "chf" in data.keys;
    var j :| 0 <= j < |data.keys| && data.keys[j] == "chf";
    assert Upper("chf") == "CHF" by {
      assert Upper("chf")[0] == 'C' && Upper("chf")[1] == 'H' && Upper("chf")[2] == 'F';
    }
    assert Upper(es[j].0) == "CHF";
    var i :| LastFor(es, Upper, "CHF", i) && r.vals["CHF"] == Div(data.vals["chf"], data.vals[data.keys[i]]);
    assert data.keys[i] in data.vals;
    DivSelf(data.vals["chf"]);
  }

  /** The rates as written out: ascending by code, values unchanged. */
  function Output(data: Rates, tracked: set<string>): (out: Result<seq<(string, Num)>, Error>)
    ensures out.Success? <==> Rates(data, tracked).Success?
    ensures out.Failure? ==> out.error == PivotNotFound("CHF")
    ensures out.Success? ==>
      StrictlyAscending(out.value) && ListsExactly(out.value, Rates(data, tracked).value.vals)
  {
    Published(Rates(data, tracked))
  }
}
