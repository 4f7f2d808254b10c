/**
  Open Exchange Rates: the payload's `rates` object quotes every currency
  per 1 USD. Rates per 1 CHF divide by the payload's CHF entry. Payload
  keys are compared with the catalogue exactly as they are spelt.
*/
module OpenExchangeRates {
  import opened Numbers
  import opened Objects
  import opened Results
  import opened Conversion

  /** Units of each tracked currency per 1 CHF, from the USD-based `data`. */
  function Rates(data: Rates, tracked: set<string>): (r: Result<Rates, Error>)
    ensures r.Failure? <==> !PivotUsable(data.vals, "CHF")
    ensures r.Failure? ==> r.error == PivotNotFound("CHF")
    ensures r.Success? ==> forall c :: c in r.value.vals <==> c in data.vals && c in tracked
    ensures r.Success? ==> forall c :: c in r.value.vals ==> r.value.vals[c] == Div(data.vals[c], data.vals["CHF"])
  {
    if !PivotUsable(data.vals, "CHF") then Failure(PivotNotFound("CHF"))
    else Success(DivideTracked(data, tracked, data.vals["CHF"]))
  }

  /** With a finite CHF entry, CHF itself comes out at exactly 1. */
  lemma ChfIsOne(data: Rates, tracked: set<string>)
    requires "CHF" in tracked
    requires Rates(data, tracked).Success? && data.vals["CHF"].Fin?
    ensures Rates(data, tracked).value.vals["CHF"] == Fin(1.0)
  {
    DivSelf(data.vals["CHF"]);
  }

  /** A key spelt in lower case does not match its upper-case catalogue entry. */
  lemma KeysTakenAsSpelt(data: Rates)
    requires data.vals == map["CHF" := Fin(0.8), "usd" := Fin(1.0)]
    ensures Rates(data, {"CHF", "USD"}).Success?
    ensures Rates(data, {"CHF", "USD"}).value.vals.Keys == {"CHF"}
  {
    SpeltKeys(data, {"CHF", "USD"}, Rates(data, {"CHF", "USD"}));
  }

  lemma SpeltKeys(data: Rates, tracked: set<string>, r: Result<Rates, Error>)
    requires data.vals == map["CHF" := Fin(0.8), "usd" := Fin(1.0)] && tracked == {"CHF", "USD"}
    requires r.Failure? <==> !PivotUsable(data.vals, "CHF")
    requires r.Success? ==> forall c :: c in r.value.vals <==> c in data.vals && c in tracked
    ensures r.Success? && r.value.vals.Keys == {"CHF"}
  {
    assert PivotUsable(data.vals, "CHF");
    assert "usd" !in tracked;
    assert "USD" !in data.vals;
  }

  /** The rates as written out: ascending by code, values unchanged. */
  function Output(data: Rates, tracked: set<string>): (out: Result<seq<(string, Num)>, Error>)
    ensures out.Success? <==> Rates(data, tracked).Success?
    ensures out.Failure? ==> out.error == PivotNotFound("CHF")
    ensures out.Success? ==>
      StrictlyAscending(out.value) && ListsExactly(out.value, Rates(data, tracked).value.vals)
  {
    Published(Rates(data, tracked))
  }
}
