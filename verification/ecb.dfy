/**
  European Central Bank: the daily reference table quotes every currency
  as "units of X per 1 EUR". Rates per 1 CHF divide by the table's CHF
  entry; EUR itself is not in the table and is 1 / (EUR-table CHF rate).
*/
module Ecb {
  import opened Numbers
  import opened Text
  import opened Objects
  import opened Results
  import opened Conversion

  /** The `(currency, rate)` pairs in document order, already coerced with `+`. */
  type Rows = seq<(string, Num)>

  /** `eurRates[code] = +rate` for each row: a later row for the same code
      overwrites an earlier one. */
  function EurTable(rows: Rows): (t: Rates)
    ensures forall c :: c in t.vals <==> Occurs(rows, AsSpelt, c)
    ensures forall c :: c in t.vals ==> exists i :: LastFor(rows, AsSpelt, c, i) && t.vals[c] == rows[i].1
  {
    Select(rows, AsSpelt, KeepAll, Unchanged)
  }

  /** Units of each tracked currency per 1 CHF, from the EUR table `t`. */
  function FromTable(t: Rates, tracked: set<string>): (r: Result<Rates, Error>)
    ensures r.Failure? <==> !PivotUsable(t.vals, "CHF")
    ensures r.Failure? ==> r.error == PivotNotFound("CHF")
    ensures r.Success? ==> forall c :: c in r.value.vals <==> c in tracked && (c in t.vals || c == "EUR")
    ensures r.Success? ==> forall c :: c in r.value.vals && c != "EUR" ==> r.value.vals[c] == Div(t.vals[c], t.vals["CHF"])
    ensures r.Success? && "EUR" in tracked ==> r.value.vals["EUR"] == Div(Fin(1.0), t.vals["CHF"])
  {
    if !PivotUsable(t.vals, "CHF") then Failure(PivotNotFound("CHF"))
    else
      var eurPerChf := t.vals["CHF"];
      var rates := DivideTracked(t, tracked, eurPerChf);
      var out := if "EUR" in tracked then Put(rates, "EUR", Div(Fin(1.0), eurPerChf)) else rates;
      HomeAdded(t, tracked, "EUR", Div(Fin(1.0), eurPerChf), rates, out);
      Success(out)
  }

  /** The adapter's conversion of the parsed rows. */
  function Rates(rows: Rows, tracked: set<string>): (r: Result<Rates, Error>)
    ensures r.Failure? <==> !PivotUsable(EurTable(rows).vals, "CHF")
    ensures r.Failure? ==> r.error == PivotNotFound("CHF")
    ensures r.Success? ==>
      var t := EurTable(rows).vals;
      forall c :: c in r.value.vals <==> c in tracked && (c in t || c == "EUR")
    ensures r.Success? ==>
      var t := EurTable(rows).vals;
      forall c :: c in r.value.vals && c != "EUR" ==> r.value.vals[c] == Div(t[c], t["CHF"])
    ensures r.Success? && "EUR" in tracked ==>
      r.value.vals["EUR"] == Div(Fin(1.0), EurTable(rows).vals["CHF"])
  {
    FromTable(EurTable(rows), tracked)
  }

  /** With a finite CHF entry, CHF itself comes out at exactly 1. */
  lemma ChfIsOne(rows: Rows, tracked: set<string>)
    requires "CHF" in tracked
    requires "CHF" in EurTable(rows).vals && EurTable(rows).vals["CHF"].Fin?
    requires Rates(rows, tracked).Success?
    ensures Rates(rows, tracked).value.vals["CHF"] == Fin(1.0)
  {
    DivSelf(EurTable(rows).vals["CHF"]);
  }

  /** A later row for a code replaces the value of any earlier one. */
  lemma LaterRowWins(rows: Rows, code: string, rate: Num)
    ensures EurTable(rows + [(code, rate)]).vals == EurTable(rows).vals[code := rate]
  {
    SelectSnoc(rows, (code, rate), AsSpelt, KeepAll, Unchanged);
  }

  /** The rates as written out: ascending by code, values unchanged. */
  function Output(rows: Rows, tracked: set<string>): (out: Result<seq<(string, Num)>, Error>)
    ensures out.Success? <==> Rates(rows, tracked).Success?
    ensures out.Failure? ==> out.error == PivotNotFound("CHF")
    ensures out.Success? ==>
      StrictlyAscending(out.value) && ListsExactly(out.value, Rates(rows, tracked).value.vals)
  {
    Published(Rates(rows, tracked))
  }
}
