/**
  National Bank of Poland: table A quotes the mid rate in PLN per 1 unit of
  each currency. Units of X per 1 CHF are PLN-per-CHF over PLN-per-X, and
  PLN itself is PLN-per-CHF.
*/
module Nbp {
  import opened Numbers
  import opened Text
  import opened Objects
  import opened Results
  import opened Conversion

  /** The `(code, mid)` rows of the table, in document order. */
  type Rows = seq<(string, Num)>

  /** `plnRates[row.code.toUpperCase()] = +row.mid`: codes are upper-cased,
      and a later row for the same code overwrites an earlier one. */
  function PlnTable(rows: Rows): (t: Rates)
    ensures forall c :: c in t.vals <==> Occurs(rows, Upper, c)
    ensures forall c :: c in t.vals ==> exists i :: LastFor(rows, Upper, c, i) && t.vals[c] == rows[i].1
  {
    Select(rows, Upper, KeepAll, Unchanged)
  }

  /** Units of each tracked currency per 1 CHF. */
  function Rates(rows: Rows, tracked: set<string>): (r: Result<Rates, Error>)
    ensures r.Failure? <==> !PivotUsable(PlnTable(rows).vals, "CHF")
    ensures r.Failure? ==> r.error == PivotNotFound("CHF")
    ensures r.Success? ==>
      var t := PlnTable(rows).vals;
      forall c :: c in r.value.vals <==> c in tracked && (c in t || c == "PLN")
    ensures r.Success? ==>
      var t := PlnTable(rows).vals;
      forall c :: c in r.value.vals && c != "PLN" ==> r.value.vals[c] == Div(t["CHF"], t[c])
    ensures r.Success? && "PLN" in tracked ==> r.value.vals["PLN"] == PlnTable(rows).vals["CHF"]
  {
    InvertViaChf(PlnTable(rows), tracked, "PLN")
  }

  /** With a finite CHF mid rate, CHF itself comes out at exactly 1. */
  lemma ChfIsOne(rows: Rows, tracked: set<string>)
    requires "CHF" in tracked
    requires Rates(rows, tracked).Success? && PlnTable(rows).vals["CHF"].Fin?
    ensures Rates(rows, tracked).value.vals["CHF"] == Fin(1.0)
  {
    DivSelf(PlnTable(rows).vals["CHF"]);
  }

  /** A later row replaces the value of any earlier row whose code
      upper-cases the same way. */
  lemma LaterRowWins(rows: Rows, code: string, mid: Num)
    ensures PlnTable(rows + [(code, mid)]).vals == PlnTable(rows).vals[Upper(code) := mid]
  {
    SelectSnoc(rows, (code, mid), Upper, KeepAll, Unchanged);
  }

  /** The rates as written out: ascending by code, values unchanged. */
  function Output(rows: Rows, tracked: set<string>): (out: Result<seq<(string, Num)>, Error>)
    ensures out.Success? <==> Rates(rows, tracked).Success?
    ensures out.Failure? ==> out.error == PivotNotFound("CHF")
    ensures out.Success? ==>
      StrictlyAscending(out.value) && ListsExactly(out.value, Rates(rows, tracked).value.vals)
  {
    Published(Rates(rows, tracked))
  }
}
