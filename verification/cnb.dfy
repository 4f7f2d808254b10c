/**
  Czech National Bank: each row quotes CZK per `amount` units of a
  currency (a lot size such as 100 for JPY). The per-unit CZK value is
  `rate / amount`; units of X per 1 CHF are CZK-per-CHF over CZK-per-X,
  and CZK itself is CZK-per-CHF.
*/
module Cnb {
  import opened Numbers
  import opened Text
  import opened Objects
  import opened Results
  import opened Conversion

  /** A row's quotation: `rate` CZK for `amount` units. */
  datatype Lot = Lot(rate: Num, amount: Num)

  /** The `(currencyCode, lot)` rows, in document order. */
  type Rows = seq<(string, Lot)>

  /** `+row.rate / +row.amount`: CZK per single unit. */
  function PerUnit(l: Lot): (x: Num)
    ensures l.rate.Fin? && l.amount.Fin? && l.amount.value != 0.0 ==> x == Fin(l.rate.value / l.amount.value)
  {
    Div(l.rate, l.amount)
  }

  /** `czkRates[code.toUpperCase()] = rate / amount`: codes are upper-cased,
      and a later row for the same code overwrites an earlier one. */
  function CzkTable(rows: Rows): (t: Rates)
    ensures forall c :: c in t.vals <==> Occurs(rows, Upper, c)
    ensures forall c :: c in t.vals ==> exists i :: LastFor(rows, Upper, c, i) && t.vals[c] == PerUnit(rows[i].1)
  {
    Select(rows, Upper, KeepAll, PerUnit)
  }

  /** Units of each tracked currency per 1 CHF. */
  function Rates(rows: Rows, tracked: set<string>): (r: Result<Rates, Error>)
    ensures r.Failure? <==> !PivotUsable(CzkTable(rows).vals, "CHF")
    ensures r.Failure? ==> r.error == PivotNotFound("CHF")
    ensures r.Success? ==>
      var t := CzkTable(rows).vals;
      forall c :: c in r.value.vals <==> c in tracked && (c in t || c == "CZK")
    ensures r.Success? ==>
      var t := CzkTable(rows).vals;
      forall c :: c in r.value.vals && c != "CZK" ==> r.value.vals[c] == Div(t["CHF"], t[c])
    ensures r.Success? && "CZK" in tracked ==> r.value.vals["CZK"] == CzkTable(rows).vals["CHF"]
  {
    InvertViaChf(CzkTable(rows), tracked, "CZK")
  }

  /** With a finite CHF entry, CHF itself comes out at exactly 1. */
  lemma ChfIsOne(rows: Rows, tracked: set<string>)
    requires "CHF" in tracked
    requires Rates(rows, tracked).Success? && CzkTable(rows).vals["CHF"].Fin?
    ensures Rates(rows, tracked).value.vals["CHF"] == Fin(1.0)
  {
    DivSelf(CzkTable(rows).vals["CHF"]);
  }

  /** Quoting a row for a lot `k` times as large, at `k` times the price,
      changes nothing: neither the table nor any published rate. */
  lemma LotScaleInvariant(rows: Rows, i: int, k: real, tracked: set<string>)
    requires 0 <= i < |rows| && k > 0.0
    ensures var l := rows[i].1;
      var scaled := rows[i := (rows[i].0, Lot(Mul(Fin(k), l.rate), Mul(Fin(k), l.amount)))];
      CzkTable(scaled) == CzkTable(rows) && Rates(scaled, tracked) == Rates(rows, tracked)
  {
    var l := rows[i].1;
    var scaled := rows[i := (rows[i].0, Lot(Mul(Fin(k), l.rate), Mul(Fin(k), l.amount)))];
    DivScaleInvariant(k, l.rate, l.amount);
    SelectCongruent(scaled, rows, Upper, KeepAll, PerUnit);
  }

  /** A later row replaces the value of any earlier row whose code
      upper-cases the same way. */
  lemma LaterRowWins(rows: Rows, code: string, lot: Lot)
    ensures CzkTable(rows + [(code, lot)]).vals == CzkTable(rows).vals[Upper(code) := PerUnit(lot)]
  {
    SelectSnoc(rows, (code, lot), Upper, KeepAll, PerUnit);
  }

  /** The rates as written out: ascending by code, values unchanged. */
  function Output(rows: Rows, tracked: set<string>): (out: Result<seq<(string, Num)>, Error>)
    ensures out.Success? <==> Rates(rows, tracked).Success?
    ensures out.Failure? ==> out.error == PivotNotFound("CHF")
    ensures out.Success? ==>
      StrictlyAscending(out.value) && ListsExactly(out.value, Rates(rows, tracked).value.vals)
  {
    Published(Rates(rows, tracked))
  }
}
