/**
  Federal Office for Customs and Border Security (BAZG): each quotation
  gives the CHF price `kurs` of `amount` units of a currency, so units of
  X per 1 CHF are `amount / kurs`. No pivot is needed, and the conversion
  itself cannot fail.
*/
module Bazg {
  import opened Numbers
  import opened Text
  import opened Objects
  import opened Conversion

  /** `amount` units of the currency cost `kurs` CHF. */
  datatype Quote = Quote(amount: Num, kurs: Num)

  /** `amount / kurs`: units per 1 CHF. */
  function PerChf(q: Quote): (x: Num)
    ensures q.amount.Fin? && q.kurs.Fin? && q.kurs.value != 0.0 ==> x == Fin(q.amount.value / q.kurs.value)
  {
    Div(q.amount, q.kurs)
  }

  /** The matched `(code, quote)` rows, in document order. */
  type Rows = seq<(string, Quote)>

  /** `rates[code.toUpperCase()] = amount / kurs` for each tracked row: a
      later row for the same code overwrites an earlier one. */
  function Rates(rows: Rows, tracked: set<string>): (r: Rates)
    ensures forall s :: s in r.vals <==> s in tracked && Occurs(rows, Upper, s)
    ensures forall s :: s in r.vals ==> exists i :: LastFor(rows, Upper, s, i) && r.vals[s] == PerChf(rows[i].1)
  {
    var keep := (s: string) => s in tracked;
    Select(rows, Upper, keep, PerChf)
  }

  /** When no row's code upper-cases to a tracked code (no rows at all, in
      particular), the rate table is empty. */
  lemma NoRowsNoRates(rows: Rows, tracked: set<string>)
    requires forall i :: 0 <= i < |rows| ==> Upper(rows[i].0) !in tracked
    ensures Rates(rows, tracked).vals == map[]
  {
  }

  /** A later tracked row replaces the value of any earlier row whose code
      upper-cases the same way; an untracked one changes nothing. */
  lemma LaterRowWins(rows: Rows, code: string, q: Quote, tracked: set<string>)
    ensures Upper(code) in tracked ==> Rates(rows + [(code, q)], tracked).vals == Rates(rows, tracked).vals[Upper(code) := PerChf(q)]
    ensures Upper(code) !in tracked ==> Rates(rows + [(code, q)], tracked) == Rates(rows, tracked)
  {
    var keep := (s: string) => s in tracked;
    SelectSnoc(rows, (code, q), Upper, keep, PerChf);
  }

  /** The rates as written out: ascending by code, values unchanged. */
  function Output(rows: Rows, tracked: set<string>): (out: seq<(string, Num)>)
    ensures StrictlyAscending(out) && ListsExactly(out, Rates(rows, tracked).vals)
  {
    Emit(Rates(rows, tracked))
  }
}
