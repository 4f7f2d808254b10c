/**
  CoinGecko: market listings with a CHF price per coin. The rate is coins
  per 1 CHF, `1 / price`, taken from the first listing of a tracked symbol
  whose price is usable.
*/
module Coingecko {
  import opened Numbers
  import opened Text
  import opened Objects
  import opened Conversion

  /** The `(symbol, current_price)` listings, in payload order. */
  type Listings = seq<(string, Num)>

  function Invert(price: Num): (x: Num)
    ensures price.Fin? && price.value != 0.0 ==> x == Fin(1.0 / price.value)
  {
    Div(Fin(1.0), price)
  }

  /** Coins per 1 CHF for every tracked symbol with a usable listing. */
  function Rates(items: Listings, tracked: set<string>): (r: Rates)
    ensures forall s :: s in r.vals <==> s in tracked && exists i :: Usable(items, s, i)
    ensures forall s :: s in r.vals ==> exists i :: FirstUsable(items, s, i) && r.vals[s] == Invert(items[i].1)
  {
    var keep := (s: string) => s in tracked;
    FirstWins(items, keep, Invert)
  }

  /** A recorded rate is `1 / price` of the symbol's first usable listing:
      exact for a finite price, zero for an infinite one. */
  lemma RateInvertsPrice(items: Listings, tracked: set<string>, s: string)
    requires s in Rates(items, tracked).vals
    ensures exists i ::
      && FirstUsable(items, s, i)
      && (items[i].1.Fin? ==> Rates(items, tracked).vals[s] == Fin(1.0 / items[i].1.value))
      && (items[i].1.Inf? ==> Rates(items, tracked).vals[s] == Fin(0.0))
  {
    var i :| FirstUsable(items, s, i) && Rates(items, tracked).vals[s] == Invert(items[i].1);
  }

  /** Once a symbol is recorded, a later listing of it changes nothing; a
      listing with a zero or NaN price changes nothing either. */
  lemma FirstListingWins(items: Listings, x: (string, Num), tracked: set<string>)
    requires Upper(x.0) in Rates(items, tracked).vals || !Truthy(x.1)
    ensures Rates(items + [x], tracked).vals == Rates(items, tracked).vals
  {
    var keep := (s: string) => s in tracked;
    FirstWinsSnoc(items, x, keep, Invert);
  }

  /** A usable listing of a tracked symbol not yet recorded is recorded. */
  lemma NewListingRecorded(items: Listings, x: (string, Num), tracked: set<string>)
    requires Upper(x.0) in tracked && Upper(x.0) !in Rates(items, tracked).vals && Truthy(x.1)
    ensures Rates(items + [x], tracked).vals == Rates(items, tracked).vals[Upper(x.0) := Invert(x.1)]
  {
    var keep := (s: string) => s in tracked;
    FirstWinsSnoc(items, x, keep, Invert);
  }

  /** The rates as written out: ascending by symbol, values unchanged. */
  function Output(items: Listings, tracked: set<string>): (out: seq<(string, Num)>)
    ensures StrictlyAscending(out) && ListsExactly(out, Rates(items, tracked).vals)
  {
    Emit(Rates(items, tracked))
  }
}
