/**
  Coinranking: coin prices in USD, converted to CHF through the exchange
  rate of the CHF reference currency. The rate of a coin is
  `1 / (usdPrice * (1 / exchangeRate))`, which is `exchangeRate / usdPrice`
  for finite non-zero operands; the first usable listing of a tracked
  symbol wins.
*/
module Coinranking {
  import opened Numbers
  import opened Text
  import opened Objects
  import opened Results
  import opened Conversion

  /** The `(symbol, exchangeRate)` reference currencies, in payload order. */
  type References = seq<(string, Num)>

  /** The `(symbol, price)` coins, in payload order. */
  type Listings = seq<(string, Num)>

  /** `refs.find(c => c.symbol === 'CHF')`: the exchange rate of the first
      reference whose symbol is exactly `CHF` (no case folding). */
  function FindChf(refs: References): (r: Option<Num>)
    ensures r.None? <==> forall i :: 0 <= i < |refs| ==> refs[i].0 != "CHF"
    ensures r.Some? ==> exists i ::
      && 0 <= i < |refs| && refs[i] == ("CHF", r.value)
      && forall j :: 0 <= j < i ==> refs[j].0 != "CHF"
  {
    if |refs| == 0 then None
    else if refs[0].0 == "CHF" then Some(refs[0].1)
    else
      var r := FindChf(refs[1..]);
      assert forall i :: 1 <= i < |refs| ==> refs[i] == refs[1..][i - 1];
      if r.Some? then
        var i :| 0 <= i < |refs[1..]| && refs[1..][i] == ("CHF", r.value) &&
                 forall j :: 0 <= j < i ==> refs[1..][j].0 != "CHF";
        assert refs[i + 1] == ("CHF", r.value);
        r
      else r
  }

  /** `1 / (usdPrice * usdToChf)`: coins per 1 CHF. */
  function CoinRate(price: Num, usdToChf: Num): Num
  {
    Div(Fin(1.0), Mul(price, usdToChf))
  }

  /** Coins per 1 CHF for every tracked symbol with a usable listing, or the
      reason the CHF reference rate could not be used. */
  function Rates(refs: References, coins: Listings, tracked: set<string>): (r: Result<Rates, Error>)
    ensures FindChf(refs).None? <==> r == Failure(ReferenceNotFound("CHF"))
    ensures r == Failure(ReferenceRateUnusable) <==>
      FindChf(refs).Some? && !(FindChf(refs).value.Fin? && FindChf(refs).value.value != 0.0)
    ensures r.Success? <==>
      FindChf(refs).Some? && FindChf(refs).value.Fin? && FindChf(refs).value.value != 0.0
    ensures r.Success? ==> forall s :: s in r.value.vals <==> s in tracked && exists i :: Usable(coins, s, i)
    ensures r.Success? ==> forall s :: s in r.value.vals ==>
      exists i :: FirstUsable(coins, s, i) && r.value.vals[s] == CoinRate(coins[i].1, Div(Fin(1.0), FindChf(refs).value))
  {
    match FindChf(refs)
    case None => Failure(ReferenceNotFound("CHF"))
    case Some(exchangeRate) =>
      var usdToChf := Div(Fin(1.0), exchangeRate);
      if !Truthy(usdToChf) || !IsFinite(usdToChf) then Failure(ReferenceRateUnusable)
      else
        var keep := (s: string) => s in tracked;
        var rate := (p: Num) => CoinRate(p, usdToChf);
        Success(FirstWins(coins, keep, rate))
  }

  /** For finite non-zero operands the formula reduces to `exchangeRate / price`. */
  lemma CoinRateReduces(price: real, exchangeRate: real)
    requires price != 0.0 && exchangeRate != 0.0
    ensures CoinRate(Fin(price), Div(Fin(1.0), Fin(exchangeRate))) == Fin(exchangeRate / price)
  {
    var u := 1.0 / exchangeRate;
    assert u * exchangeRate == 1.0;
    assert price * u != 0.0;
    assert (price * u) * (exchangeRate / price) == 1.0 by {
      assert (price * u) * (exchangeRate / price) == (u * exchangeRate) * (price / price);
    }
  }

  /** Every recorded rate is `exchangeRate / price` of the first usable
      listing, when that price is finite. */
  lemma RateIsExchangeRateOverPrice(refs: References, coins: Listings, tracked: set<string>, s: string)
    requires Rates(refs, coins, tracked).Success?
    requires s in Rates(refs, coins, tracked).value.vals
    ensures exists i ::
      && FirstUsable(coins, s, i)
      && (coins[i].1.Fin? ==> Rates(refs, coins, tracked).value.vals[s] == Fin(FindChf(refs).value.value / coins[i].1.value))
  {
    var er := FindChf(refs).value;
    var i :| FirstUsable(coins, s, i) && Rates(refs, coins, tracked).value.vals[s] == CoinRate(coins[i].1, Div(Fin(1.0), er));
    if coins[i].1.Fin? {
      CoinRateReduces(coins[i].1.value, er.value);
    }
  }

  /** Once a symbol is recorded, a later listing of it changes nothing. */
  lemma FirstListingWins(refs: References, coins: Listings, x: (string, Num), tracked: set<string>)
    requires Rates(refs, coins, tracked).Success?
    requires Upper(x.0) in Rates(refs, coins, tracked).value.vals || !Truthy(x.1)
    ensures Rates(refs, coins + [x], tracked) == Rates(refs, coins, tracked)
  {
    var usdToChf := Div(Fin(1.0), FindChf(refs).value);
    var keep := (s: string) => s in tracked;
    var rate := (p: Num) => CoinRate(p, usdToChf);
    FirstWinsSnoc(coins, x, keep, rate);
  }

  /** The rates as written out: ascending by symbol, values unchanged. */
  function Output(refs: References, coins: Listings, tracked: set<string>): (out: Result<seq<(string, Num)>, Error>)
    ensures out.Success? <==> Rates(refs, coins, tracked).Success?
    ensures out.Failure? ==> out.error == Rates(refs, coins, tracked).error
    ensures out.Success? ==>
      StrictlyAscending(out.value) && ListsExactly(out.value, Rates(refs, coins, tracked).value.vals)
  {
    Published(Rates(refs, coins, tracked))
  }
}
