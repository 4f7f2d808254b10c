/**
  ExchangeRate-API (open access): the latest rates for CHF already quote units of each currency per 1 CHF. Codes are upper-cased and kept when they are in the fiat catalogue.
*/
module ExchangeRate {
  import opened Numbers
  import opened Text
  import opened Objects
  import opened Conversion

  /** Units of each tracked currency per 1 CHF, copied from `data`. */
  function Rates(data: Rates, tracked: set<string>): (r: Rates)
    ensures forall s :: s in r.vals <==> s in tracked && exists k :: k in data.vals && Upper(k) == s
    ensures forall s :: s in r.vals ==> exists k :: k in data.vals && Upper(k) == s && r.vals[s] == data.vals[k]
    ensures forall s :: s in r.vals ==>
      exists i :: LastFor(Entries(data), Upper, s, i) && r.vals[s] == data.vals[data.keys[i]]
  {
    CopyObject(data, tracked)
  }

  /** A payload whose codes are already upper case is copied as it is,
      restricted to the tracked codes. */
  lemma UpperCaseCopied(data: Rates, tracked: set<string>)
    requires forall k :: k in data.vals ==> IsUpper(k)
    ensures Rates(data, tracked).vals == map c | c in data.vals && c in tracked :: data.vals[c]
  {
    CopyUpperIsRestriction(data, tracked);
  }

  /** The rates as written out: ascending by code, values unchanged. */
  function Output(data: Rates, tracked: set<string>): (out: seq<(string, Num)>)
    ensures StrictlyAscending(out) && ListsExactly(out, Rates(data, tracked).vals)
  {
    Emit(Rates(data, tracked))
  }
}
