/**
  fawazahmed0 currency-api: the CHF document already quotes units of each
  currency, fiat and crypto alike, per 1 CHF. Codes are upper-cased and
  kept when they are in either catalogue.
*/
module Fawazahmed0 {
  import opened Numbers
  import opened Text
  import opened Objects
  import opened Conversion

  /** `{ ...fiatConfig, ...cryptoConfig }`: a code is tracked when either
      catalogue lists it. */
  function Tracked(fiat: set<string>, crypto: set<string>): (t: set<string>)
    ensures forall c :: c in t <==> c in fiat || c in crypto
  {
    fiat + crypto
  }

  /** Units of each tracked currency per 1 CHF, copied from `data`. */
  function Rates(data: Rates, fiat: set<string>, crypto: set<string>): (r: Rates)
    ensures forall s :: s in r.vals <==> (s in fiat || s in crypto) && exists k :: k in data.vals && Upper(k) == s
    ensures forall s :: s in r.vals ==> exists k :: k in data.vals && Upper(k) == s && r.vals[s] == data.vals[k]
    ensures forall s :: s in r.vals ==>
      exists i :: LastFor(Entries(data), Upper, s, i) && r.vals[s] == data.vals[data.keys[i]]
  {
    CopyObject(data, Tracked(fiat, crypto))
  }

  /** Copying against the union gives, for each catalogue, exactly what
      copying against that catalogue alone would give. */
  lemma UnionAgreesWithEach(data: Rates, fiat: set<string>, crypto: set<string>, part: set<string>, s: string)
    requires (part == fiat || part == crypto) && s in part
    ensures s in Rates(data, fiat, crypto).vals <==> s in CopyObject(data, part).vals
    ensures s in CopyObject(data, part).vals ==> Rates(data, fiat, crypto).vals[s] == CopyObject(data, part).vals[s]
  {
    CopyTrackedMonotone(Entries(data), part, Tracked(fiat, crypto), s);
  }

  /** The rates as written out: ascending by code, values unchanged. */
  function Output(data: Rates, fiat: set<string>, crypto: set<string>): (out: seq<(string, Num)>)
    ensures StrictlyAscending(out) && ListsExactly(out, Rates(data, fiat, crypto).vals)
  {
    Emit(Rates(data, fiat, crypto))
  }
}
