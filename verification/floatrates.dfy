/**
  FloatRates: the CHF document is an object of items, each carrying its own
  currency `code` and a `rate` in units per 1 CHF. The object's own keys
  play no part: the code comes from the item, upper-cased.
*/
module Floatrates {
  import opened Numbers
  import opened Objects
  import opened Conversion

  /** One item of the document. */
  datatype Item = Item(code: string, rate: Num)

  /** `Object.entries(data)` with the outer key dropped: `(item.code, +item.rate)`. */
  function Codes(data: Object<Item>): (es: seq<(string, Num)>)
    ensures |es| == |data.keys|
    ensures forall i :: 0 <= i < |es| ==> es[i] == (data.vals[data.keys[i]].code, data.vals[data.keys[i]].rate)
  {
    seq(|data.keys|, i requires 0 <= i < |data.keys| => (data.vals[data.keys[i]].code, data.vals[data.keys[i]].rate))
  }

  /** Units of each tracked currency per 1 CHF: a code is present exactly
      when it is tracked and some item's code upper-cases to it, and its
      rate is the last such item's. */
  function Rates(data: Object<Item>, tracked: set<string>): (r: Rates)
    ensures forall s :: s in r.vals <==> s in tracked && Occurs(Codes(data), Text.Upper, s)
    ensures forall s :: s in r.vals ==>
      exists i :: LastFor(Codes(data), Text.Upper, s, i) && r.vals[s] == data.vals[data.keys[i]].rate
  {
    CopyTracked(Codes(data), tracked)
  }

  /** Renaming the outer keys changes nothing: documents listing the same
      items in the same order give the same rates. */
  lemma OuterKeysIgnored(a: Object<Item>, b: Object<Item>, tracked: set<string>)
    requires |a.keys| == |b.keys|
    requires forall i :: 0 <= i < |a.keys| ==> a.vals[a.keys[i]] == b.vals[b.keys[i]]
    ensures Rates(a, tracked) == Rates(b, tracked)
  {
    assert Codes(a) == Codes(b);
  }

  /** The rates as written out: ascending by code, values unchanged. */
  function Output(data: Object<Item>, tracked: set<string>): (out: seq<(string, Num)>)
    ensures StrictlyAscending(out) && ListsExactly(out, Rates(data, tracked).vals)
  {
    Emit(Rates(data, tracked))
  }
}
