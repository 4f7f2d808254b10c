# Daily CHF exchange-rate consensus, modelled in Dafny

The system publishes one table a day of "units of X per 1 CHF" for fiat
and crypto currencies. Thirteen provider adapters each fetch one source.
Each adapter converts that source's quote convention into CHF-based rates,
keeps only the tracked catalogue codes, and writes the rates out in
ascending code order. The publish step then reads every provider file and
works in this order:

- it drops files without rates;
- it groups the observations per symbol;
- it takes the median of each symbol as its consensus value;
- it reports observations more than 10% away from their median;
- it reports catalogue symbols that got no value;
- it writes the sorted table with a count, the display names and the
  providers behind each symbol.

This project models the conversion step of every adapter and the whole
aggregation step as pure Dafny functions, and proves what each one
promises.

Layout. The project has one module per source file and a few shared
modules:

- `Numbers` holds the JavaScript numbers that adapter arithmetic can
  produce. A value is finite, ±Infinity or NaN, `!x` is modelled, and
  division follows IEEE rules.
- `Text` holds ASCII `toUpperCase` and the default string sort order.
- `Sorting` holds the sort behind every `.sort()`.
- `Seqs` holds filter/map over sequences.
- `Objects` holds insertion-ordered JavaScript objects (for keys that are
  not array indices):
  - the later-write-wins assignment loop is `Select`;
  - the `Object.keys(o).sort().reduce(...)` re-listing is `Emit`.
- `Conversion` holds the strategies the adapters share:
  - divide by a pivot;
  - invert via CHF;
  - direct copy;
  - first usable listing wins.
- `Results` holds `Option` and `Result`.
- `Median` and `Publish` hold the aggregation.

Where the code and its design notes disagree, the model follows the code:

- Fiat adapters let a later row for a code overwrite an earlier one. Only
  the two crypto-price adapters keep the first occurrence.
- A pivot that is zero or NaN is rejected the same way as a missing one,
  because the code tests `!pivot`.

## Model

| member | source | states |
|---|---|---|
| Numbers.Div | src/ecb.js:30 | a finite quotient for a finite non-zero divisor; ±Infinity for a non-zero number over 0, NaN for 0/0 and NaN operands, 0 for finite over infinite |
| Numbers.Mul | src/coinranking.js:49 | finite products are exact; NaN operands and Infinity × 0 give NaN |
| Numbers.DivSelf | src/ecb.js:29-30 | a finite non-zero number divided by itself is exactly 1 |
| Numbers.DivScaleInvariant | src/cnb.js:19 | scaling numerator and denominator by the same positive factor leaves the quotient unchanged, including the 0, Infinity and NaN cases |
| Text.Upper | src/nbp.js:21 | upper-casing keeps the length and maps each ASCII lower-case letter to its capital, leaving other characters alone |
| Text.UpperIsUpper | src/nbp.js:21 | an upper-cased code has no lower-case ASCII letter left |
| Text.UpperFixesUpper | src/coinbase.js:40 | a code with no lower-case letter is unchanged by upper-casing |
| Text.LexLeIsTotalOrder | src/publish.js:98 | the default string order is total, transitive and antisymmetric |
| Sorting.Sort | src/publish.js:8 | the result is ascending and is a permutation of the input |
| Sorting.SortedUnique | src/publish.js:97-98 | two ascending permutations of the same elements are equal, so a sort result depends only on the multiset of its input |
| Sorting.SortPermutation | src/publish.js:8 | sorting gives the same result for any order of the same elements |
| Objects.Put | src/ecb.js:20 | assignment sets the key's value; an existing key keeps its position and a new key goes last |
| Objects.Select | src/ecb.js:18-21 | after the assignment loop, a key is present exactly when some entry normalises to it and is kept, and its value comes from the last such entry |
| Objects.SelectSnoc | src/ecb.js:20 | one more kept entry overwrites its key and an unkept one changes nothing |
| Objects.SelectCongruent | src/cnb.js:19 | entries that agree on normalised key and transformed value give the same object |
| Objects.Emit | src/ecb.js:38-43 | the re-listed entries have strictly ascending keys and hold exactly the object's entries, one per key |
| Objects.EmitIgnoresInsertionOrder | src/publish.js:97-102 | two objects with the same contents emit the same list, whatever order their keys were inserted in |
| Conversion.ConvertTracked | src/ecb.js:26-31 | exactly the tracked codes of the source object, each with its own value transformed |
| Conversion.DivideTracked | src/ecb.js:26-31 | exactly the tracked codes of the table, each divided by the pivot |
| Conversion.InvertTracked | src/nbp.js:27-31 | exactly the tracked codes of the table, each as pivot over its own value |
| Conversion.CopyTracked | src/floatrates.js:15-20 | a code is kept exactly when it is tracked and some entry's upper-cased key equals it; the value is copied from the last such entry |
| Conversion.CopyObject | src/frankfurter.js:15-20 | the result keys are the tracked upper-cased source keys; each value is that of the last source key, in `Object.entries` order, that upper-cases to it |
| Conversion.CopyUpperIsRestriction | src/exchangerate.js:16-19 | on upper-case source keys, the copy is the source restricted to the tracked codes |
| Conversion.CopyTrackedMonotone | src/fawazahmed0.js:12-25 | widening the tracked set changes neither membership nor value of a code tracked in both |
| Conversion.InvertViaChf | src/nbp.js:24-36 | error exactly when CHF is missing, zero or NaN; otherwise tracked codes of the table (plus the home currency) with CHF over X, and the home currency gets the CHF entry itself |
| Conversion.Published | src/ecb.js:38-43 | an error passes through; otherwise the output lists exactly the rates, ascending, one per code |
| Conversion.FirstWins | src/coingecko.js:15-23 | a symbol is recorded exactly when it is kept and has a listing with a truthy price; its value comes from the first such listing |
| Conversion.FirstWinsSnoc | src/coingecko.js:19-22 | one more listing is recorded only if its symbol is kept, not yet recorded and its price truthy |
| Ecb.EurTable | src/ecb.js:18-21 | the EUR table holds a code exactly when some row has it, with the value of the last such row |
| Ecb.FromTable | src/ecb.js:23-36 | error exactly when CHF is missing, zero or NaN; otherwise tracked table codes plus EUR, each X as table[X] / table[CHF], EUR as 1 / table[CHF] |
| Ecb.Rates | src/ecb.js:18-36 | the same statements phrased over the parsed rows |
| Ecb.ChfIsOne | src/ecb.js:26-31 | with a finite CHF entry, CHF comes out as exactly 1 |
| Ecb.LaterRowWins | src/ecb.js:18-21 | appending a row for a code sets that code's table value to the new rate |
| Ecb.Output | src/ecb.js:38-43 | the written list succeeds exactly when the conversion does and lists its rates ascending |
| OpenExchangeRates.Rates | src/openexchangerates.js:23-30 | error exactly when CHF is missing, zero or NaN; otherwise exactly the tracked source codes, each divided by the CHF rate |
| OpenExchangeRates.ChfIsOne | src/openexchangerates.js:29 | a finite CHF rate gives CHF exactly 1 |
| OpenExchangeRates.KeysTakenAsSpelt | src/openexchangerates.js:27-28 | a lower-case source key is not matched against an upper-case catalogue code |
| OpenExchangeRates.Output | src/openexchangerates.js:32-37 | ascending listing of exactly the converted rates, or the error |
| Nbp.PlnTable | src/nbp.js:19-22 | the PLN table is keyed by upper-cased codes, the last row for a code winning |
| Nbp.Rates | src/nbp.js:24-36 | error exactly when CHF is missing, zero or NaN; otherwise tracked codes plus PLN, X as plnPerChf / plnPerX, PLN as plnPerChf |
| Nbp.ChfIsOne | src/nbp.js:27-31 | a finite CHF mid rate gives CHF exactly 1 |
| Nbp.LaterRowWins | src/nbp.js:19-22 | appending a row sets the table value of its upper-cased code |
| Nbp.Output | src/nbp.js:38-43 | ascending listing of exactly the converted rates, or the error |
| Cnb.PerUnit | src/cnb.js:19 | for finite rate and non-zero finite amount, the per-unit value is rate / amount |
| Cnb.CzkTable | src/cnb.js:17-20 | the CZK table is keyed by upper-cased codes with per-unit values, the last row for a code winning |
| Cnb.Rates | src/cnb.js:22-34 | error exactly when CHF is missing, zero or NaN; otherwise tracked codes plus CZK, X as czkPerChf / czkPerX, CZK as czkPerChf |
| Cnb.ChfIsOne | src/cnb.js:26-29 | a finite CHF entry gives CHF exactly 1 |
| Cnb.LotScaleInvariant | src/cnb.js:19 | multiplying one row's rate and amount by the same positive factor changes neither the table nor the rates |
| Cnb.LaterRowWins | src/cnb.js:17-20 | appending a row sets the table value of its upper-cased code to its per-unit value |
| Cnb.Output | src/cnb.js:36-41 | ascending listing of exactly the converted rates, or the error |
| Aviasales.Rates | src/aviasales.js:16-24 | error exactly when the lower-case `chf` entry is missing, zero or NaN; otherwise the tracked upper-cased keys, each as data['chf'] over the last source value under it |
| Aviasales.ChfIsOne | src/aviasales.js:23 | when `chf` is the only key upper-casing to CHF and is finite, CHF comes out as exactly 1 |
| Aviasales.Output | src/aviasales.js:26-31 | ascending listing of exactly the converted rates, or the error |
| Bazg.PerChf | src/bazg.js:21-25 | for finite amount and non-zero finite kurs, the rate is amount / kurs |
| Bazg.Rates | src/bazg.js:16-26 | a code is present exactly when it is tracked and some row upper-cases to it; its value is amount / kurs of the last such row; there is no error path |
| Bazg.NoRowsNoRates | src/bazg.js:16-26 | when no row's upper-cased code is tracked (including when there are no rows), the rate table is empty |
| Bazg.LaterRowWins | src/bazg.js:22-25 | a later tracked row overwrites its code and an untracked row changes nothing |
| Bazg.Output | src/bazg.js:28-33 | ascending listing of exactly the rates |
| Coingecko.Invert | src/coingecko.js:22 | a finite non-zero price gives exactly 1 / price |
| Coingecko.Rates | src/coingecko.js:15-23 | a symbol is recorded exactly when tracked with a truthy-priced listing; its rate inverts the first such listing's price |
| Coingecko.RateInvertsPrice | src/coingecko.js:20-22 | each recorded rate is 1 / p for a finite first price p, and 0 for an infinite one |
| Coingecko.FirstListingWins | src/coingecko.js:19-21 | a later listing of a recorded symbol, or one with a zero or NaN price, changes nothing |
| Coingecko.NewListingRecorded | src/coingecko.js:17-22 | a truthy-priced listing of a tracked, unrecorded symbol is recorded, so a skipped listing never blocks a later one |
| Coingecko.Output | src/coingecko.js:25-30 | ascending listing of exactly the rates |
| Coinranking.FindChf | src/coinranking.js:33 | absent exactly when no reference is spelt `CHF`; otherwise the exchange rate of the first one that is |
| Coinranking.Rates | src/coinranking.js:33-50 | three cases: no CHF reference is a not-found error; a CHF reference whose exchange rate is zero, infinite or NaN (so that its reciprocal is falsy or not finite) is an unusable-rate error; otherwise tracked symbols with a truthy price are recorded, first listing winning, as 1 / (price × (1 / exchangeRate)) |
| Coinranking.CoinRateReduces | src/coinranking.js:36-49 | for finite non-zero operands the formula equals exchangeRate / price |
| Coinranking.RateIsExchangeRateOverPrice | src/coinranking.js:36-49 | every recorded rate with a finite first price is exchangeRate / price |
| Coinranking.FirstListingWins | src/coinranking.js:46-48 | a later listing of a recorded symbol, or one with a falsy price, changes nothing |
| Coinranking.Output | src/coinranking.js:52-57 | ascending listing of exactly the rates, or the error |
| Coinbase.Rates | src/coinbase.js:38-43 | exactly the tracked upper-cased source keys, each with the value of the last source key that upper-cases to it (later case variants win) |
| Coinbase.UpperCaseCopied | src/coinbase.js:39-42 | on upper-case source keys the result is the source restricted to tracked codes, values unchanged |
| Coinbase.CaseVariantsCollapse | src/coinbase.js:40-42 | example instance of the last-key-wins rule: `btc` then `BTC` collapse to one BTC entry holding the later value |
| Coinbase.Output | src/coinbase.js:45-50 | ascending listing of exactly the rates |
| Fawazahmed0.Rates | src/fawazahmed0.js:21-26 | exactly the upper-cased source keys in either catalogue, each with the value of the last source key that upper-cases to it |
| Fawazahmed0.UnionAgreesWithEach | src/fawazahmed0.js:12-25 | for a code of one catalogue, the union-filtered result agrees with filtering by that catalogue alone |
| Fawazahmed0.Output | src/fawazahmed0.js:28-33 | ascending listing of exactly the rates |
| Frankfurter.Rates | src/frankfurter.js:15-20 | exactly the tracked upper-cased source keys, each with the value of the last source key that upper-cases to it |
| Frankfurter.UpperCaseCopied | src/frankfurter.js:16-19 | on upper-case source keys the result is the source restricted to tracked codes |
| Frankfurter.Output | src/frankfurter.js:22-27 | ascending listing of exactly the rates |
| Floatrates.Rates | src/floatrates.js:15-20 | a code is present exactly when tracked and some item's upper-cased code equals it; its rate comes from the last such item |
| Floatrates.OuterKeysIgnored | src/floatrates.js:16-17 | two payloads listing the same items in the same order under different outer keys give the same rates |
| Floatrates.Output | src/floatrates.js:22-27 | ascending listing of exactly the rates |
| ExchangeRate.Rates | src/exchangerate.js:15-20 | exactly the tracked upper-cased source keys, each with the value of the last source key that upper-cases to it |
| ExchangeRate.UpperCaseCopied | src/exchangerate.js:16-19 | on upper-case source keys the result is the source restricted to tracked codes |
| ExchangeRate.Output | src/exchangerate.js:22-27 | ascending listing of exactly the rates |
| Median.SortValues | src/publish.js:8 | an ascending permutation of the values |
| Median.Middle | src/publish.js:9-11 | the middle of a sorted list lies between its first and last elements |
| Median.Median | src/publish.js:7-12 | the median of a non-empty list lies between two of its values |
| Median.MedianOfSorted | src/publish.js:8-11 | given any ascending permutation, the median is its middle element (odd length) or the mean of its two central elements (even length) |
| Median.MedianPermutation | src/publish.js:8 | the median does not depend on the order of the values |
| Median.OrderStatisticUnique | src/publish.js:8-10 | a k-th order statistic, defined by counting smaller and not-larger values, is unique |
| Median.SortedOrderStatistic | src/publish.js:8-10 | position k-1 of an ascending list is its k-th order statistic |
| Median.OrderStatisticPermutation | src/publish.js:8 | order statistics do not depend on the order of the values |
| Median.MedianOdd | src/publish.js:9-10 | for odd length the median is the (n/2+1)-th order statistic, defined without sorting |
| Median.MedianEven | src/publish.js:11 | for even length the median is the mean of the two central order statistics |
| Median.MedianSingle | src/publish.test.js:22-24 | a single value is its own median |
| Median.MedianOddExample | src/publish.test.js:14-16 | `[3, 1, 2]` has median 2 |
| Median.MedianEvenExample | src/publish.test.js:18-20 | `[4, 1, 3, 2]` has median 2.5 |
| Median.MedianPairExample | src/publish.test.js:26-28 | `[10, 20]` has median 15 |
| Publish.Participants | src/publish.js:77-82 | the participants are exactly the files with non-empty rates, as provider-and-rates pairs |
| Publish.ParticipantsSnoc | src/publish.js:77-82 | no files give no participants, and one more file appends its provider-and-rates entry exactly when its rates are non-empty, so participants keep the reading order and a file read twice takes part twice |
| Publish.NewKeys | src/publish.js:17-18 | a key is new exactly when the provider lists it and it is not yet grouped |
| Publish.AddKeys | src/publish.js:17-20 | one provider's loop: each of its symbols gets exactly one more observation, others are untouched, new symbols are appended in its order |
| Publish.Collect | src/publish.js:14-23 | a symbol is grouped exactly when some provider reports it; its list holds one observation per reporting provider, in provider order, and is never empty |
| Publish.ComputeMedianRates | src/publish.js:25-31 | the same symbols in the same order, each with the median of its values |
| Publish.MedianRatesWithin | src/publish.js:28 | each consensus value lies between two of its symbol's observations |
| Publish.FlaggedExactly | src/publish.js:36-39 | flagged iff the median exists and either it is positive and the value lies strictly more than a tenth of it away, or it is zero and the value is not; a negative median flags nothing |
| Publish.DeviationsFrom | src/publish.js:35-45 | over a list of symbols, a diagnostic is produced exactly when some observation of a listed symbol raises it, and diagnostics come symbol by symbol in list order |
| Publish.CheckDeviations | src/publish.js:33-47 | a diagnostic is reported exactly when some observation is flagged against its symbol's median, in grouping order of the symbols |
| Publish.DeviationsPerSymbol | src/publish.js:35-45 | the diagnostics about one symbol are exactly its flagged observations, one each, in provider order |
| Publish.CheckCompleteness | src/publish.js:49-57 | only missing-rate reports, one for each expected symbol without a median and nothing else |
| Publish.CompletenessOrder | src/publish.js:51-55 | the reports follow the order of the expected list |
| Publish.CompletenessMultiplicity | src/publish.js:51-55 | a symbol without a median is reported once per listing |
| Publish.CompleteWhenAllPresent | src/publish.js:51-55 | when every expected symbol has a median, nothing is reported |
| Publish.ExpectedSymbols | src/publish.js:69-72 | the expected list is ascending and is a permutation of the fiat keys followed by the crypto keys |
| Publish.ExpectedMultiplicity | src/publish.js:69-72 | a code appears once per catalogue that lists it |
| Publish.Names | src/publish.js:110-116 | the names table has every catalogue code; the crypto name wins for a code in both, otherwise the fiat name |
| Publish.SortedProviders | src/publish.js:119 | the provider list is ascending and a permutation of the observations' providers |
| Publish.Providers | src/publish.js:117-120 | one entry per grouped symbol, in grouping order, holding the sorted providers of that symbol |
| Publish.ProvidersAreReporters | src/publish.js:117-120 | after grouping, a provider is listed for a symbol exactly when it reported that symbol |
| Publish.ObservationsPermute | src/publish.js:14-23 | reordering the provider files changes neither which symbols are reported nor the multiset of each symbol's observations |
| Publish.MedianIgnoresFileOrder | src/publish.js:25-31 | a symbol's consensus does not depend on the order the files are read in |
| Publish.MediansIgnoreFileOrder | src/publish.js:84-85 | the whole median table has the same contents for any file order |
| Publish.ProvidersIgnoreFileOrder | src/publish.js:117-120 | each symbol's provider list does not depend on file order |
| Publish.Table | src/publish.js:97-102 | the written table is strictly ascending, holds exactly the reported symbols, and each value is the median of that symbol's observations |
| Publish.TableIgnoresFileOrder | src/publish.js:75-102 | the written table is identical for any order of the directory listing |
| Publish.Run | src/publish.js:84-128 | the rates are the ascending consensus table and the count is its length; missing-rate reports name exactly the catalogue codes nobody reported; names cover both catalogues; providers cover the reported symbols (the order and multiplicity of the reports and the name and provider values are stated by the four lemmas below) |
| Publish.RunMissingAscending | src/publish.js:69-72 | the missing-rate reports of a run come in ascending symbol order, because they follow the sorted catalogue list |
| Publish.RunMissingPerListing | src/publish.js:69-72 | a symbol nobody reported is reported missing once for each catalogue that lists it |
| Publish.RunNames | src/publish.js:110-116 | a catalogue code's name is the crypto name when the crypto catalogue lists it, and the fiat name otherwise |
| Publish.RunProviders | src/publish.js:117-120 | a reported symbol's provider list is ascending and names exactly the providers that reported it |
| Publish.RunFlagsExactly | src/publish.js:84-87 | a run reports a deviation exactly for an observation of a reported symbol more than a tenth from that symbol's median, carrying provider, value, median and ratio |
| Publish.CollectSkipsEmptyExample | src/publish.test.js:47-55 | an empty provider and one reporting USD 1.0 give only USD, from the second provider |
| Publish.MedianRatesExample | src/publish.test.js:58-74 | USD 1.0/1.2/1.1 gives 1.1 and EUR 0.9/0.95 gives 0.925 |
| Publish.MedianOfThree | src/publish.test.js:72 | `[1.0, 1.2, 1.1]` has median 1.1 |
| Publish.MedianOfTwo | src/publish.test.js:73 | `[0.9, 0.95]` has median 0.925 |
| Publish.ExactlyTenPercentExample | src/publish.test.js:97-103 | 11 against a median of 10 is not reported |
| Publish.FiftyPercentExample | src/publish.test.js:105-118 | 1.0 and 1.5 against a median of 1 give exactly one report: provider b, USD, ratio 0.5 |
| Publish.MultipleDeviationsExample | src/publish.test.js:120-131 | two far-off USD observations give at least two reports |
| Publish.CompletenessExample | src/publish.test.js:140-145 | expected USD, EUR, GBP with only USD present reports EUR then GBP |

## Left out

- Fetching, response checks, environment variables, `process.exit`,
  HMAC request signing, XML scraping and JSON parsing are left out. Each
  adapter's conversion starts from rows or objects that are already parsed
  and coerced.
- Dates, file and directory I/O and console output are left out. This
  includes publish reading `output/YYYY-MM-DD` while several adapters write
  `output/YYYY/MM/DD`.
- IEEE-754 rounding, overflow, signed zero and subnormals are not modelled.
  `Numbers.Num` keeps exact reals plus ±Infinity and NaN, so exact float
  equalities in the tests (1.1, 0.925) hold here by real arithmetic.
- JavaScript `+x` coercion of strings is taken as already done by the
  parser.
- Upper-casing covers ASCII letters only. Unicode case mapping is not
  modelled.
- The string sort order compares characters, the same as UTF-16 code units
  for the codes used.
- Prototype keys of plain objects, such as `constructor` answering `in`,
  are not modelled.
- Array-index keys such as `"1"` are not modelled specially. JavaScript
  lists them before the other keys in ascending numeric order, while the
  model keeps every key in insertion order. No currency code looks like an
  array index, so the published tables are the same.
- The publish layer works on `real`. Non-finite adapter results become
  JSON `null` when written, and that path between adapter and publish
  files is not modelled.
- Diagnostics are values, not formatted strings. `toFixed(1)` rounding of
  the percentage is left out.
- Median.Median: requires a non-empty list. The source would return NaN
  for an empty one, but it only ever receives lists that grouping built
  non-empty.
- Publish.ComputeMedianRates: requires every list to be non-empty, for the
  same reason. `Publish.Collect` guarantees it.
- Publish.Collect: the key order of the grouped table (order of first
  report) is kept by the model but not stated in the contract. The
  deviation order is stated relative to that key order.
- Publish.Run: the `date` field of the metadata is left out, with the
  clock.
- Aviasales.ChfIsOne: assumes `chf` is the only source key that
  upper-cases to `CHF`. With another such key, a later entry can overwrite
  CHF with a different ratio, as the code does.
- Coinranking.Rates: the comment at src/coinranking.js:35 calls
  exchangeRate "CHF per 1 USD". The model follows the formula as written
  and makes no claim about units.
