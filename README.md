# Risk analysis app: comps and risk model in Dafny

A Dafny model of the core of a Streamlit app that rates how hard a home will be to sell. The app works in four steps:

1. It fetches comparable properties ("comps") from a listings provider over growing search radii: recent sales first, then active listings (`gather_comps`).
2. It turns each provider record into one canonical record (`normalize_listing`) and removes duplicate addresses.
3. It finds the subject property among the results when it is there (`extract_subject`).
4. It scores the risk (`classify_risk`). The score compares the subject's price and days on market (DOM) with the comp medians (`safe_median`) and adds a buyer-pool tier for the price. `contingency_suggestions` then gives advice for the resulting band, and `abbreviate_address` shortens addresses for the chart labels.

Modules:

- `Base`: `Option` and `Result`.
- `Text`: the Python string operations the code relies on: `lower`, `replace`, `in`, `split`, `strip`, `join`, `s[:k]`, `int(str)`.
- `Listing`: provider records as maps from the keys the code reads to JSON values. Contains `normalize_listing` and `extract_subject`.
- `Stats`: `safe_median`.
- `Comps`: `gather_comps`. Its loops are methods, proved against reference functions.
- `Risk`: `classify_risk`, an imperative method split into its sections and proved against the scoring functions, plus `contingency_suggestions`.
- `Labels`: `abbreviate_address`. Its replacement loop is a method.

Where the code and its written description differ, the model follows the code:

- The composite score is never clamped to [0, 10]. The sum is simply always within [0.3, 9.6] (`Risk.Score`).
- A missing subject price, or a price of 0, falls in the `Broad` buyer pool (penalty 1.5) and adds no pool sentence.
- The deduplication key lowercases the address without trimming it.
- `normalize_listing` does not guard its conversions. A value `float`/`int` rejects ends the whole call with that error, and `gather_comps` passes the error on.
- `normalize_listing` copies the address without reading it, whatever its type. An address that is truthy but not text makes `gather_comps` fail only in its deduplication loop, at `.lower()`, after every request has been made.
- The result is `Unavailable` exactly when the list of comp prices is empty. A non-empty list in which every price is missing still gets a score.

## Model

| member | source | states |
|---|---|---|
| Text.Lower | app.py:199 | `str.lower` keeps the length, turns each ASCII capital into the same letter in lower case, and keeps every other character |
| Text.LowerIgnoresCase | app.py:199 | two strings equal up to the case of ASCII letters lower to the same string |
| Text.Without | app.py:199 | filtering out a character leaves none of it, keeps every other character as often as before, and changes nothing when the character is absent |
| Text.ContainsSpec | app.py:205 | the substring test `t in a` holds exactly when `t` occurs at some index of `a` |
| Text.ReplaceAbsent | app.py:107 | `s.replace(pat, rep)` is `s` when `pat` does not occur in `s` |
| Text.ReplaceNoLonger | app.py:107 | replacing by something no longer never lengthens the string |
| Text.ReplaceKeepsOut | app.py:107 | a character in neither the string nor the replacement is not in the result |
| Text.DeleteChar | app.py:199-204 | `s.replace("#", "")` is the string with every `#` filtered out, other characters kept in order |
| Text.Strip | app.py:113-114 | `strip()` returns the piece of `s` after its leading and before its trailing whitespace, which neither starts nor ends with whitespace |
| Text.Split | app.py:111 | `split(",")` yields at least one part, and no part contains the separator |
| Text.SplitCount | app.py:111-112 | `len(parts) >= 2` exactly when the string contains the separator |
| Text.JoinSplit | app.py:111-114 | joining the parts with the separator gives back the original string |
| Text.SliceTo | app.py:115 | `s[:k]` is a prefix of length `k` when `0 <= k <= len(s)` and `len(s) + k` for a negative `k`; the whole of `s` when `k >= len(s)`, and empty when `k < -len(s)` |
| Text.ParseShow | app.py:227-229 | `int(str(n)) == n` for every integer `n` |
| Listing.FirstTruthySpec | app.py:211-223 | the `or` chain yields the first truthy key's value, and `None` exactly when no key holds a truthy value |
| Listing.FirstTruthyMember | app.py:211-223 | the value found is the value of one of the keys |
| Listing.Trunc | app.py:227-229 | `int()` of a number truncates toward zero |
| Listing.ToFloat | app.py:226 | `float()` of a number is that number, and of `None` an error |
| Listing.ToInt | app.py:227-229 | `int()` of a number is its truncation, and of `None` an error |
| Listing.FloatField | app.py:226 | `float(v) if v else None`: no value gives `None`, a number gives itself, and a failure names the field |
| Listing.IntField | app.py:227-229 | `int(v) if v else None`: no value gives `None`, a number gives its truncation, and a failure names the field |
| Listing.AddressOf | app.py:201-204 | the address `extract_subject` reads is `""` exactly when no address key holds a truthy value, the first truthy text otherwise, and an error exactly when the first truthy value is not text |
| Listing.Normalize | app.py:209-231 | `normalize_listing` succeeds exactly when the price, DOM, square footage and year all convert; otherwise it fails with the error of the first rejected field, in that order |
| Listing.NormalizeAbsentFields | app.py:211-229 | address `""`, price, dom, sqft and year are absent exactly when none of their candidate keys holds a truthy value; a present address is the first truthy one, of whatever type |
| Listing.NormalizeNumericAddress | app.py:209-231 | a record with numbers where numbers are expected normalizes even when its address is a number, and keeps that number as its address |
| Listing.NormalizePrice | app.py:212-226 | the price is the first truthy number among `listPrice`, `price`, `lastSalePrice`, `closingPrice` |
| Listing.NormalizeZeroDom | app.py:219-227 | a DOM of 0 or none under both keys reads as absent |
| Listing.NormalizeWellTyped | app.py:209-231 | a record whose numeric keys hold numbers always normalizes, whatever its address |
| Listing.MatchForm | app.py:199-204 | the compared form of an address is its lowered form with every `#` filtered out, so it contains no `#` |
| Listing.MatchFormIgnoresCase | app.py:199-204 | addresses equal up to the case of ASCII letters have the same compared form |
| Listing.Search | app.py:200-206 | a listing found is one of the listings searched and has a truthy address; an empty target finds nothing; the only error is the unreadable address |
| Listing.SearchFound | app.py:200-206 | a listing the search returns is the first match, and every earlier listing is passed over |
| Listing.SearchNone | app.py:200-207 | the search finds nothing exactly when every listing is passed over |
| Listing.SearchFails | app.py:201-204 | an error comes from the first address that is truthy but not text, before any match |
| Listing.ExtractSubject | app.py:197-207 | the result is the first listing whose lowered address without `#` contains the lowered target without `#`; it is `None` exactly when every listing is passed over, and always `None` for an empty target |
| Stats.DefinedMembers | app.py:126 | the filter keeps exactly the present values, each as many times as it is present |
| Stats.DefinedConcat | app.py:126 | the filter commutes with concatenation |
| Stats.SortSpec | app.py:129 | the order `np.median` works on is an ascending permutation of the values |
| Stats.SortedUnique | app.py:129 | two ascending arrangements of the same values are equal, so the median is well defined |
| Stats.SafeMedian | app.py:125-129 | `None` exactly when no value is present |
| Stats.MedianBetween | app.py:129 | the median of an ascending list lies between its ends and is an element for an odd count |
| Stats.MedianInRange | app.py:125-129 | the median lies between the smallest and the largest present value, and is one of them for an odd count |
| Stats.MedianOrderFree | app.py:125-129 | only the multiset of present values matters |
| Stats.MedianIgnoresMissing | app.py:126 | an absent value anywhere leaves the median unchanged |
| Stats.MedianOfSorted | app.py:129 | for ascending values, the median is the middle (or the mean of the two middle) values |
| Stats.MedianOfThree | app.py:125-129 | the median of three values in any arrangement of `a <= c <= b` is `c` |
| Stats.MedianResistsOutlier | app.py:125-129 | the median of 100000, 1000000 and 110000 is 110000 |
| Comps.Schedule | app.py:237-249 | two requests per radius |
| Comps.ScheduleOf | app.py:237-249 | radius `i` is used by request `2i` (sales) and `2i + 1` (active listings) |
| Comps.Attempts | app.py:240-248 | the `tried` log has one entry per request |
| Comps.AttemptsSpec | app.py:240-248 | entry `j` of `tried` names request `j`'s endpoint, its radius and the number of records it returned |
| Comps.NormalizeAll | app.py:241-250 | normalizing a list keeps its length |
| Comps.NormalizeAllSpec | app.py:241-250 | a list normalizes exactly when every record does, element by element, and otherwise fails with the first failing record's error |
| Comps.NormalizeAllFailurePersists | app.py:241-242 | a failure stays the same failure whatever records follow |
| Comps.NormalizeAllConcat | app.py:241-250 | normalizing two lists in turn is normalizing their concatenation |
| Comps.NormalizeAllAppend | app.py:241-250 | normalizing a concatenation is normalizing the first list, then appending the normal forms of the second |
| Comps.AppendNormalized | app.py:241-242 | the inner `for ... comps.append(normalize_listing(s))` loop appends the normal forms in order or stops at the first error |
| Comps.Priced | app.py:243 | the priced comps are no more than all comps |
| Comps.PricedSpec | app.py:243 | `[c for c in comps if c["price"]]` keeps exactly the comps with a truthy price, each as often as it occurs, so its length counts the priced comps |
| Comps.PricedCount | app.py:243 | `len([c for c in comps if c["price"]])` is the number of positions holding a comp with a truthy price |
| Comps.PricedGrows | app.py:241-243 | appending comps never lowers the priced count |
| Comps.SeenSnoc | app.py:257-260 | after one more comp, `seen` gains that comp's key exactly when the key is non-empty |
| Comps.IsFirstSnoc | app.py:257-260 | appending a comp does not change which earlier comps are first of their key, and the new one is first exactly when its key is non-empty and unseen |
| Comps.KeyIgnoresCase | app.py:258 | addresses equal up to the case of ASCII letters have the same deduplication key |
| Comps.KeepFirst | app.py:255-261 | deduplication keeps no more comps than it is given, each of them one of the comps, with a non-empty key |
| Comps.FirstIndicesSpec | app.py:255-261 | the first positions of the keys are strictly increasing and are exactly the positions of first comps |
| Comps.KeepFirstOrder | app.py:255-261 | the kept comps are the comps at the first positions, in order |
| Comps.KeepFirstKeys | app.py:255-261 | the kept comps have non-empty, pairwise distinct keys, all in `seen` |
| Comps.KeepFirstCount | app.py:255-261 | one comp is kept per distinct non-empty key |
| Comps.KeepFirstFirsts | app.py:255-261 | the kept comps are exactly the first comps of their keys |
| Comps.KeepFirstSpec | app.py:254-261 | deduplication keeps exactly the first comp of every non-empty lowered address, no other, one per address, in the order they were fetched |
| Comps.Deduplicate | app.py:254-261 | deduplication fails exactly when some address is truthy but not text; otherwise it keeps the first comps |
| Comps.NumericAddressFailsDedup | app.py:257-258 | a comp whose address is a non-zero number makes deduplication raise |
| Comps.Dedup | app.py:254-261 | the loop with its `seen` set computes that deduplication, raising at an address that is not text |
| Comps.CollectedSpec | app.py:237-252 | collecting request by request is normalizing all fetched records in order |
| Comps.RequestsFrom | app.py:237-252 | the number of requests from any point is bounded by two per radius |
| Comps.Requests | app.py:237-252 | the loop makes at most two requests per radius |
| Comps.RequestsFromProgress | app.py:237-252 | from a point that did not stop, at least one more request is made |
| Comps.RequestsFromNoEarlierStop | app.py:243-252 | no request before the last one made stops the loop |
| Comps.RequestsFromStopsAt | app.py:243-252 | the loop ends early only at a request that stops it |
| Comps.RequestsSpec | app.py:237-252 | requests follow the schedule; the loop stops at the first request after which a record failed or at least `want` comps carry a price, or when the radii run out; with a radius, at least one request is made |
| Comps.PricedAlongRequests | app.py:241-251 | later requests never leave fewer priced comps |
| Comps.ScarceCompsTryEverything | app.py:237-252 | when all records together hold fewer than `want` priced comps, every radius is tried with both endpoints |
| Comps.Run | app.py:237-252 | the loop only appends to the comps and to the log; with requests left it logs at least one and at most the remaining ones, and with none it logs nothing |
| Comps.RunFrom | app.py:237-252 | from a point reached without stopping, the loop yields the outcome of exactly the counted requests |
| Comps.RunSpec | app.py:237-252 | the whole loop yields the comps and log of the counted requests, or the first error |
| Comps.Request | app.py:238-252 | one request logs `(endpoint, radius, count)`, appends the normal forms and says whether `want` priced comps are reached; the rest of the loop continues from there |
| Comps.Round | app.py:237-252 | one pass of the loop body: sales, then active listings unless the sales were enough; the loop ends on an error or when enough comps are priced |
| Comps.FetchComps | app.py:235-252 | the radius loop with its `break`s equals the reference loop `Run` |
| Comps.GatherComps | app.py:233-262 | the result is the deduplicated comps of the counted requests, cut to `max(want, 6)`, with their log, or the first normalization error, or the error of an address that is not text |
| Comps.GatherCompsSpec | app.py:233-262 | `gather_comps` fails exactly when a fetched record does not normalize, with that error, or when all do and one address is truthy but not text; otherwise it returns the deduplicated normal forms of every fetched record, cut to `max(want, 6)`, with the log |
| Comps.GatheredComps | app.py:254-262 | what is returned is the first `max(want, 6)` of the first comps of their addresses, in the order fetched, with distinct non-empty keys |
| Risk.Clamp | app.py:319-326 | `max(0.0, min(10.0, x))` lies in [0, 10] and is `x` inside that range |
| Risk.PricePenalty | app.py:317-322 | the price penalty is 0 at or below the median, 10 from 25% above it, and 4 when unknown |
| Risk.DomPenalty | app.py:324-328 | the DOM penalty is 0 at or below the median, 10 from 150% above it, and 2.5 when unknown |
| Risk.PoolOf | app.py:298-309 | a truthy price from 900000 is `Very Narrow`, from 700000 `Narrow`, from 500000 `Moderate`, and below that `Broad`; no truthy price gives `Broad` |
| Risk.PoolPenalty | app.py:331-332 | the pool penalty is 1.5 for `Broad`, 4.0 for `Moderate`, 6.5 for `Narrow` and 8.0 for `Very Narrow` |
| Risk.Score | app.py:311-332 | the unclamped composite score always lies in [0.3, 9.6] |
| Risk.BandOf | app.py:334-340 | the band is `Low` exactly below 3, `High` exactly from 6 on, `Moderate` in between, never `Unavailable` |
| Risk.BandMonotone | app.py:334-340 | a higher score never gives a lower band, and never `Unavailable` |
| Risk.PriceSection | app.py:284-289 | the price gap and its sentence as the scoring functions define them |
| Risk.DomSection | app.py:291-296 | the DOM gap and its sentence (or the no-comp-DOM sentence, or none) |
| Risk.PoolSection | app.py:298-309 | the pool tier and, for a truthy price, its sentence |
| Risk.CompositeScore | app.py:311-332 | the step-by-step `score +=` equals the weighted sum of the clamped penalties, within [0.3, 9.6] |
| Risk.ClassifyRisk | app.py:267-350 | `Unavailable` exactly when the comp price list is empty; otherwise the composite score, its band and the reasons in the order they are appended |
| Risk.PriceDiffMonotone | app.py:284-286 | the price gap grows with the subject price |
| Risk.PoolMonotone | app.py:298-332 | a higher price never falls in a broader pool or a smaller pool penalty |
| Risk.ScoreMonotoneInPrice | app.py:284-340 | with the comp median fixed, a higher subject price never lowers the score or the band |
| Risk.AtMedianNoPricePenalty | app.py:284-319 | a subject at the comp median has no price penalty |
| Risk.AtMedianLowRisk | app.py:284-340 | a subject under 500000 at the comp median with no DOM scores 0.925, `Low` |
| Risk.OverpricedStaleHighRisk | app.py:284-340 | a subject from 900000, 25% over the median price and 150% over the median DOM, scores 9.6, `High` |
| Risk.ScenarioModerate | app.py:284-340 | a subject at 550000 with 45 days on market, against comps at 500000/520000/480000 with 20/25/22 days, scores `2.2 + 0.25 * (23/22 * 100/15) + 0.8`, `Moderate` |
| Risk.GapAtLeast | app.py:286-293 | a value at least `(1 + f)` times a positive median is at least `100 f` percent over it |
| Risk.ContingencySuggestions | app.py:352-371 | three suggestions exactly for "Low", "Moderate" and "High", and the single fallback line for any other name |
| Risk.AdvicePerBand | app.py:352-371 | each band gets its own advice, and only `Unavailable` gets the fallback |
| Labels.ReplaceAllShape | app.py:100-107 | the suffix loop never lengthens or empties the address and adds no comma |
| Labels.ReplaceAllAbsent | app.py:106-107 | an address with none of the long suffixes is left unchanged |
| Labels.ReplaceEach | app.py:106-107 | the `for k, v in repl.items()` loop applies the replacements in table order |
| Labels.AbbreviateAddress | app.py:95-117 | the method computes the label for the suffix table |
| Labels.Label | app.py:95-117 | the label is empty exactly when the address is |
| Labels.LabelFits | app.py:106-109 | an address that fits once abbreviated is shown whole, abbreviated, and unchanged when it has no long suffix |
| Labels.LabelCut | app.py:108-117 | without a comma the label never exceeds `max_len`; a long one is cut to exactly `max_len` characters ending in "…", keeping the start of the address |
| Labels.LabelKeepsCity | app.py:110-116 | with a comma, every stripped piece after the first comma stays in the label in full, after the stripped street part: whole when it fits in `max_len`, else its first `max_len - 3` characters and "…" |
| Labels.ShortenStreetLength | app.py:115 | for `max_len >= 3`, the cut street part fits in `max_len` |
| Labels.JoinContains | app.py:114 | each part occurs in the joined string |

## Left out

- The Streamlit UI, `get_api_key`, `load_logo`, the charts and `fmt_money` are not part of this model. So are `rc_resolve_address`, `rc_for_sale` and `rc_recent_sales`: they are HTTP calls.
- The provider endpoints are modelled as a pure `Fetcher`, a function from endpoint and radius to records. A failed request yields no records, as the code returns `[]`. The `limit=25` and the coordinates and key are not modelled, since the fetcher stands for them.
- `Risk.ClassifyRisk`: the 60-day sale probability (`math.exp`) and `round(score, 1)` are not modelled. The band is computed from the unrounded score, as the code does. The reasons are tags carrying the numbers each sentence shows, not formatted text.
- All numbers are exact reals rather than binary floating point. NaN is not modelled: an absent value stands for both `None` and NaN in `safe_median`.
- `Stats.SafeMedian` sorts with insertion sort. Any ascending arrangement gives the same median (`Stats.SortedUnique`).
- Provider records hold only `null`, numbers and text, and only under the keys the code reads. Booleans, lists and nested objects are not modelled.
- `Listing.ToFloat`, `Listing.ToInt`: text is parsed only as an optional sign and decimal digits with surrounding ASCII whitespace. Python's `float`/`int` also accept forms such as `"1.5"`, `"1e3"` or `"1_000"`; for those the model reports an error where Python succeeds.
- `Text.Lower` and `Text.Strip` treat only ASCII letters and ASCII whitespace. Python's Unicode case mapping and whitespace classes are not modelled.
- `Listing.ExtractSubject`, `Comps.Dedup`: a truthy address that is not text is modelled as an error, standing for Python's `AttributeError` on `.lower()`. The target address is always text, and `listings or []` is modelled as a possibly empty list.
- `Labels.Label` takes `max_len` explicitly; the default of 28 is not modelled.
- `Comps.GatherComps` takes the radii and `want` explicitly; the defaults `(0.5, 1, 2, 3)` and 6 are not modelled.
- `Labels.LabelKeepsCity` bounds the street part only for `max_len >= 3`. The app uses 26 and 28. For smaller values `left[:max_len-3]` counts from the end.
