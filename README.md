# Inventory value resolution — a Dafny model

This project models the value-resolution core of `fetch_inventory.py`, a
script that values Counter-Strike inventories on the Steam Community Market.
For every configured Steam account it either takes the inventory total
reported by CSGOBackpack, or downloads the inventory, counts the items per
market name and prices each name on the Steam Market. It then records one
value per account and a grand total for the day.

The model has five modules:

- `Wrappers` (`wrappers.dfy`): `Option`, and `Attempt`, the outcome of a
  Python call that either returns a value (`Ok`) or raises (`Raised`).
- `Json` (`json.dfy`): the decoded JSON fields the script reads, together
  with Python's `dict.get`, `str()` and truthiness on them.
- `PriceParser` (`price_parser.dfy`): `parse_price`. It removes spaces and
  narrow no-break spaces. It finds the first match of
  `\d+[.,]?\d*(?:[.,]\d{2})?`; `Search` is proved to return the leftmost
  longest match, which is what Python's greedy search returns for this
  pattern. It then decides which separator is the decimal point and converts
  the token as `float()` would, with 0 where `float()` raises.
- `Inventory` (`inventory.dfy`): `get_item_counts`. It joins assets with
  descriptions by `(classid, instanceid)`, where the last description with
  a key wins. On a miss it falls back to the first description with the
  same class id. It drops assets without a usable `market_hash_name` and
  counts one unit per remaining asset. The Python dict `counts` is an
  `ItemCounts` value: the names in insertion order plus a quantity map.
  The two loops of the source are the methods `BuildDescMap` and
  `GetItemCounts`.
- `Valuation` (`valuation.dfy`): `priceoverview`, `compute_value_via_market`,
  `get_value_for_account`, and the per-account and total bookkeeping of
  `main`.

Every network exchange is an input value:

- the reply to each Steam Market price request is `market: string -> PriceReply`;
- the outcome of the inventory download is `Attempt<Payload>`;
- the outcome of `try_csgobackpack_value` is `Option<real>`.

Prices are exact rationals (`real`).

Of the ways a price request can fail, only a status other than 200 is
absorbed as a price of 0 (`FailedStatusIsFree`). A 200 reply without a usable
price string is also worth 0, through `parse_price`. A price request that
raises, or a 200 reply whose body is not a JSON object, raises out of
`compute_value_via_market`, and `main` then records 0 for the whole account
(`PriceOverviewRaises`, `MarketValueRaises`, `FailingAccountAddsNothing`).

## Model

| member | source | states |
|---|---|---|
| PriceParser.Strip | fetch_inventory.py:41 | no space and no narrow no-break space is left in the text |
| PriceParser.StripIgnoresSpace | fetch_inventory.py:41 | inserting a space or a U+202F anywhere leaves the stripped text unchanged |
| PriceParser.StripKeepsText | fetch_inventory.py:41 | text without a space or U+202F comes out of the stripping unchanged, so the other characters are kept in order |
| PriceParser.Search | fetch_inventory.py:31-43 | no match exactly when the text has no digit; otherwise a non-empty span inside the text made only of digits and separators |
| PriceParser.MatchStartsWithDigit | fetch_inventory.py:31 | every string the pattern matches is non-empty, starts with a digit and holds only digits and separators |
| PriceParser.SearchMatches | fetch_inventory.py:31-44 | the span `Search` returns is matched by the pattern |
| PriceParser.SearchIsLongest | fetch_inventory.py:31-44 | no longer match starts where the returned span starts |
| PriceParser.SearchIsLeftmostLongest | fetch_inventory.py:31-44 | no match at all when `Search` finds none; otherwise the returned span matches, no match starts earlier, and none starting there is longer |
| PriceParser.Normalise | fetch_inventory.py:45-52 | the rewritten token holds no ','; a token of digits and separators becomes digits and '.' only |
| PriceParser.NormaliseIdempotent | fetch_inventory.py:45-52 | rewriting twice gives the same token as rewriting once |
| PriceParser.NormaliseCommaDecimal | fetch_inventory.py:49-51 | a token with only a ',' has it replaced by '.' |
| PriceParser.NormaliseGrouped | fetch_inventory.py:46-47 | with both '.' and ',', the '.' is deleted and the ',' becomes the decimal point |
| PriceParser.NormaliseCommaThenPoint | fetch_inventory.py:46-47 | a US-formatted "w1,w2.f" is rewritten to "w1.w2f" |
| PriceParser.NumberAppend | fetch_inventory.py:54 | the value of a digit string is place-value: `Number(a + b) == Number(a) * 10^|b| + Number(b)` |
| PriceParser.DecimalValue | fetch_inventory.py:53-56 | `float()` of a string of digits and '.' is never negative where it succeeds |
| PriceParser.DecimalValueOfInteger | fetch_inventory.py:53-54 | `float()` of a non-empty digit string is its integer value |
| PriceParser.DecimalValueOfFraction | fetch_inventory.py:53-54 | `float("w.f")` is `w + f / 10^|f|` |
| PriceParser.DecimalValueOfTwoPoints | fetch_inventory.py:53-56 | a string with two '.' makes `float()` raise |
| PriceParser.TokenValue | fetch_inventory.py:44-56 | the value of a matched token is never negative |
| PriceParser.IntegerToken | fetch_inventory.py:44-54 | a token that is a bare run of digits ("5" in "$5") is read as that integer |
| PriceParser.FractionBelowOne | fetch_inventory.py:53-54 | the digits after the decimal point add less than one to the value |
| PriceParser.PointDecimal | fetch_inventory.py:52-54 | a token "w.f" is read as `w + f / 10^|f|` |
| PriceParser.CommaDecimal | fetch_inventory.py:49-54 | a token "w,f" is read as `w + f / 10^|f|` |
| PriceParser.GroupedDecimal | fetch_inventory.py:46-54 | a token "w1.w2,f" is read as `w1w2 + f / 10^|f|` |
| PriceParser.CentsToken | fetch_inventory.py:46-54 | a token with a two-digit fraction after either separator is read as whole plus cents |
| PriceParser.RepeatedSeparatorIsZero | fetch_inventory.py:46-56 | a token with the same separator twice ("1..23", "1,2,34") gives 0, because `float()` raises |
| PriceParser.CommaThenPointMisread | fetch_inventory.py:46-54 | the US-formatted "w1,w2.f" is misread as `w1 + w2f / 10^|w2f|` (a consequence of assuming '.' groups thousands, fetch_inventory.py:45) |
| PriceParser.ParsePrice | fetch_inventory.py:33-56 | the price is never negative, and is 0 for None and for the empty string |
| PriceParser.NoDigitNoPrice | fetch_inventory.py:39-43 | text without any digit gives 0 |
| PriceParser.ParsePriceIgnoresSpace | fetch_inventory.py:41 | the price does not change when a space or U+202F is inserted anywhere |
| PriceParser.ParsePriceIsFirstLongestMatch | fetch_inventory.py:41-56 | the price is the value of the leftmost longest match in the stripped text, whichever way that match is characterised |
| PriceParser.DollarExample | fetch_inventory.py:36 | "$1.23" gives 1.23 |
| PriceParser.EuroExample | fetch_inventory.py:36 | "1,23€" gives 1.23 |
| PriceParser.RealExample | fetch_inventory.py:36 | "R$ 1,23" gives 1.23 |
| PriceParser.RoubleExample | fetch_inventory.py:36 | "1.234,56 ₽" gives 1234.56 |
| PriceParser.NoNumberExample | fetch_inventory.py:42-43 | "garbage" gives 0 |
| PriceParser.DoublePointExample | fetch_inventory.py:53-56 | "1..23" is matched whole, `float()` rejects it, and the price is 0 |
| Inventory.LastWithKey | fetch_inventory.py:67-70 | the index of the last description with a key, or None when no description has it |
| Inventory.DescMapLastWins | fetch_inventory.py:67-70 | a key is in `desc_map` exactly when some description has it, and it maps to the last such description |
| Inventory.BuildDescMap | fetch_inventory.py:67-70 | the loop builds exactly `desc_map` |
| Inventory.FirstWithClass | fetch_inventory.py:78 | the index of the first description with the class id, and no earlier one has it; None when none has it |
| Inventory.NextWithClass | fetch_inventory.py:78 | the `next(...)` scan returns the first description with the class id, or None |
| Inventory.LookUp | fetch_inventory.py:74-78 | one asset's lookup returns the resolved description |
| Inventory.ResolveByPosition | fetch_inventory.py:73-78 | an asset resolves to the last description with its exact key when that one is non-empty, else to the first description with its class id, else to nothing |
| Inventory.SkippedAssets | fetch_inventory.py:79-82 | an asset is skipped exactly when its description is missing or empty, or its `market_hash_name` is absent, null or empty |
| Inventory.AssetNames | fetch_inventory.py:72-82 | one resolved name (or a skip) per asset, in asset order |
| Inventory.Add | fetch_inventory.py:83 | `counts[name] = counts.get(name, 0) + 1` adds one to that name and leaves every other count unchanged |
| Inventory.AddWellFormed | fetch_inventory.py:83 | adding a unit keeps the names distinct and every count at least 1 |
| Inventory.TallyWellFormed | fetch_inventory.py:72-84 | every counted name appears once in the order and has a count of at least 1 |
| Inventory.TallyCount | fetch_inventory.py:72-84 | each name's count is the number of assets that resolve to that name |
| Inventory.TallyTotal | fetch_inventory.py:72-84 | the counts sum to the number of assets not skipped, so at most the number of assets |
| Inventory.TallyStep | fetch_inventory.py:79-83 | one more asset either adds one unit to its name or, when skipped, changes nothing |
| Inventory.GetItemCounts | fetch_inventory.py:65-84 | the two loops produce exactly the tally of the assets' resolved names |
| Inventory.ExampleDescMap | fetch_inventory.py:67-70 | any two descriptions with distinct keys give a `desc_map` of exactly two entries, each key mapped to its description |
| Inventory.ExampleNames | fetch_inventory.py:72-82 | of four assets, one resolves by its exact key, two fall back by class id (one through the default instanceid "0"), and one has no description |
| Inventory.CountExample | fetch_inventory.py:65-84 | that payload is counted as `{"Case": 2, "Key": 1}`, with "Case" first |
| Valuation.PriceOverview | fetch_inventory.py:86-96 | a price that is returned is never negative |
| Valuation.FailedStatusIsFree | fetch_inventory.py:91-92 | a status other than 200 gives 0, whatever the body |
| Valuation.PriceOverviewRaises | fetch_inventory.py:90-96 | the call raises exactly when the request fails, or when a 200 reply has no JSON object body |
| Valuation.LowestPreferred | fetch_inventory.py:95-96 | a non-empty `lowest_price` is parsed, and `median_price` then has no influence |
| Valuation.MedianFallback | fetch_inventory.py:95-96 | a missing, null or empty `lowest_price` gives the parse of `median_price`, as if `lowest_price` were absent |
| Valuation.ScaleIsProduct | fetch_inventory.py:123 | adding `price` to itself `qty` times is `price * qty` |
| Valuation.AddLine | fetch_inventory.py:118-123 | one loop step succeeds exactly when both the running total and the quote are values, and keeps the total non-negative |
| Valuation.MarketSum | fetch_inventory.py:116-123 | with non-negative quotes, a total that is returned is never negative |
| Valuation.MarketSumStep | fetch_inventory.py:117-123 | the sum over one more name is the previous sum plus that name's line |
| Valuation.MarketSumRaises | fetch_inventory.py:117-123 | the sum raises exactly when the price request for one of the names raises |
| Valuation.MarketSumRaisedPrefix | fetch_inventory.py:117-123 | once a prefix of the loop has raised, the whole loop raises |
| Valuation.MarketSumBound | fetch_inventory.py:116-123 | with every quote at most `cap`, the total is at most `cap` per counted unit |
| Valuation.MarketValue | fetch_inventory.py:112-125 | a market value that is returned is never negative |
| Valuation.MarketValueRaises | fetch_inventory.py:112-125 | after a successful download, the market path raises exactly when the price request for an owned name raises |
| Valuation.MarketValueBound | fetch_inventory.py:112-125 | with every price at most `cap`, the market value lies between 0 and `cap` times the number of assets |
| Valuation.UnpricedMarketIsZero | fetch_inventory.py:86-125 | when every price request gets a status other than 200, the market value is 0 |
| Valuation.PriceStep | fetch_inventory.py:118-123 | one loop turn: a raising request ends the whole sum, and a price adds `price * qty` to the running total |
| Valuation.PriceCounts | fetch_inventory.py:116-124 | the pricing loop returns the market sum over the counts, in insertion order, stopping at the first raise |
| Valuation.ComputeValueViaMarket | fetch_inventory.py:112-125 | the method returns the market value of the downloaded inventory, or raises when the download or a price request raises |
| Valuation.AccountValue | fetch_inventory.py:127-134 | an account value that is returned is never negative |
| Valuation.BackpackFirst | fetch_inventory.py:128-131 | a positive CSGOBackpack total is the value, and neither the inventory nor the market is consulted |
| Valuation.MarketFallback | fetch_inventory.py:132-134 | a missing, zero or negative CSGOBackpack total gives the market value, exactly as if there were no total |
| Valuation.GetValueForAccount | fetch_inventory.py:127-134 | the method returns the account value |
| Valuation.RecordedValue | fetch_inventory.py:144-149 | the recorded value is never negative: 0 when the valuation raises, the value otherwise |
| Valuation.Records | fetch_inventory.py:142-149 | one `(steam id, value)` record per account, in order |
| Valuation.SumValuesAppend | fetch_inventory.py:151 | the sum over two runs of records is the sum of their sums |
| Valuation.RunTotalNonNegative | fetch_inventory.py:151 | the grand total is never negative |
| Valuation.FailingAccountAddsNothing | fetch_inventory.py:144-151 | an account whose valuation raises adds nothing to the total and does not disturb the other accounts |
| Valuation.RecordRun | fetch_inventory.py:142-151 | the run records `(steam id, recorded value)` per account, in order, and the total is the sum of the recorded values |

## Left out

- HTTP: `get_inventory`, the requests of `priceoverview`, and the whole body of `try_csgobackpack_value`. Their outcomes are inputs (`Attempt<Payload>`, `PriceReply`, `Option<real>`).
- JSON decoding: `r.json()` appears only through its outcome (an object, or a raise).
- `time.sleep` throttling: it has no effect on any value.
- `log_debug`, the CSV header creation and row appends, config loading and `dt.date.today()`: these are file and environment I/O.
- ComputeValueViaMarket: does not apply `round(total, 2)`; the result is the exact sum. Binary floating point and Python's rounding are not modelled.
- GetValueForAccount: does not apply `round(v, 2)` to the CSGOBackpack total.
- RecordRun: does not apply `round(..., 2)` to the grand total.
- PriceParser.ParsePrice: `\d` matches only ASCII digits. Python's `str` pattern also accepts other Unicode decimal digits.
- PriceParser.DecimalValue: models `float()` only on strings of ASCII digits and '.', which is all a normalised token can contain.
- JSON values are null or text; nested values are not modelled. A JSON number is treated as the text `str()` prints for it, which differs from the source in two ways: a numeric 0 is truthy in the model but falsy in the source (fetch_inventory.py:80, 95), and a truthy numeric `lowest_price` or `median_price` is parsed in the model where the source raises on `text.replace` (fetch_inventory.py:41).
- The payload's `assets` and `descriptions` are sequences of objects; a payload without a key has an empty sequence. A null or non-array field, or a non-object element, which make the source raise, is not modelled.
- NaN and infinity from CSGOBackpack are not modelled: the total there is a real number or absent.
