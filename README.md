# coins_ranked: a verified model of the coin filter

`coins_ranked.py` is a batch script. It pages through the CoinCap asset and market endpoints, indexes which exchanges each coin trades on, filters the assets by market cap, 24-hour volume and exchange tier, writes the accepted coins to a spreadsheet and prints the ten smallest and ten largest by market cap. This project models the decision logic of that script in Dafny and proves what it does. It has five parts:

- **Pagination** (`pagination.dfy`). `FetchAll` is the fetch loop shared by `fetch_data_from_coincap` and `fetch_exchange_markets`. It requests offsets 0, 2000, 4000, … from an abstract `Endpoint` and concatenates the pages. It stops after an empty page or after the first page shorter than 2000 records. A failed request yields no records at all.
- **Listing indexer** (`listings.dfy`). `GetExchangeListings` folds the market records into a map from upper-cased base symbol to the set of lower-cased exchange ids. Records with an empty or missing symbol or exchange are skipped.
- **Eligibility filter** (`eligibility.dfy`). `FilterCoins` runs each asset through the ordered gates of `filter_coins`:
  1. missing or empty amounts go to `invalid_data`;
  2. a market cap of at most 1,000,000 goes to `market_cap`;
  3. a volume of at most 150,000 goes to `volume`;
  4. no Tier-1 and no Tier-2 listing goes to `exchanges`.

  The method returns the accepted coins together with the rejection table. An asset whose number parse fails, or that lacks a `name` or `priceUsd`, is dropped without touching any counter. `Judge` is the verdict on one asset. The lemmas about it state the gates one by one.
- **Ranking** (`ranking.dfy`). `SortByCap` is a stable sort by market cap, as Python's `sorted` is. `Bottom` is its first `min(10, n)` coins and `Top` is its last `min(10, n)` coins, reversed.
- **Support modules.** `ascii.dfy` holds `str.upper`/`str.lower` on ASCII letters. `records.dfy` holds the records. `wrappers.dfy` holds `Option`.

External inputs become parameters:

- The HTTP endpoint is an `Endpoint`: a finite list of replies, where the request at offset `k * 2000` gets the `k`-th reply and every request past the list gets an empty page.
- String-to-number conversion (`float(...)`) is a `Parser`, a function from string to `Option<real>`. `None` stands for the `ValueError` path.
- Amounts are `real`.

Points where the model follows the script's code exactly:

- A missing `symbol` is not a validity failure. It defaults to `"UNKNOWN"`, and that string is looked up in the index.
- A missing `name` or `priceUsd`, or an unparsable price, on an asset that has passed every gate is dropped by the `except (KeyError, ValueError)` clause. It is not counted under `invalid_data`.
- Both amounts are parsed before the market-cap gate. An asset with a tiny market cap and an unparsable volume is therefore dropped, not counted under `market_cap`.
- The source only prints the rejection counters. The model returns them, so that they can be stated and proved about.

Running the filter twice on the same input gives the same result, because `FilterCoins` is specified as a function of its inputs (`AcceptedOf(Verdicts(…))`, `Tally(Verdicts(…))`).

## Model

| member | source | states |
|---|---|---|
| `Pagination.FetchAll` | coins_ranked.py:9-32 | The records returned equal the loop's outcome `Collect(e, 0)`, or `[]` when a request failed (the `except` at 30-32). The offsets requested are exactly 0, 2000, 4000, …. Every page before the last one requested was full, and the last one was not. The market fetcher at 39-62 is the same loop. |
| `Pagination.FetchStopsAtFirstShortPage` | coins_ranked.py:14-26 | Let m be the number of full pages before the first page that is not full. The fetch fails exactly when that page is an error. Otherwise it yields the m full pages followed by that page, in order. Nothing after the stopping page is read, and a failure never yields a partial list. |
| `Pagination.FullThenEmptyExample` | coins_ranked.py:19-23 | One full page of 2000 records followed by an empty page yields exactly those 2000 records. |
| `Pagination.ShortFirstPageExample` | coins_ranked.py:25-26 | A first page shorter than the limit ends the fetch, whatever the endpoint would answer next. |
| `Listings.Entry` | coins_ranked.py:69-72 | A record contributes nothing exactly when its symbol or exchange id is missing or empty. Otherwise it contributes the upper-cased symbol and the lower-cased exchange id. |
| `Listings.GetExchangeListings` | coins_ranked.py:64-77 | The loop builds exactly `IndexOf(markets)`. Every key is a non-empty upper-case symbol whose set is non-empty and holds only non-empty lower-case ids. |
| `Listings.IndexNormalised` | coins_ranked.py:68-75 | Every key of the index is upper-case and non-empty. Every stored exchange id is lower-case and non-empty. No key maps to an empty set. |
| `Listings.IndexIsUnion` | coins_ranked.py:72-75 | An exchange is stored under a symbol exactly when some market record contributes that (symbol, exchange) pair. The index is the union over the records. |
| `Listings.KeysAreProduced` | coins_ranked.py:73-74 | A symbol is a key exactly when at least one record produced it. |
| `Listings.SkippedMarket` | coins_ranked.py:72 | A record with an empty or missing symbol or exchange id leaves the index unchanged. |
| `Listings.AppendMarket` | coins_ranked.py:73-75 | Appending a record adds its exchange to its own symbol's set (creating the key if needed). Every other key keeps its set, and no key disappears. |
| `Listings.DuplicateMarket` | coins_ranked.py:72-75 | A record whose normalised (symbol, exchange) pair an earlier record already contributed, at any position and even with different letter case, leaves the index unchanged: the pair is stored once. |
| `Listings.CaseNormalisedExample` | coins_ranked.py:68-75 | "btc"/"Binance", "BTC"/"binance" and "eth"/"binance" give {"BTC": {"binance"}, "ETH": {"binance"}}. |
| `Eligibility.SkipCounts.Bump` | coins_ranked.py:89-94 | A rejection raises exactly one counter, the one of its reason, by one. The other three counters are unchanged. |
| `Eligibility.SymbolOf` | coins_ranked.py:101 | The symbol is upper-case. It is "UNKNOWN" when the field is missing, and otherwise the upper-cased field. |
| `Eligibility.Judge` | coins_ranked.py:97-151 | The verdict on one asset, gate by gate in the source's order: `invalid_data`, a silent drop on a parse failure, `market_cap`, `volume`, `exchanges`, then a drop or acceptance. Its contract is stated by the lemmas `InvalidDataGate`, `MarketCapGate`, `VolumeGate`, `ExchangesGate`, `DropPath`, `Acceptance` and `AcceptedFields` below. |
| `Eligibility.InvalidDataGate` | coins_ranked.py:103-111 | An asset goes to `invalid_data` exactly when its market cap or its volume is missing or empty, whatever its other fields hold. |
| `Eligibility.MarketCapGate` | coins_ranked.py:114-121 | An asset goes to `market_cap` exactly when both amounts parse and the market cap is at most 1,000,000. |
| `Eligibility.VolumeGate` | coins_ranked.py:123-127 | An asset goes to `volume` exactly when both amounts parse, the market cap exceeds 1,000,000 and the volume is at most 150,000. |
| `Eligibility.ExchangesGate` | coins_ranked.py:129-138 | An asset goes to `exchanges` exactly when it clears both floors and its listings (empty if its symbol is absent from the index) meet neither tier. |
| `Eligibility.TierGate` | coins_ranked.py:130-135 | The two tier counts sum to at least one exactly when some listed exchange is Tier-1 or Tier-2. |
| `Eligibility.ListedGate` | coins_ranked.py:129-151 | For an asset past both floors, the tier gate rejects it under `exchanges` exactly when its listings meet neither tier. It is dropped exactly when it meets a tier but lacks a name or a parsable price. It is never rejected for any other reason. |
| `Eligibility.DropPath` | coins_ranked.py:114-115 | An asset is dropped without a counter exactly when both amounts are present and (a) one of them fails to parse, or (b) the asset passes every gate but lacks a name or a parsable price (lines 141-151). |
| `Eligibility.Acceptance` | coins_ranked.py:129-148 | An asset is accepted exactly when it clears both floors, is listed on a Tier-1 or Tier-2 exchange, and has a name and a parsable price. |
| `Eligibility.AcceptedFields` | coins_ranked.py:140-148 | An accepted coin carries the name, the upper-cased symbol and the parsed market cap, volume and price. Its tier counts are the sizes of the intersections of its listings with Tier-1 and Tier-2, and at least one of them is positive. |
| `Eligibility.FilterCoins` | coins_ranked.py:79-160 | The loop returns the accepted coins of the per-asset verdicts, in input order, and the rejection table of those verdicts. The counters plus the accepted count never exceed the number of assets. |
| `Eligibility.CountIdentity` | coins_ranked.py:96-151 | The counters, the accepted coins and the dropped assets add up to the number of assets: each asset is accounted for exactly once. |
| `Eligibility.CountsAreExact` | coins_ranked.py:96-151 | The counters plus the accepted count are at most the number of assets. They are equal exactly when no asset was dropped. |
| `Eligibility.NoneDropped` | coins_ranked.py:149-151 | The number of dropped assets is zero exactly when no verdict is a drop. |
| `Eligibility.AcceptedSplits` | coins_ranked.py:96-148 | The accepted coins of two runs of verdicts placed one after the other are the accepted coins of the first run followed by those of the second. `FilterSplits` lifts this to assets. |
| `Eligibility.TallySplits` | coins_ranked.py:96-138 | The rejection table of a concatenation is the sum of the tables of its parts. |
| `Eligibility.VerdictAt` | coins_ranked.py:96-97 | The verdict at position j of the per-asset verdicts is the verdict on the j-th asset. |
| `Eligibility.FilterSplits` | coins_ranked.py:96-151 | Filtering a concatenation of asset lists gives the accepted coins of the first part followed by those of the second, and the sum of the two rejection tables. What happens to an asset, a drop included, does not affect the assets after it. |
| `Eligibility.AcceptedMembers` | coins_ranked.py:140-148 | A coin is in the accepted list exactly when some asset's verdict accepts it. |
| `Eligibility.SingleTier2Example` | coins_ranked.py:118-148 | An asset with a 2,000,000 market cap and a 200,000 volume, listed only on one Tier-2 exchange, is accepted with tier counts 0 and 1. |
| `Ranking.SortByCap` | coins_ranked.py:190 | The sorted list is ascending by market cap, has the input's length and is a permutation of the input. |
| `Ranking.SortIsStable` | coins_ranked.py:190 | The sort is stable: for every market cap, the coins with that cap appear in the same order as in the input. |
| `Ranking.Bottom` | coins_ranked.py:194 | `sorted_coins[:10]`, the first `min(10, n)` coins of the sorted list. Its contract is stated by the lemma `BottomList`. |
| `Ranking.Top` | coins_ranked.py:199 | `reversed(sorted_coins[-10:])`, the last `min(10, n)` coins of the sorted list, largest first. Its contract is stated by the lemma `TopList`. |
| `Ranking.BottomList` | coins_ranked.py:192-195 | The bottom list has `min(10, n)` coins, ascending, drawn from the accepted coins. Its first coin has the smallest market cap, and no coin left out has a smaller cap than a coin in it. |
| `Ranking.TopList` | coins_ranked.py:197-200 | The top list has `min(10, n)` coins, descending, drawn from the accepted coins. Its first coin has the largest market cap, and no coin left out has a larger cap than a coin in it. |
| `Ascii.ToUpper` | coins_ranked.py:69 | The result has the same length and no lower-case letter. Each character is the upper-case form of the input's character. |
| `Ascii.ToLower` | coins_ranked.py:70 | The result has the same length and no upper-case letter. Each character is the lower-case form of the input's character. |

## Left out

- HTTP and JSON: `requests.get`, `raise_for_status` and `.json()["data"]` (lines 15-17, 45-47) become an `Endpoint` whose reply is a page or an error. A reply without a `data` key raises a `KeyError` that the fetchers do not catch; that is not modelled.
- Pagination.FetchAll: the endpoint is a finite list of pages. A server that answers full pages forever makes the source loop run forever; the model does not capture that case.
- `main`'s orchestration (lines 168-187): it stops when either fetch yields nothing, then chains the steps. It only sequences the modelled members and prints, so it is not modelled.
- Spreadsheet output: `save_to_excel` (lines 162-166) writes a file through pandas, a foreign library.
- Console output: every `print`, the number formatting such as `:,.2f`, and the 1-based rank numbers of the report.
- The for-else message at lines 201-202 prints "No coins found" whenever the top-10 loop completes, which is always, because the loop has no `break`. It is a printing artefact and is not modelled.
- Floating point: amounts are exact reals. NaN or infinity passing the `<=` tests, and the exact grammar `float()` accepts, are not modelled; parsing is an abstract `Parser`.
- Field types: fields that are present are strings. A present `None` or a non-string JSON value (which would crash `.upper()`/`.lower()`) is not modelled.
- Ascii.ToUpper: only the ASCII letters are case-mapped. Python's Unicode case mapping, including mappings that change a string's length such as "ß" to "SS", is not modelled.
- Ascii.ToLower: only the ASCII letters are case-mapped, for the same reason.
