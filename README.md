# Ticker core of a crypto price bot, modelled in Dafny

The bot answers a `/ticker` command with an asset's price, recent
highs and lows, and percentage changes, converted into a display currency.
Its only real logic sits in `src/ticker/utils.py`. This project models that
logic and proves what it promises:

- **Candle requests** (`candles.dfy`, module `Candles`): the sampling
  interval chosen from an asset's age (30 s, 60 s, 300 s or 7200 s, with
  inclusive thresholds at 1800, 3600 and 86400 seconds). Also the start time
  `now - days * 86400` and the rule that an empty candle answer means "no data".
- **Statistics** (`statistics.dfy`, module `Statistics`): the highest high
  and lowest low of a non-empty candle series, and the percentage change of
  a price against a reference. The change is absent when the reference is zero.
- **Ticker resolution** (`resolver.dfy`, module `Resolver`): the filtering
  loop keeps the search results whose ticker, lower-cased and stripped, is the
  query or the query as a cashtag (`$abc`). It then picks the kept result of
  smallest rank, the first one seen on ties. It is proved against a
  specification function, `Resolve`: no answer exactly when nothing matches;
  otherwise the earliest matching result of minimal rank.
- **Currency conversion** (`conversion.dfy`, module `Conversion`): the
  currency glyph, the converted copy of a token, and the side effect on the
  token. Conversion overwrites the token's own 24-hour and 7-day changes with
  those of the rate-scaled prices.

`tokens.dfy` (module `Tokens`) holds the token object. Its identity and market
fields are fixed at construction. Its derived fields (extrema, changes) are
mutable and start out absent. `wrappers.dfy` holds `Option` and `Result`.

Clock readings (`now`), the HTTP responses and the currency rate table are
parameters. Prices are `real`, not floating point.

On equal ranks the resolver keeps the first match in response order,
because Python's `min` keeps the first minimum. An unknown display currency
raises `KeyError` in the code; the model returns `Failure(UnknownCurrency)`
and leaves the token untouched.

## Model

| member | source | states |
|---|---|---|
| Candles.CandleInterval | src/ticker/utils.py:29-36 | the interval is always one of 30, 60, 300, 7200 |
| Candles.IntervalTiers | src/ticker/utils.py:29-36 | each interval value holds exactly on its age band: 30 iff age ≤ 1800, 60 iff 1800 < age ≤ 3600, 300 iff 3600 < age ≤ 86400, 7200 iff age > 86400 |
| Candles.IntervalMonotone | src/ticker/utils.py:29-36 | an older asset never gets a finer interval |
| Candles.IntervalBoundaries | src/ticker/utils.py:29-36 | the thresholds are inclusive: 1799 and 1800 give 30, 1801 gives 60, 3600 gives 60, 3601 gives 300, 86400 gives 300, 86401 and 90000 give 7200 |
| Candles.CandleQueryFor | src/ticker/utils.py:26-38 | the request's interval is the interval for the asset's age `now - creation_timestamp`, and its start lies exactly `days * 86400` seconds before `now` |
| Candles.LongerLookbackStartsEarlier | src/ticker/utils.py:26-38 | with each request reading its own clock, a longer look-back issued no later starts no later and never uses a coarser interval (it may use a finer one, see `LookbackIntervalsCanDiffer`), so the 7-day window begins no later than the later 1-day window |
| Candles.LookbackIntervalsCanDiffer | src/ticker/utils.py:26-36 | two requests one second apart across the 1800 s threshold get intervals 30 and 60, so the two requests need not share an interval |
| Candles.CandlesOrNone | src/ticker/utils.py:55-57 | the answer is absent exactly when the candle list is empty, and otherwise is that list |
| Statistics.HighestHigh | src/ticker/utils.py:86 | the result is at least every candle's high and equals some candle's high |
| Statistics.LowestLow | src/ticker/utils.py:87 | the result is at most every candle's low and equals some candle's low |
| Statistics.FindHighestAndLowest | src/ticker/utils.py:85-88 | for a non-empty series: the first component bounds every high from above and is attained, the second bounds every low from below and is attained |
| Statistics.ExtremaUnique | src/ticker/utils.py:85-88 | any pair that bounds the highs and lows and is attained is exactly the returned pair |
| Statistics.LowestBelowHighest | src/ticker/utils.py:85-88 | over candles whose low does not exceed their high, lowest ≤ highest |
| Statistics.PercentageChange | src/ticker/utils.py:91-94 | absent exactly when the reference price is zero; otherwise the result times the reference equals 100 times the price difference |
| Statistics.CalculatePercentageChange | src/ticker/utils.py:90-98 | the 24-hour and 7-day changes follow the same rule, each against its own reference price |
| Statistics.ChangeRoundTrip | src/ticker/utils.py:91-94 | applying the change to the reference price gives back the new price |
| Statistics.ChangeSign | src/ticker/utils.py:91-94 | against a positive reference, the change is positive iff the price rose, and zero iff it did not move |
| Resolver.Lower | src/ticker/utils.py:76 | `str.lower()` on ASCII letters, one character at a time; it never changes the length |
| Resolver.Strip | src/ticker/utils.py:76 | `str.strip()`: whitespace removed at both ends (its meaning is stated by `StripShape`) |
| Resolver.StripShape | src/ticker/utils.py:76 | the stripped string is a contiguous piece of the input that neither starts nor ends with whitespace, and everything cut off on either side is whitespace |
| Resolver.Normalize | src/ticker/utils.py:76 | a candidate's ticker as compared: `ticker.lower().strip()` |
| Resolver.Matches | src/ticker/utils.py:76 | the exact-match test: the normalized ticker is the lower-cased query or `$` followed by it |
| Resolver.MatchLength | src/ticker/utils.py:76 | for every query, a matching ticker normalizes to exactly the query's length or one more (the cashtag), so no proper prefix and no longer extension ever matches |
| Resolver.MatchesExactAndCashtag | src/ticker/utils.py:76 | a ticker matches the query it spells in any letter case, and its cashtag form; the query's own letter case does not matter |
| Resolver.NoPartialMatch | src/ticker/utils.py:76 | examples for the query "abc": the extension "abcd", the doubled cashtag "$$abc" and "a bc" with an inner space do not match |
| Resolver.Kept | src/ticker/utils.py:72-77 | every kept token is a matching candidate, and every matching candidate is kept |
| Resolver.MinByRank | src/ticker/utils.py:80 | the chosen token is one of the kept ones and has rank ≤ every kept token's rank |
| Resolver.Resolve | src/ticker/utils.py:72-83 | the resolver's answer: Python's `min` by rank over the kept candidates, or `None` when none is kept (its properties are the lemmas below) |
| Resolver.ResolveStep | src/ticker/utils.py:72-83 | resolving one more candidate: it replaces the answer only if it matches and has a strictly smaller rank, or if there was no answer |
| Resolver.ResolveNoneIffNoMatch | src/ticker/utils.py:79-83 | the resolver answers `None` exactly when no candidate matches |
| Resolver.ResolvePosition | src/ticker/utils.py:74-81 | when the resolver answers, the answer sits at a position k that is the earliest match of minimal rank |
| Resolver.ResolveSomeIsEarliestBest | src/ticker/utils.py:74-81 | any answer is a candidate that matches, has the minimal rank among matches, and comes before every other match of that rank |
| Resolver.EarliestBestUnique | src/ticker/utils.py:79-81 | at most one candidate is the earliest match of minimal rank |
| Resolver.ResolveIsEarliestBest | src/ticker/utils.py:72-83 | when candidate k is the earliest match of minimal rank, the resolver answers exactly candidate k |
| Resolver.GetTickerInfo | src/ticker/utils.py:72-83 | the filtering loop followed by `min` computes `Resolve`: `None` iff no candidate matches, otherwise the earliest matching candidate of minimal rank |
| Resolver.ResolverExample | src/ticker/utils.py:72-83 | query "abc" against "ABC" (rank 5), "$abc" (rank 2), "xyz" (rank 1) gives the "$abc" entry; query "abcd" gives `None` |
| Tokens.TokenInfo.constructor | src/ticker/utils.py:75 | a fresh token carries the given identity and market fields, and its extrema and changes are absent |
| Conversion.Postfix | src/ticker/utils.py:103-113 | the suffix is a space and one glyph, and it is " ?" exactly for codes other than ALGO, USD, EUR, GBP |
| Conversion.PostfixTable | src/ticker/utils.py:103-113 | ALGO → " Ⱥ", USD → " $", EUR → " €", GBP → " £", and no two of these share a glyph |
| Conversion.InCurrency | src/ticker/utils.py:116-126 | an amount of the base asset in a currency: the amount times `currencies[currency]` |
| Conversion.ChangeIndependentOfRate | src/ticker/utils.py:115-116 | converting both prices by a non-zero rate leaves the percentage change unchanged; a zero rate makes it absent |
| Conversion.Display | src/ticker/utils.py:101-126 | (corrected) the copy exists exactly when all four extrema are recorded; it keeps the token's identity, multiplies every monetary field by the rate, and carries the changes as they stand, absent included |
| Conversion.DisplayAsWritten | src/ticker/utils.py:118-126 | the copy as the code builds it: it succeeds only when the extrema and both changes are present, and then equals the corrected copy |
| Conversion.Conversion | src/ticker/utils.py:100-126 | unknown currency: `UnknownCurrency`, token untouched. Otherwise the token's changes become those of the rate-scaled prices (equal to the unscaled changes when the rate is non-zero), only those two fields change, and the result is the corrected copy |
| Conversion.ConversionAsWritten | src/ticker/utils.py:100-126 | the same steps and side effect, ending in the copy as the code builds it |
| Conversion.ZeroReferenceBreaksAsWritten | src/ticker/utils.py:123-124 | with a zero 24-hour reference price (or zero rate), the code's copy fails while the corrected copy succeeds with the 24-hour change absent |

## Left out

- Network I/O: fetching the rate table (`get_currencies`), the HTTP halves of
  `get_ticker_candles` and `get_ticker_info`, status checks and JSON decoding.
  Search results arrive as a sequence of tokens, candles as a sequence of
  `Candle`, the rate table as a map.
- The clock: `time.time()` becomes the parameter `now` of `CandleQueryFor`; each request reads its own, so the lemmas about two requests take two readings.
- The request URL text built from the interval and start.
- Number-to-text formatting (`:,.8f`, `:,.3f`, `:,.2f`) and the percent sign.
  The converted copy holds the scaled numbers and the suffix, not the strings.
- Floating-point rounding: prices are exact `real` numbers.
- Building a `TokenInfo` from the search JSON is not modelled. Candidates
  arrive as already-built `TokenInfo` objects, whereas the code builds them
  inside the filtering loop.
- Resolver.Lower: models `str.lower()` on ASCII letters only. Other letters
  with a lower-case form are left as they are. `strip()` uses Python's full
  whitespace set.
- Conversion.Conversion: every Python `TypeError` or `AttributeError` on an
  absent field collapses into one error, `AbsentField`. The model does not say
  which line raised.
- The deep copy's other attributes (the rendered graph and any field the
  conversion does not touch) are not modelled. The copy is a value of
  `DisplayToken`.
- The ticker workflow (`src/ticker/ticker_workflow.py`), the swap and pool
  workflows, command registration, start-up and logging. These are sequencing
  of I/O and chat messages. The workflow checks only the 7-day candles before
  computing extrema of the 1-day candles, so an empty 1-day answer raises
  there. This is why `FindHighestAndLowest` requires a non-empty series.

## Findings

| source | as written | input that shows it | evidently intended | confidence | as-written member | corrected member |
|---|---|---|---|---|---|---|
| src/ticker/utils.py:123-124 | `calculate_percentage_change` returns `None` for a zero reference price. `conversion` still formats `token.change_24_hrs` / `token.change_7_days` with `:,.2f`, and `None` cannot be formatted that way, so the call raises `TypeError` | a token whose `price1d` (or `price7d`) is 0, for example an asset listed less than a day ago; or a currency whose rate is 0 | report the change as unavailable and still display the token | not executed; high (Python's format spec for `None` raises) | Conversion.ZeroReferenceBreaksAsWritten | Conversion.Display |
