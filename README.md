# Subscription costs and cached currency conversion, in Dafny

This project models the two pieces of logic in a Flask subscription-expense
tracker that do more than move data between the browser and the database:

- **Cost normalisation** (`app.py`). A `Subscription` has an amount and a
  Portuguese recurrence tag (`mensal`, `anual`, `semanal`, `semestral`).
  `monthly_cost` and `annual_cost` turn them into a per-month and a per-year
  figure. The dashboard adds the monthly figures into `total_mensal`.
- **Currency conversion** (`utils/currency_converter.py`). A `CurrencyConverter`
  checks its API key on construction. `get_rate` asks an exchange-rate service
  for one currency pair, behind `functools.lru_cache(maxsize=32)`. `convert`
  multiplies an amount by that rate, or leaves it alone when the currencies
  are equal or no rate is available.

Files:

- `wrappers.dfy`: `Option` and `Result`.
- `subscriptions.dfy`: module `Subscriptions`. The subscription record, the
  two cost tables as functions, the dashboard total, and lemmas relating them.
- `lru_cache.dfy`: module `LruCache`. The `lru_cache` table as a class
  `Cache` whose field `entries` is a sequence ordered from least to most
  recently used. It also counts `hits` and `misses` as `cache_info()` does.
  Pure functions (`Find`, `Touch`, `Insert`, `Served`, `Accessed`) describe
  one call, and lemmas show that a call keeps the table valid and what it
  stores.
- `currency_converter.dfy`: module `CurrencyConversion`. The converter class,
  `GetRate` and `Convert` as methods on the cache, and the pure decisions they
  make.

The exchange-rate service is an oracle `fetch: string -> Response`. It gets
the request URL and answers a decoded body or a request failure. Every call
takes the oracle as a parameter, so the service may answer differently from
one call to the next. The cache's `misses` counter is the number of times
the oracle was consulted.

Facts about the code that the model keeps as they are:

- The yearly row of `monthly_cost` divides by 12.
- The weekly row of `monthly_cost` multiplies by 4.33.
- An unknown tag is monthly in `monthly_cost` but yearly in `annual_cost`.
- `lru_cache` stores whatever `get_rate` returns. That includes the `None`
  returned after a failed request, so a failure is cached and not retried.
  Only a call that raises (the `KeyError` of a body without
  `conversion_rate`) stores nothing.

## Model

| member | source | states |
|---|---|---|
| Subscriptions.MonthlyCost | app.py:31-40 | per tag: 12 months of an `anual` cost make the amount, 6 months of a `semestral` cost make the amount, `semanal` costs 4.33 times the amount, `mensal` and unknown tags cost the amount; a non-negative amount gives a non-negative cost |
| Subscriptions.AnnualCost | app.py:42-51 | per tag: `mensal` costs 12 times the amount, `semanal` 52 times, `semestral` twice, `anual` and unknown tags the amount itself; non-negative for a non-negative amount |
| Subscriptions.AnnualIsTwelveMonths | app.py:31-51 | annual cost equals 12 monthly costs exactly when the tag is `mensal`, `anual` or `semestral` or the amount is zero; `semanal` overshoots by amount/25; an unknown tag gives the amount for both |
| Subscriptions.CostsAreLinear | app.py:31-51 | both costs are linear in the amount (scaling and adding amounts commute with them) |
| Subscriptions.TotalMonthly | app.py:93 | the dashboard total is 0 for no subscriptions and is non-negative when no amount is negative |
| Subscriptions.TotalMonthlyAppend | app.py:93 | the total of two concatenated lists is the sum of their totals |
| Subscriptions.TotalMonthlyFromFront | app.py:93 | summing from the first subscription gives the same total as summing in list order |
| LruCache.Find | utils/currency_converter.py:15 | the cache lookup finds the first entry with the key, or reports that no entry has it |
| LruCache.Lookup | utils/currency_converter.py:15-16 | the cache lookup answers nothing exactly when no entry has the key, and otherwise a value stored for it |
| LruCache.Served | utils/currency_converter.py:15-16 | one call of the wrapper answers the stored value on a hit and the wrapped function's answer on a miss |
| LruCache.Accessed | utils/currency_converter.py:15-16 | after one call the table stays within its bound, is unchanged when a miss raised, and otherwise ends with the key just used |
| LruCache.Touch | utils/currency_converter.py:15 | a hit moves the entry to the most-recently-used end; the other entries keep their relative order |
| LruCache.Insert | utils/currency_converter.py:15 | a stored miss appends the new entry at the most-recently-used end, dropping the least recently used entry when the table is full, and never grows the table past its bound |
| LruCache.TouchKeepsTable | utils/currency_converter.py:15 | a hit keeps keys distinct and every key's stored value |
| LruCache.TouchKeepsDistinct | utils/currency_converter.py:15 | a hit keeps the keys distinct |
| LruCache.InsertKeepsDistinct | utils/currency_converter.py:15 | storing a new key keeps the keys distinct |
| LruCache.InsertEvictsFirst | utils/currency_converter.py:15 | storing a new key in a full table evicts the least recently used key |
| LruCache.InsertKeepsStored | utils/currency_converter.py:15 | storing a new key keeps the value of every stored key it does not evict |
| LruCache.InsertKeepsAbsent | utils/currency_converter.py:15 | storing a new key adds no other key |
| LruCache.InsertKeepsOthers | utils/currency_converter.py:15 | after storing a new key, every other key keeps its value unless it was the evicted least recently used one |
| LruCache.InsertKeepsTable | utils/currency_converter.py:15 | a stored miss keeps keys distinct and the size within the bound; the new key maps to its value, the evicted key to nothing, every other key keeps its value |
| LruCache.ServedOnHit | utils/currency_converter.py:15-16 | on a hit the answer is the stored value whatever the wrapped function would answer |
| LruCache.AccessedKeepsTable | utils/currency_converter.py:15-16 | one call keeps at most `maxsize` entries with distinct keys, and a returned value is stored for the key |
| LruCache.AccessedKeepsOthers | utils/currency_converter.py:15-16 | one call changes no other key's value except the least recently used one evicted by a stored miss on a full table |
| LruCache.TouchKeepsOrder | utils/currency_converter.py:15 | a hit leaves the other keys in their relative recency order |
| LruCache.InsertKeepsOrder | utils/currency_converter.py:15 | a stored miss keeps the old entries in order, minus the least recently used one when the table was full |
| LruCache.AccessedKeepsOrder | utils/currency_converter.py:15-16 | after one call the other keys keep their relative order, losing only the least recently used entry when a stored miss finds the table full; a hit or stored miss leaves the key most recently used; a raised miss changes nothing |
| LruCache.Cache.constructor | utils/currency_converter.py:15 | the cache starts empty with zero hits and misses |
| LruCache.Cache.Get | utils/currency_converter.py:15-16 | a hit answers the stored value, counts a hit and does not call the function; a miss calls it once, counts a miss and stores its answer unless it raised; the table stays valid |
| CurrencyConversion.ApiKeyAccepted | utils/currency_converter.py:11 | a key is accepted exactly when it is present, non-empty and not the placeholder |
| CurrencyConversion.RequestUrl | utils/currency_converter.py:19 | the request goes to the pair endpoint under the base URL and the API key, followed by the source currency, a `/` and the target currency |
| CurrencyConversion.RateSource | utils/currency_converter.py:18-27 | uncached `get_rate` raises only for a body without `conversion_rate`, answers `None` for a failed request, and answers a body's `conversion_rate` x with x |
| CurrencyConversion.RateFromResponse | utils/currency_converter.py:18-27 | a request failure is answered with `None` and never raised; a body without `conversion_rate` raises; otherwise the rate is returned |
| CurrencyConversion.ApplyRate | utils/currency_converter.py:29-38 | the same currency or no rate leaves the amount unchanged; otherwise amount times rate |
| CurrencyConversion.CurrencyConverter.constructor | utils/currency_converter.py:9-13 | an accepted key gives a converter with the service base URL and an empty 32-entry rate cache |
| CurrencyConversion.CurrencyConverter.Create | utils/currency_converter.py:9-12 | construction fails exactly when the key is missing, empty or the placeholder `your-exchangerate-api-key-here` |
| CurrencyConversion.CurrencyConverter.GetRate | utils/currency_converter.py:15-27 | the rate comes from the cache when the pair is stored (a stored `None` included) with no request, else from one request to the pair URL; gives the new table and both counters (a hit adds a hit, a miss adds a miss); the cache stays within 32 distinct entries; `to` defaults to `BRL` |
| CurrencyConversion.CurrencyConverter.Convert | utils/currency_converter.py:29-38 | equal currencies return the amount without touching the cache; otherwise the looked-up rate is applied, a raised error passes through, and the new table and both counters are those of one `GetRate` call; `to` defaults to `BRL` |
| CurrencyConversion.RepeatedRateRequest | utils/currency_converter.py:15-27 | a second request for a pair is answered from the cache with no new request once the first returned (a failed request's `None` included); only a raised first call is retried |

## Left out

- Flask routes, login sessions, redirects and template rendering (`app.py` lines 53-111): web plumbing with nothing to state.
- The SQLAlchemy models, queries and commits, and the `float(...)` parsing of form fields: persistence and I/O. A subscription is a plain record.
- Floating-point rounding: amounts and rates are `real`.
- The HTTP request, JSON decoding and the diagnostic `print`s of `get_rate`: the request is the oracle `fetch`, and its outcome is one of `Response`'s cases.
- A `conversion_rate` field that holds something other than a number, such as JSON `null`: the model's body either has a numeric rate or none.
- Exceptions other than `requests.RequestException` and the missing-field `KeyError`: they are not modelled.
- An undecodable response body with a `requests` version older than 2.27, whose `json()` raises a plain `ValueError` that `get_rate` does not catch: the model treats an undecodable body as a caught `RequestException`, as newer versions do.
- Reading the key from the environment with `dotenv`/`os.getenv`: the key is a parameter of `Create`.
- `lru_cache` keys on the call's exact arguments, including `self`, so `get_rate('USD')` and `get_rate('USD', 'BRL')` are different entries. The model keys on the pair `(from, to)`, which is what `convert` always passes positionally. It also has a cache per converter, which matches the single global instance.
- Concurrency inside `lru_cache` (another thread storing the key during a miss): the model is single-threaded.
- `lru_cache` with `maxsize=0` or `None`: only a positive bound is modelled, since the source uses 32.
- `forms.py` (declarative form validators that depend on the wall clock) and `static/js/theme.js` (page theme toggling): not part of this model.
