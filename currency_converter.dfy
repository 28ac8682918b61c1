/**
 * `CurrencyConverter` (utils/currency_converter.py): an API-key check at
 * construction, `get_rate` behind `lru_cache(maxsize=32)`, and `convert`.
 *
 * The exchange-rate service is an oracle from request URL to `Response`;
 * each call takes the oracle as a parameter, so the service may answer
 * differently from one call to the next.
 */
module CurrencyConversion {
  import opened Wrappers
  import opened LruCache

  /** The placeholder value the key check refuses, like a missing key. */
  const ApiKeyPlaceholder := "your-exchangerate-api-key-here"
  const ExchangeRateBaseUrl := "https://v6.exchangerate-api.com/v6"
  /** Default target currency of `get_rate` and `convert`. */
  const HomeCurrency := "BRL"
  /** `maxsize` of the `lru_cache` around `get_rate`. */
  const RateCacheSize: nat := 32

  /** The `ValueError` raised by the constructor. */
  datatype ConfigError = ApiKeyNotConfigured

  /** The `KeyError` that escapes `get_rate` when the answer has no `conversion_rate`. */
  datatype RateError = MissingConversionRate

  /** A cache key: the `(from_currency, to_currency)` arguments of `get_rate`. */
  datatype Pair = Pair(from: string, to: string)

  /**
   * What one request to the rate service yields: a decoded JSON body (with or
   * without a `conversion_rate` field), or a `requests.RequestException`
   * (connection failure, non-2xx status, and an undecodable body with a
   * `requests` version whose `json()` raises `RequestException`).
   */
  datatype Response = Payload(conversionRate: Option<real>) | RequestFailed

  /** The key check of `__init__`: a missing, empty or placeholder key is refused. */
  predicate ApiKeyAccepted(key: Option<string>)
    ensures ApiKeyAccepted(key) <==> key !in {None, Some(""), Some(ApiKeyPlaceholder)}
  {
    key.Some? && key.value != "" && key.value != ApiKeyPlaceholder
  }

  /** The pair endpoint of the rate service. */
  function RequestUrl(apiKey: string, p: Pair): (url: string)
    ensures |url| == |ExchangeRateBaseUrl| + |apiKey| + |p.from| + |p.to| + 8
    ensures ExchangeRateBaseUrl + "/" + apiKey + "/pair/" <= url
    ensures var n := |ExchangeRateBaseUrl| + |apiKey| + 7;
      url[n..n + |p.from|] == p.from && url[n + |p.from|] == '/'
    ensures url[|url| - |p.to|..] == p.to
  {
    ExchangeRateBaseUrl + "/" + apiKey + "/pair/" + p.from + "/" + p.to
  }

  /**
   * The body of `get_rate` after the request: a request failure is caught and
   * answered with `None`; a body without `conversion_rate` raises; otherwise
   * the rate is returned.
   */
  function RateFromResponse(resp: Response): (r: Result<Option<real>, RateError>)
    ensures resp.RequestFailed? ==> r == Success(None)
    ensures r.Failure? <==> resp == Payload(None)
    ensures r.Success? && r.value.Some? <==> resp.Payload? && resp.conversionRate.Some?
    ensures r.Success? && r.value.Some? ==> r.value == resp.conversionRate
  {
    match resp
    case RequestFailed => Success(None)
    case Payload(None) => Failure(MissingConversionRate)
    case Payload(Some(rate)) => Success(Some(rate))
  }

  /** Uncached `get_rate` for a given API key and rate service. */
  function RateSource(apiKey: string, fetch: string -> Response): (source: Pair -> Result<Option<real>, RateError>)
    ensures forall p :: source(p).Failure? <==> fetch(RequestUrl(apiKey, p)) == Payload(None)
    ensures forall p :: fetch(RequestUrl(apiKey, p)).RequestFailed? ==> source(p) == Success(None)
    ensures forall p :: fetch(RequestUrl(apiKey, p)).Payload? && fetch(RequestUrl(apiKey, p)).conversionRate.Some? ==>
      source(p) == Success(fetch(RequestUrl(apiKey, p)).conversionRate)
  {
    (p: Pair) => RateFromResponse(fetch(RequestUrl(apiKey, p)))
  }

  /**
   * The decision of `convert` once the rate is known: the same currency, or
   * no rate, leaves the amount as it is; otherwise it is multiplied by the rate.
   */
  function ApplyRate(amount: real, from: string, to: string, rate: Option<real>): (r: real)
    ensures from == to || rate.None? ==> r == amount
    ensures from != to && rate.Some? ==> r == amount * rate.value
  {
    if from == to then amount
    else match rate
      case None => amount
      case Some(x) => amount * x
  }

  class CurrencyConverter {
    const apiKey: string
    const baseUrl: string
    /** The `lru_cache` table of `get_rate`. */
    const rates: Cache<Pair, Option<real>>

    ghost predicate Valid()
      reads this, rates
    {
      && ApiKeyAccepted(Some(apiKey))
      && baseUrl == ExchangeRateBaseUrl
      && rates.Valid()
      && rates.maxSize == RateCacheSize
    }

    /** Construction with a key that passed the check, and an empty rate cache. */
    constructor (apiKey: string)
      requires ApiKeyAccepted(Some(apiKey))
      ensures Valid() && fresh(rates)
      ensures this.apiKey == apiKey && rates.entries == [] && rates.hits == 0 && rates.misses == 0
    {
      this.apiKey := apiKey;
      baseUrl := ExchangeRateBaseUrl;
      rates := new Cache(RateCacheSize);
    }

    /** `CurrencyConverter()`: fails when the key from the environment is not usable. */
    static method Create(key: Option<string>) returns (r: Result<CurrencyConverter, ConfigError>)
      ensures r.Failure? <==> key == None || key == Some("") || key == Some(ApiKeyPlaceholder)
      ensures r.Success? ==> fresh(r.value) && fresh(r.value.rates) && r.value.Valid()
      ensures r.Success? ==> r.value.apiKey == key.value && r.value.rates.entries == []
    {
      if !ApiKeyAccepted(key) {
        return Failure(ApiKeyNotConfigured);
      }
      var c := new CurrencyConverter(key.value);
      return Success(c);
    }

    /**
     * `get_rate(from_currency, to_currency='BRL')`: answered from the cache
     * when the pair is stored (a stored `None` included) without a request;
     * otherwise one request, whose answer is stored unless it raised.
     */
    method GetRate(fetch: string -> Response, from: string, to: string := HomeCurrency)
      returns (r: Result<Option<real>, RateError>)
      requires Valid()
      modifies rates
      ensures Valid()
      ensures r == Served(old(rates.entries), Pair(from, to), RateSource(apiKey, fetch))
      ensures rates.entries == Accessed(old(rates.entries), Pair(from, to), r, RateCacheSize)
      ensures rates.hits == old(rates.hits) + (if old(Lookup(rates.entries, Pair(from, to))).Some? then 1 else 0)
      ensures rates.misses == old(rates.misses) + (if old(Lookup(rates.entries, Pair(from, to))).Some? then 0 else 1)
    {
      r := rates.Get(Pair(from, to), RateSource(apiKey, fetch));
    }

    /**
     * `convert(amount, from_currency, to_currency='BRL')`: the same currency
     * is answered without touching the cache; otherwise the rate comes from
     * `GetRate`, and a raised error passes through.
     */
    method Convert(fetch: string -> Response, amount: real, from: string, to: string := HomeCurrency)
      returns (r: Result<real, RateError>)
      requires Valid()
      modifies rates
      ensures Valid()
      ensures from == to ==> r == Success(amount) && unchanged(rates)
      ensures from != to ==>
                var rate := Served(old(rates.entries), Pair(from, to), RateSource(apiKey, fetch));
                && r == (if rate.Success? then Success(ApplyRate(amount, from, to, rate.value))
                         else Failure(rate.error))
                && rates.entries == Accessed(old(rates.entries), Pair(from, to), rate, RateCacheSize)
      ensures from != to ==>
                rates.hits == old(rates.hits) + (if old(Lookup(rates.entries, Pair(from, to))).Some? then 1 else 0)
      ensures from != to ==>
                rates.misses == old(rates.misses) + (if old(Lookup(rates.entries, Pair(from, to))).Some? then 0 else 1)
    {
      if from == to {
        return Success(amount);
      }
      var rate := GetRate(fetch, from, to);
      if rate.Failure? {
        return Failure(rate.error);
      }
      return Success(ApplyRate(amount, from, to, rate.value));
    }
  }

  /**
   * Two `get_rate` calls for one pair on a fresh converter, the service
   * answering `first` and then `second`: once the first call has returned
   * (a failed request's `None` included) the second is answered from the
   * cache with no request; only a raised first call is retried.
   */
  method RepeatedRateRequest(apiKey: string, first: string -> Response, second: string -> Response,
                             from: string, to: string)
    returns (a: Result<Option<real>, RateError>, b: Result<Option<real>, RateError>, requests: nat)
    requires ApiKeyAccepted(Some(apiKey))
    ensures a == RateFromResponse(first(RequestUrl(apiKey, Pair(from, to))))
    ensures a.Success? ==> b == a && requests == 1
    ensures a.Failure? ==> b == RateFromResponse(second(RequestUrl(apiKey, Pair(from, to)))) && requests == 2
  {
    var c := new CurrencyConverter(apiKey);
    a := c.GetRate(first, from, to);
    AccessedKeepsTable([], Pair(from, to), RateSource(apiKey, first), RateCacheSize);
    b := c.GetRate(second, from, to);
    requests := c.rates.misses;
  }
}
