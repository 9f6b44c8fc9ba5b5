/** The price endpoint of `pages/api/get-price.ts`: the stored record when
    there is one, otherwise fixed default prices stamped with the current time;
    every response carries the same cache header. */
module GetPrice {
  import opened Wrappers
  import opened Price

  /** What `kv.get("priceData")` gives: a failure, or the stored record if
      any. */
  datatype KvRead = KvFailed | KvValue(stored: Option<PriceData>)

  /** A JSON price response and its `Cache-Control` header. */
  datatype PriceResponse = PriceResponse(data: PriceData, cacheControl: string)

  const DefaultHigh: real := 358.64
  const DefaultLow: real := 138.8
  const CacheControl := "public, s-maxage=7200, stale-while-revalidate=3600"

  /** `DEFAULT_PRICES` stamped with `Date.now()`. */
  function Defaults(now: int): PriceData {
    PriceData(DefaultHigh, DefaultLow, now)
  }

  /** `handler()`: it never fails; `now` stands for `Date.now()`. */
  function Handler(read: KvRead, now: int): (r: PriceResponse)
    ensures r.cacheControl == CacheControl
    ensures read.KvValue? && read.stored.Some? ==> r.data == read.stored.value
    ensures !(read.KvValue? && read.stored.Some?) ==>
      r.data.high == 358.64 && r.data.low == 138.8 && r.data.lastUpdated == now
  {
    match read
    case KvFailed => PriceResponse(Defaults(now), CacheControl)
    case KvValue(None) => PriceResponse(Defaults(now), CacheControl)
    case KvValue(Some(priceData)) => PriceResponse(priceData, CacheControl)
  }

  /** The default prices form a range: the high is above the low. */
  lemma DefaultsOrdered(now: int)
    ensures Defaults(now).high > Defaults(now).low > 0.0
  {
  }

  /** A failed read and a missing record give the same response. */
  lemma FailureLikeMissing(now: int)
    ensures Handler(KvFailed, now) == Handler(KvValue(None), now)
  {
  }
}
