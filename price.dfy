/** The price records the handlers and the page exchange, and the maximum and
    minimum of a list of prices (`Math.max(...xs)`, `Math.min(...xs)`).
    Prices are only compared, so they are modelled as reals. */
module Price {

  /** `{ high, low, lastUpdated }`: a 52-week high and low and the time, in
      milliseconds since the epoch, at which they were computed. */
  datatype PriceData = PriceData(high: real, low: real, lastUpdated: int)

  /** `{ high, low }`: a pair of prices with no timestamp. */
  datatype HighLow = HighLow(high: real, low: real)

  /** The greatest element of a non-empty list. */
  function Max(xs: seq<real>): (m: real)
    requires |xs| > 0
    ensures m in xs
    ensures forall i :: 0 <= i < |xs| ==> xs[i] <= m
  {
    if |xs| == 1 then xs[0]
    else
      var m := Max(xs[1..]);
      if xs[0] > m then xs[0] else m
  }

  /** The least element of a non-empty list. */
  function Min(xs: seq<real>): (m: real)
    requires |xs| > 0
    ensures m in xs
    ensures forall i :: 0 <= i < |xs| ==> m <= xs[i]
  {
    if |xs| == 1 then xs[0]
    else
      var m := Min(xs[1..]);
      if xs[0] < m then xs[0] else m
  }
}
