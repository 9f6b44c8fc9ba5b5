/** The older, unvalidated aggregation of
    `pages/api/fetch-and-cache-price-data.ts`: every one of the first twelve
    months contributes its parsed high and low, and the result is their
    maximum and minimum, with no timestamp. A failed request or a missing
    series gives `null`. Here `parseFloat` is a total parameter: NaN is not
    modelled. */
module FetchAndCache {
  import opened Wrappers
  import opened Price
  import Env
  import UpdatePrice

  /** What `axios.get` gives: a failure (network error or a status outside
      2xx, both thrown by axios) or the body's time series, possibly absent. */
  datatype LegacyResponse =
    | RequestFailed
    | Data(timeSeries: Option<seq<UpdatePrice.MonthlyData>>)

  /** The handler's value: `null`, the range of an empty series (whose
      `Math.max()` and `Math.min()` are not finite), or a range. */
  datatype LegacyResult =
    | NoData
    | EmptyRange
    | Prices(range: HighLow)

  /** The API key as the template literal renders it: `undefined` when the
      variable is absent. */
  function KeyText(env: Env.Environment): string {
    if Env.ApiKeyVar in env then env[Env.ApiKeyVar] else "undefined"
  }

  function ParsedHighs(months: seq<UpdatePrice.MonthlyData>, parse: string -> real): (xs: seq<real>)
    ensures |xs| == |months|
  {
    seq(|months|, i requires 0 <= i < |months| => parse(months[i].high))
  }

  function ParsedLows(months: seq<UpdatePrice.MonthlyData>, parse: string -> real): (xs: seq<real>)
    ensures |xs| == |months|
  {
    seq(|months|, i requires 0 <= i < |months| => parse(months[i].low))
  }

  /** The range of a non-empty list of months: its high is the high of one of
      them and no month's high exceeds it; its low is the low of one of them
      and no month's low is below it. */
  function LegacyRange(months: seq<UpdatePrice.MonthlyData>, parse: string -> real): (r: HighLow)
    requires |months| > 0
    ensures exists i :: 0 <= i < |months| && r.high == parse(months[i].high)
    ensures exists i :: 0 <= i < |months| && r.low == parse(months[i].low)
    ensures forall i :: 0 <= i < |months| ==> parse(months[i].low) >= r.low && parse(months[i].high) <= r.high
  {
    var highs, lows := ParsedHighs(months, parse), ParsedLows(months, parse);
    var r := HighLow(Max(highs), Min(lows));
    assert forall i :: 0 <= i < |months| ==> highs[i] == parse(months[i].high) && lows[i] == parse(months[i].low);
    r
  }

  /** `fetchPriceData()` of the older handler. `get` stands for `axios.get`. */
  method FetchPriceData(env: Env.Environment, get: string -> LegacyResponse, parse: string -> real)
    returns (r: LegacyResult)
    ensures var response := get(UpdatePrice.BuildApiUrl(KeyText(env)));
      (r.NoData? <==> response.RequestFailed? || response.timeSeries.None?) &&
      (r.EmptyRange? <==> response == Data(Some([]))) &&
      (r.Prices? ==> r.range == LegacyRange(UpdatePrice.FirstMonths(response.timeSeries.value), parse))
  {
    var response := get(UpdatePrice.BuildApiUrl(KeyText(env)));
    if response.RequestFailed? || response.timeSeries.None? {
      return NoData;
    }
    var months := UpdatePrice.FirstMonths(response.timeSeries.value);
    var highPrices: seq<real> := [];
    var lowPrices: seq<real> := [];
    var i := 0;
    while i < |months|
      invariant 0 <= i <= |months|
      invariant highPrices == ParsedHighs(months[..i], parse)
      invariant lowPrices == ParsedLows(months[..i], parse)
    {
      highPrices := highPrices + [parse(months[i].high)];
      lowPrices := lowPrices + [parse(months[i].low)];
      i := i + 1;
    }
    assert months[..i] == months;
    if |highPrices| == 0 {
      return EmptyRange;
    }
    return Prices(HighLow(Max(highPrices), Min(lowPrices)));
  }

  /** The validated parser that a total parser amounts to. */
  function Lift(parse: string -> real): string -> Option<real> {
    s => Some(parse(s))
  }

  /** When every month is valid, the validation of the newer handler accepts
      all of them, in order. */
  lemma {:induction false} AllValidAccepted(months: seq<UpdatePrice.MonthlyData>, parse: string -> real)
    requires forall i :: 0 <= i < |months| ==> UpdatePrice.Validated(months[i], Lift(parse)).Some?
    ensures UpdatePrice.Highs(UpdatePrice.Accepted(months, Lift(parse))) == ParsedHighs(months, parse)
    ensures UpdatePrice.Lows(UpdatePrice.Accepted(months, Lift(parse))) == ParsedLows(months, parse)
    decreases |months|
  {
    if months != [] {
      var init := months[..|months| - 1];
      var m := months[|months| - 1];
      assert forall i :: 0 <= i < |init| ==> init[i] == months[i];
      AllValidAccepted(init, parse);
      var acc := UpdatePrice.Accepted(init, Lift(parse));
      assert UpdatePrice.Accepted(months, Lift(parse)) == acc + [HighLow(parse(m.high), parse(m.low))];
      assert |acc| == |init|;
      assert ParsedHighs(months, parse) == ParsedHighs(init, parse) + [parse(m.high)];
      assert ParsedLows(months, parse) == ParsedLows(init, parse) + [parse(m.low)];
      assert UpdatePrice.Highs(acc + [HighLow(parse(m.high), parse(m.low))]) == UpdatePrice.Highs(acc) + [parse(m.high)];
      assert UpdatePrice.Lows(acc + [HighLow(parse(m.high), parse(m.low))]) == UpdatePrice.Lows(acc) + [parse(m.low)];
    }
  }

  /** On a series whose first twelve months all pass the newer handler's
      check, the two handlers agree on the high and the low. */
  lemma AgreesWhenAllValid(series: seq<UpdatePrice.MonthlyData>, parse: string -> real, now: int)
    requires |series| > 0
    requires var months := UpdatePrice.FirstMonths(series);
      forall i :: 0 <= i < |months| ==> UpdatePrice.Validated(months[i], Lift(parse)).Some?
    ensures var months := UpdatePrice.FirstMonths(series);
      var acc := UpdatePrice.Accepted(months, Lift(parse));
      |acc| > 0 &&
      UpdatePrice.Range(acc, now).high == LegacyRange(months, parse).high &&
      UpdatePrice.Range(acc, now).low == LegacyRange(months, parse).low
  {
    var months := UpdatePrice.FirstMonths(series);
    AllValidAccepted(months, parse);
  }

  /** Unlike the newer handler, the older one keeps a month whose high is
      below its low, so its range can be inverted. */
  lemma KeepsInvertedMonth(m: UpdatePrice.MonthlyData, parse: string -> real)
    requires parse(m.high) < parse(m.low)
    ensures LegacyRange([m], parse).high < LegacyRange([m], parse).low
    ensures UpdatePrice.Accepted([m], Lift(parse)) == []
  {
    var r := LegacyRange([m], parse);
    assert r.high == parse(m.high) && r.low == parse(m.low);
    assert [m][..0] == [];
  }
}
