/** The validated 52-week aggregation of `pages/api/update-price.ts`: the
    first twelve monthly entries of the Alpha Vantage monthly series are
    checked one by one, the accepted highs and lows are collected in step, and
    the result is the greatest high and the least low, stamped with the time
    of computation. `parseFloat` is a parameter that gives `None` for text
    that parses to NaN. */
module UpdatePrice {
  import opened Wrappers
  import opened Price
  import Env
  import Strings

  /** One value of the series: the `"2. high"` and `"3. low"` texts. */
  datatype MonthlyData = MonthlyData(high: string, low: string)

  /** The highs and lows that `extractPrices` collects. */
  datatype PriceLists = PriceLists(highPrices: seq<real>, lowPrices: seq<real>)

  /** What the request to Alpha Vantage gives: a failed request (a network
      error, or a body that is not JSON), a response whose `ok` is false, or
      a JSON body whose `"Monthly Adjusted Time Series"` is absent or holds
      the months in key order. */
  datatype ApiResponse =
    | RequestFailed
    | NotOk(status: int)
    | Body(timeSeries: Option<seq<MonthlyData>>)

  const BaseUrl := "https://www.alphavantage.co/query"
  const Function := "TIME_SERIES_MONTHLY_ADJUSTED"
  const Symbol := "TSLA"
  const MonthsToAnalyze := 12

  const ParseFailedMessage := "Failed to parse high/low prices from API response"
  const FetchFailedMessage := "Failed to fetch price data from Alpha Vantage"

  /** `Object.keys(timeSeries).slice(0, 12)`, with the values. */
  function FirstMonths(series: seq<MonthlyData>): (months: seq<MonthlyData>)
    ensures |months| <= MonthsToAnalyze && |months| <= |series|
    ensures months == series[..|months|]
    ensures |series| >= MonthsToAnalyze ==> |months| == MonthsToAnalyze
    ensures |series| <= MonthsToAnalyze ==> months == series
  {
    if |series| <= MonthsToAnalyze then series else series[..MonthsToAnalyze]
  }

  /** The validation of one month: both values parse, both are positive, and the
      high is at least the low. */
  function Validated(m: MonthlyData, parse: string -> Option<real>): Option<HighLow> {
    var high, low := parse(m.high), parse(m.low);
    if high.Some? && low.Some? && high.value > 0.0 && low.value > 0.0 && high.value >= low.value
    then Some(HighLow(high.value, low.value))
    else None
  }

  /** The accepted months, in order. */
  function Accepted(months: seq<MonthlyData>, parse: string -> Option<real>): (acc: seq<HighLow>)
    ensures |acc| <= |months|
    ensures forall i :: 0 <= i < |acc| ==> acc[i].high >= acc[i].low > 0.0
    decreases |months|
  {
    if months == [] then []
    else
      var acc := Accepted(months[..|months| - 1], parse);
      match Validated(months[|months| - 1], parse)
      case Some(p) => acc + [p]
      case None => acc
  }

  function Highs(acc: seq<HighLow>): (xs: seq<real>)
    ensures |xs| == |acc|
  {
    seq(|acc|, i requires 0 <= i < |acc| => acc[i].high)
  }

  function Lows(acc: seq<HighLow>): (xs: seq<real>)
    ensures |xs| == |acc|
  {
    seq(|acc|, i requires 0 <= i < |acc| => acc[i].low)
  }

  /** `extractPrices`: walks the first twelve months, pushing the high and the
      low of every accepted month, and fails when none is accepted. */
  method ExtractPrices(series: seq<MonthlyData>, parse: string -> Option<real>)
    returns (r: Result<PriceLists, string>)
    ensures r.Failure? <==> Accepted(FirstMonths(series), parse) == []
    ensures r.Failure? ==> r.error == ParseFailedMessage
    ensures r.Success? ==>
      var acc := Accepted(FirstMonths(series), parse);
      r.value.highPrices == Highs(acc) && r.value.lowPrices == Lows(acc)
    ensures r.Success? ==>
      var lists := r.value;
      0 < |lists.highPrices| == |lists.lowPrices| <= MonthsToAnalyze &&
      forall i :: 0 <= i < |lists.highPrices| ==> lists.highPrices[i] >= lists.lowPrices[i] > 0.0
  {
    var months := FirstMonths(series);
    var highPrices: seq<real> := [];
    var lowPrices: seq<real> := [];
    var i := 0;
    while i < |months|
      invariant 0 <= i <= |months|
      invariant highPrices == Highs(Accepted(months[..i], parse))
      invariant lowPrices == Lows(Accepted(months[..i], parse))
    {
      ghost var before := Accepted(months[..i], parse);
      assert months[..i + 1][..i] == months[..i];
      match Validated(months[i], parse) {
        case Some(p) =>
          assert Accepted(months[..i + 1], parse) == before + [p];
          highPrices := highPrices + [p.high];
          lowPrices := lowPrices + [p.low];
        case None =>
      }
      i := i + 1;
    }
    assert months[..i] == months;
    if |highPrices| == 0 || |lowPrices| == 0 {
      return Failure(ParseFailedMessage);
    }
    return Success(PriceLists(highPrices, lowPrices));
  }

  /** `getApiKey()`. */
  function GetApiKey(env: Env.Environment): (r: Result<string, string>)
    ensures r.Success? <==> Env.IsSet(env, Env.ApiKeyVar)
    ensures r.Success? ==> r.value == env[Env.ApiKeyVar]
  {
    Env.GetEnvVar(env, Env.ApiKeyVar)
  }

  const FunctionParameter := "function=" + Function
  const SymbolParameter := "symbol=" + Symbol

  /** `buildApiUrl(apiKey)`: the base URL, `?function=…&symbol=TSLA&apikey=`
      and the key, unescaped. */
  function BuildApiUrl(apiKey: string): string {
    BaseUrl + "?" + FunctionParameter + "&" + SymbolParameter + "&" + "apikey=" + apiKey
  }

  /** The query parameters, in order: the function, the symbol, and the
      API key last. */
  function QueryParameters(apiKey: string): seq<string> {
    [FunctionParameter, SymbolParameter, "apikey=" + apiKey]
  }

  /** The URL is the base URL and a query of three parameters, the API key
      last, which `&` separates again. (A key holding `&` would add
      parameters: it is not escaped.) */
  lemma ApiUrlParameters(apiKey: string)
    requires '&' !in apiKey
    ensures BuildApiUrl(apiKey) == BaseUrl + "?" + Strings.Join(QueryParameters(apiKey), "&")
    ensures Strings.SplitOn(Strings.Join(QueryParameters(apiKey), "&"), "&") == QueryParameters(apiKey)
  {
    UrlIsJoin(apiKey);
    ParametersWithoutAmpersand(apiKey);
    Strings.SplitJoin(QueryParameters(apiKey), "&");
  }

  lemma UrlIsJoin(apiKey: string)
    ensures BuildApiUrl(apiKey) == BaseUrl + "?" + Strings.Join(QueryParameters(apiKey), "&")
  {
    var ps := QueryParameters(apiKey);
    var p1, p2, p3 := ps[0], ps[1], ps[2];
    Strings.JoinThree(p1, p2, p3, "&");
    assert ps == [p1, p2, p3];
    assert BuildApiUrl(apiKey) == BaseUrl + "?" + (p1 + "&" + (p2 + "&" + p3));
  }

  lemma ParametersWithoutAmpersand(apiKey: string)
    requires '&' !in apiKey
    ensures forall i :: 0 <= i < |QueryParameters(apiKey)| ==> '&' !in QueryParameters(apiKey)[i]
  {
    var ps := QueryParameters(apiKey);
    assert '&' !in ps[0] && '&' !in ps[1];
    assert '&' !in ps[2] by {
      assert forall c :: c in ps[2] ==> c in "apikey=" || c in apiKey;
    }
  }

  /** The 52-week range of a non-empty list of accepted months. */
  function Range(acc: seq<HighLow>, now: int): (p: PriceData)
    requires |acc| > 0
    ensures p.high in Highs(acc) && p.low in Lows(acc)
    ensures forall i :: 0 <= i < |acc| ==> acc[i].low >= p.low && acc[i].high <= p.high
    ensures p.lastUpdated == now
  {
    var highs, lows := Highs(acc), Lows(acc);
    assert forall i :: 0 <= i < |acc| ==> highs[i] == acc[i].high && lows[i] == acc[i].low;
    PriceData(Max(highs), Min(lows), now)
  }

  /** The range of accepted months never inverts: its high is at least its
      low, since every accepted month has a high at least its low. */
  lemma HighAtLeastLow(acc: seq<HighLow>, now: int)
    requires |acc| > 0
    requires forall i :: 0 <= i < |acc| ==> acc[i].high >= acc[i].low
    ensures Range(acc, now).high >= Range(acc, now).low
  {
    var p := Range(acc, now);
    assert acc[0].high <= p.high && p.low <= acc[0].low;
  }

  /** What `fetchPriceData` gives for a key lookup, a response and a clock. */
  function Outcome(env: Env.Environment, fetch: string -> ApiResponse,
                   parse: string -> Option<real>, now: int): Result<PriceData, string>
  {
    match GetApiKey(env)
    case Failure(_) => Failure(FetchFailedMessage)
    case Success(key) =>
      match fetch(BuildApiUrl(key))
      case Body(Some(series)) =>
        var acc := Accepted(FirstMonths(series), parse);
        if acc == [] then Failure(FetchFailedMessage) else Success(Range(acc, now))
      case _ => Failure(FetchFailedMessage)
  }

  /** `fetchPriceData()`: reads the key, requests the series, extracts the
      prices and takes their range. Every failure, whatever its cause, is the
      one generic error. `fetch` stands for the request to Alpha Vantage and
      `now` for `Date.now()`. */
  method FetchPriceData(env: Env.Environment, fetch: string -> ApiResponse,
                        parse: string -> Option<real>, now: int)
    returns (r: Result<PriceData, string>)
    ensures r == Outcome(env, fetch, parse, now)
    ensures r.Failure? ==> r.error == FetchFailedMessage
    ensures r.Success? ==> r.value.high >= r.value.low > 0.0 && r.value.lastUpdated == now
  {
    var key := GetApiKey(env);
    if key.Failure? {
      return Failure(FetchFailedMessage);
    }
    var response := fetch(BuildApiUrl(key.value));
    if !response.Body? || response.timeSeries.None? {
      return Failure(FetchFailedMessage);
    }
    var extracted := ExtractPrices(response.timeSeries.value, parse);
    if extracted.Failure? {
      return Failure(FetchFailedMessage);
    }
    var lists := extracted.value;
    ghost var acc := Accepted(FirstMonths(response.timeSeries.value), parse);
    HighAtLeastLow(acc, now);
    r := Success(PriceData(Max(lists.highPrices), Min(lists.lowPrices), now));
    assert Range(acc, now).low > 0.0 by {
      assert Range(acc, now).low in Lows(acc);
    }
  }

  /** Months after the twelfth are never inspected: a rejected month among
      the first twelve is not replaced by a later one. */
  lemma LaterMonthsIgnored(series: seq<MonthlyData>, later: seq<MonthlyData>, parse: string -> Option<real>)
    requires |series| >= MonthsToAnalyze
    ensures Accepted(FirstMonths(series + later), parse) == Accepted(FirstMonths(series), parse)
  {
    assert FirstMonths(series + later) == FirstMonths(series);
  }

  /** A month is among the accepted prices exactly when some inspected month
      passes validation with those prices. */
  lemma {:induction false} AcceptedExactly(months: seq<MonthlyData>, parse: string -> Option<real>, p: HighLow)
    ensures p in Accepted(months, parse) <==>
      exists i :: 0 <= i < |months| && Validated(months[i], parse) == Some(p)
    decreases |months|
  {
    if months != [] {
      var init := months[..|months| - 1];
      AcceptedExactly(init, parse, p);
      assert forall i :: 0 <= i < |init| ==> init[i] == months[i];
      if p in Accepted(months, parse) && p !in Accepted(init, parse) {
        assert Validated(months[|months| - 1], parse) == Some(p);
      }
    }
  }

  /** Every rejected month shortens the lists: with one rejected month among
      the first twelve, fewer than twelve prices are collected. */
  lemma {:induction false} RejectionShortens(months: seq<MonthlyData>, parse: string -> Option<real>, k: nat)
    requires k < |months| && Validated(months[k], parse).None?
    ensures |Accepted(months, parse)| < |months|
    decreases |months|
  {
    var init := months[..|months| - 1];
    if k < |months| - 1 {
      assert init[k] == months[k];
      RejectionShortens(init, parse, k);
    }
  }
}
