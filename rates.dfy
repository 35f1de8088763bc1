/** The BTC to UAH rate: two upstream requests issued one after the other
    (the BTC price in USD, then the USD to UAH rate), each failing with a 503
    when the upstream does not answer 200, and their product.

    The network is a parameter: `net(url)` is what the upstream answers for
    `url`. A JSON document is seen through the quantities found at its field
    paths, and the product of two rates is the caller-supplied `mul`. */
module Rates {
  import opened Common

  /** A path of JSON object keys, as in `data.get("bpi").get("USD").get("rate_float")`. */
  type JsonPath = seq<string>

  /** An upstream answer: its HTTP status and its decoded JSON body. */
  datatype Response<Q> = Response(status: int, json: JsonPath -> Q)

  type Network<Q> = string -> Response<Q>

  /** The 503 raised for a third-party failure, naming the URL that failed. */
  datatype UpstreamError = ServiceUnavailable(url: string)

  /** A computation over the network: its outcome and the URLs it requested, in order. */
  datatype Fetch<T> = Fetch(result: Result<T, UpstreamError>, requests: seq<string>)

  const CoindeskUrl: string := "https://api.coindesk.com/v1/bpi/currentprice.json"

  function ExchangeRateUrl(base: string): string
  {
    "https://api.exchangerate.host/latest?base=" + base
  }

  const UsdRatesUrl: string := ExchangeRateUrl("USD")

  const BtcUsdPath: JsonPath := ["bpi", "USD", "rate_float"]

  function RatePath(to: string): JsonPath
  {
    ["rates", to]
  }

  /** `request_data`: one GET of `url`; any status other than 200 raises a
      503 naming `url`, otherwise the decoded body is returned. */
  function RequestData<Q>(net: Network<Q>, url: string): (f: Fetch<JsonPath -> Q>)
    ensures f.requests == [url]
    ensures f.result.Success? <==> net(url).status == 200
    ensures f.result.Failure? ==> f.result.error == ServiceUnavailable(url)
    ensures f.result.Success? ==> f.result.value == net(url).json
  {
    var response := net(url);
    if response.status != 200 then Fetch(Failure(ServiceUnavailable(url)), [url])
    else Fetch(Success(response.json), [url])
  }

  /** `get_btc_to_usd_rate`: the BTC price in USD from the Coindesk feed. */
  function GetBtcToUsdRate<Q>(net: Network<Q>): (f: Fetch<Q>)
    ensures f.requests == [CoindeskUrl]
    ensures f.result.Success? <==> net(CoindeskUrl).status == 200
    ensures f.result.Failure? ==> f.result.error == ServiceUnavailable(CoindeskUrl)
    ensures f.result.Success? ==> f.result.value == net(CoindeskUrl).json(BtcUsdPath)
  {
    var data := RequestData(net, CoindeskUrl);
    match data.result
    case Failure(e) => Fetch(Failure(e), data.requests)
    case Success(json) => Fetch(Success(json(BtcUsdPath)), data.requests)
  }

  /** `get_currency_rate`: the rate from `from` to `to`, read from the
      exchange-rate feed with base `from`. */
  function GetCurrencyRate<Q>(net: Network<Q>, from: string, to: string): (f: Fetch<Q>)
    ensures f.requests == [ExchangeRateUrl(from)]
    ensures f.result.Success? <==> net(ExchangeRateUrl(from)).status == 200
    ensures f.result.Failure? ==> f.result.error == ServiceUnavailable(ExchangeRateUrl(from))
    ensures f.result.Success? ==> f.result.value == net(ExchangeRateUrl(from)).json(RatePath(to))
  {
    var data := RequestData(net, ExchangeRateUrl(from));
    match data.result
    case Failure(e) => Fetch(Failure(e), data.requests)
    case Success(json) => Fetch(Success(json(RatePath(to))), data.requests)
  }

  /** GET /rate (`read_btc_rate`): the BTC price in USD times the USD to UAH
      rate. The Coindesk request is awaited first; when it fails the
      exception propagates and the exchange-rate request is never issued, and
      a failure of either request yields that request's 503 and no value. */
  function ReadBtcRate<Q>(net: Network<Q>, mul: (Q, Q) -> Q): (f: Fetch<Q>)
    ensures f.result.Success? <==> net(CoindeskUrl).status == 200 && net(UsdRatesUrl).status == 200
    ensures f.result.Success? ==>
              f.result.value == mul(net(CoindeskUrl).json(BtcUsdPath), net(UsdRatesUrl).json(RatePath("UAH")))
    ensures net(CoindeskUrl).status != 200 ==>
              f == Fetch(Failure(ServiceUnavailable(CoindeskUrl)), [CoindeskUrl])
    ensures net(CoindeskUrl).status == 200 ==> f.requests == [CoindeskUrl, UsdRatesUrl]
    ensures net(CoindeskUrl).status == 200 && net(UsdRatesUrl).status != 200 ==>
              f.result == Failure(ServiceUnavailable(UsdRatesUrl))
  {
    var btc := GetBtcToUsdRate(net);
    match btc.result
    case Failure(e) => Fetch(Failure(e), btc.requests)
    case Success(b) =>
      var uah := GetCurrencyRate(net, "USD", "UAH");
      var requests := btc.requests + uah.requests;
      assert requests == [CoindeskUrl, UsdRatesUrl];
      match uah.result
      case Failure(e) => Fetch(Failure(e), requests)
      case Success(u) => Fetch(Success(mul(b, u)), requests)
  }
}
