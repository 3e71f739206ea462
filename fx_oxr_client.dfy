/**
 * The Open Exchange Rates client (src-core/src/fx/open_exchange_rates_client.rs):
 * the checks and the rate normalisation around one `latest.json` request,
 * and the cross rate between two currencies quoted against the same base.
 * The HTTP exchange is a parameter; `normalize_currency_code` and the JSON
 * decoders are functions given by the caller; decimals are `real`.
 */
module OpenExchangeRatesClient {
  import opened Wrappers
  import opened Strings

  datatype FxError =
    | InvalidInput(message: string)
    | Unauthorized(message: string)
    | ProviderError(message: string)
    | ParsingError(message: string)
    | NetworkError(message: string)

  /** What came back: the status code, its display text (`"401 Unauthorized"`) and the body. */
  datatype HttpResponse = HttpResponse(status: int, statusText: string, body: string)

  /** The error body's two optional fields. */
  datatype ErrorBody = ErrorBody(description: Option<string>, message: Option<string>)

  /** The success body: the base currency and a rate per currency, in the map's iteration order. */
  datatype LatestPayload = LatestPayload(base: string, rates: seq<(string, real)>)

  const KeyRequired := "Open Exchange Rates API key is required"
  const StatusFailurePrefix := "Open Exchange Rates request failed with status "
  const MissingRatePrefix := "Open Exchange Rates is missing rate for currency "
  const ZeroRatePrefix := "Open Exchange Rates returned zero rate for currency "

  predicate IsSuccess(status: int) {
    200 <= status <= 299
  }

  /** `description.or(message)`: the description when the body has one, else the message. */
  function Chosen(err: ErrorBody): (t: Option<string>)
    ensures err.description.Some? ==> t == err.description
    ensures err.description.None? ==> t == err.message
  {
    if err.description.Some? then err.description else err.message
  }

  /**
   * The message of a failed request: the body's description if it has one,
   * else its message, provided the chosen text is not blank; otherwise a
   * text naming the status. A blank description is not replaced by the
   * message.
   */
  function FailureMessage(response: HttpResponse, parsed: Option<ErrorBody>): (r: string)
    ensures parsed.Some? && parsed.value.description.Some? && Trim(parsed.value.description.value) != []
            ==> r == parsed.value.description.value
    ensures (parsed.Some? && parsed.value.description.None? && parsed.value.message.Some?
             && Trim(parsed.value.message.value) != []) ==> r == parsed.value.message.value
    ensures (parsed.None? || Chosen(parsed.value).None? || Trim(Chosen(parsed.value).value) == [])
            ==> r == StatusFailurePrefix + response.statusText
    ensures Trim(r) != [] || r == StatusFailurePrefix + response.statusText
  {
    var chosen :=
      match parsed
      case None => None
      case Some(err) => Chosen(err);
    if chosen.Some? && Trim(chosen.value) != [] then chosen.value
    else StatusFailurePrefix + response.statusText
  }

  /** The failure a non-success status maps to: 401 and 403 are unauthorised, anything else a provider error. */
  function StatusError(response: HttpResponse, parsed: Option<ErrorBody>): (e: FxError)
    ensures e.Unauthorized? <==> response.status == 401 || response.status == 403
    ensures e.Unauthorized? || e.ProviderError?
    ensures e.message == FailureMessage(response, parsed)
  {
    var message := FailureMessage(response, parsed);
    if response.status == 401 || response.status == 403 then Unauthorized(message)
    else ProviderError(message)
  }

  /** The rates keyed by upper-cased currency code; a later entry replaces an earlier one with the same key. */
  function RatesByCode(rates: seq<(string, real)>): (m: map<string, real>)
    ensures forall k :: k in m <==> exists i :: 0 <= i < |rates| && ToUpper(rates[i].0) == k
    decreases |rates|
  {
    if rates == [] then map[]
    else
      var n := |rates| - 1;
      var m := RatesByCode(rates[..n]);
      assert forall i :: 0 <= i < n ==> rates[..n][i] == rates[i];
      m[ToUpper(rates[n].0) := rates[n].1]
  }

  /** The normalised table: the rates by code, with the trimmed, upper-cased base at exactly 1. */
  function NormalizedRates(payload: LatestPayload): map<string, real> {
    RatesByCode(payload.rates)[ToUpper(Trim(payload.base)) := 1.0]
  }

  /** The loop that fills `normalized_rates`, then forces the base entry to 1. */
  method NormalizeRates(payload: LatestPayload) returns (normalized: map<string, real>)
    ensures normalized == NormalizedRates(payload)
  {
    normalized := map[];
    for i := 0 to |payload.rates|
      invariant normalized == RatesByCode(payload.rates[..i])
    {
      assert payload.rates[..i + 1][..i] == payload.rates[..i];
      var (currency, rate) := payload.rates[i];
      normalized := normalized[ToUpper(currency) := rate];
    }
    assert payload.rates[..|payload.rates|] == payload.rates;
    normalized := normalized[ToUpper(Trim(payload.base)) := 1.0];
  }

  lemma UpperOfUpper(s: string)
    ensures ToUpper(ToUpper(s)) == ToUpper(s)
  {
  }

  /**
   * Every key of the normalised table is upper-case, every currency of the
   * payload has an entry, and the base is exactly 1 whatever the payload
   * said about it.
   */
  lemma NormalizedRatesShape(payload: LatestPayload)
    ensures var m := NormalizedRates(payload);
            && (forall k :: k in m ==> ToUpper(k) == k)
            && (forall i :: 0 <= i < |payload.rates| ==> ToUpper(payload.rates[i].0) in m)
            && m[ToUpper(Trim(payload.base))] == 1.0
  {
    var m := NormalizedRates(payload);
    forall k | k in m ensures ToUpper(k) == k {
      if k == ToUpper(Trim(payload.base)) {
        UpperOfUpper(Trim(payload.base));
      } else {
        var i :| 0 <= i < |payload.rates| && ToUpper(payload.rates[i].0) == k;
        UpperOfUpper(payload.rates[i].0);
      }
    }
  }

  /**
   * `fetch_latest_rates`: a blank key fails before any request is made;
   * `response` is the outcome of the request (a transport error as `Err`),
   * `decodeError` and `decodeLatest` the two serde decoders.
   */
  method FetchLatestRates(apiKey: string, response: Result<HttpResponse, string>,
                          decodeError: string -> Option<ErrorBody>,
                          decodeLatest: string -> Result<LatestPayload, string>)
    returns (r: Result<map<string, real>, FxError>)
    ensures Trim(apiKey) == [] ==> r == Err(InvalidInput(KeyRequired))
    ensures Trim(apiKey) != [] && response.Err? ==> r == Err(NetworkError(response.error))
    ensures Trim(apiKey) != [] && response.Ok? && !IsSuccess(response.value.status)
            ==> r == Err(StatusError(response.value, decodeError(response.value.body)))
    ensures Trim(apiKey) != [] && response.Ok? && IsSuccess(response.value.status)
            ==> r == match decodeLatest(response.value.body)
                     case Err(e) => Err(ParsingError(e))
                     case Ok(payload) => Ok(NormalizedRates(payload))
  {
    if Trim(apiKey) == [] {
      return Err(InvalidInput(KeyRequired));
    }
    if response.Err? {
      return Err(NetworkError(response.error));
    }
    var resp := response.value;
    if !IsSuccess(resp.status) {
      return Err(StatusError(resp, decodeError(resp.body)));
    }
    match decodeLatest(resp.body)
    case Err(e) =>
      return Err(ParsingError(e));
    case Ok(payload) =>
      var normalized := NormalizeRates(payload);
      return Ok(normalized);
  }

  // ---------------------------------------------------------------------
  // compute_cross_rate
  // ---------------------------------------------------------------------

  function Pow10Real(n: nat): (r: real)
    ensures r >= 1.0
  {
    if n == 0 then 1.0 else 10.0 * Pow10Real(n - 1)
  }

  /** The integer nearest to `x`, a tie going to the even one. */
  function RoundHalfEven(x: real): (n: int)
    ensures x - 0.5 <= n as real <= x + 0.5
  {
    var f := x.Floor;
    var frac := x - f as real;
    if frac > 0.5 then f + 1
    else if frac < 0.5 then f
    else if f % 2 == 0 then f else f + 1
  }

  /** `x` expressed in units of the `dp`-th decimal place. */
  function Scaled(x: real, dp: nat): real {
    x * Pow10Real(dp)
  }

  /** `Decimal::round_dp(dp)`: `x` to `dp` decimal places, a tie going to the even neighbour. */
  function RoundDp(x: real, dp: nat): real {
    RoundHalfEven(Scaled(x, dp)) as real / Pow10Real(dp)
  }

  /** Rounding to `dp` places moves a value by at most half a unit in the last place. */
  lemma RoundDpIsClose(x: real, dp: nat)
    ensures Scaled(x, dp) - 0.5 <= Scaled(RoundDp(x, dp), dp) <= Scaled(x, dp) + 0.5
  {
    var n := RoundHalfEven(Scaled(x, dp)) as real;
    assert RoundDp(x, dp) == n / Pow10Real(dp);
    DivMul(n, Pow10Real(dp));
  }

  lemma DivMul(n: real, p: real)
    requires p != 0.0
    ensures n / p * p == n
  {
  }

  /** A value that already has at most `dp` decimal places is left as it is. */
  lemma RoundDpOfExact(k: int, dp: nat)
    ensures RoundDp(k as real / Pow10Real(dp), dp) == k as real / Pow10Real(dp)
  {
    DivMul(k as real, Pow10Real(dp));
    assert Scaled(k as real / Pow10Real(dp), dp) == k as real;
    assert (k as real).Floor == k;
    assert RoundHalfEven(k as real) == k;
  }

  /**
   * `compute_cross_rate`: how many units of `to` one unit of `from` buys,
   * given rates quoted against a common base; `normalizeCode` is
   * `normalize_currency_code`.
   */
  function ComputeCrossRate(rates: map<string, real>, fromCurrency: string, toCurrency: string,
                            normalizeCode: string -> string): (r: Result<real, FxError>)
    ensures var from := ToUpper(normalizeCode(fromCurrency));
            var to := ToUpper(normalizeCode(toCurrency));
            && (from == to ==> r == Ok(1.0))
            && (from != to ==>
                  (r.Err? <==> from !in rates || rates[from] == 0.0 || to !in rates)
                  && (from !in rates ==> r == Err(InvalidInput(MissingRatePrefix + from)))
                  && (from in rates && rates[from] == 0.0 ==> r == Err(InvalidInput(ZeroRatePrefix + from)))
                  && (r.Ok? ==> r.value == RoundDp(rates[to] / rates[from], 12)))
  {
    var from := ToUpper(normalizeCode(fromCurrency));
    var to := ToUpper(normalizeCode(toCurrency));
    if from == to then Ok(1.0)
    else if from !in rates then Err(InvalidInput(MissingRatePrefix + from))
    else if rates[from] == 0.0 then Err(InvalidInput(ZeroRatePrefix + from))
    else if to !in rates then Err(InvalidInput(MissingRatePrefix + to))
    else Ok(RoundDp(rates[to] / rates[from], 12))
  }

  /** Scaled by 10^12, the cross rate is within one half of the exact quotient. */
  lemma CrossRateIsClose(rates: map<string, real>, fromCurrency: string, toCurrency: string,
                         normalizeCode: string -> string)
    requires ComputeCrossRate(rates, fromCurrency, toCurrency, normalizeCode).Ok?
    requires ToUpper(normalizeCode(fromCurrency)) != ToUpper(normalizeCode(toCurrency))
    ensures var from := ToUpper(normalizeCode(fromCurrency));
            var to := ToUpper(normalizeCode(toCurrency));
            var r := ComputeCrossRate(rates, fromCurrency, toCurrency, normalizeCode).value;
            var exact := rates[to] / rates[from];
            Scaled(exact, 12) - 0.5 <= Scaled(r, 12) <= Scaled(exact, 12) + 0.5
  {
    var from := ToUpper(normalizeCode(fromCurrency));
    var to := ToUpper(normalizeCode(toCurrency));
    RoundDpIsClose(rates[to] / rates[from], 12);
  }

  /**
   * Against a freshly fetched table, converting a listed currency into the
   * response's own base gives 1 divided by that currency's rate, rounded to
   * 12 places, since the base entry is forced to 1.
   */
  lemma CrossRateToFetchedBase(payload: LatestPayload, code: string, normalizeCode: string -> string)
    requires var from := ToUpper(normalizeCode(code));
             from in NormalizedRates(payload) && NormalizedRates(payload)[from] != 0.0
    requires ToUpper(normalizeCode(payload.base)) == ToUpper(Trim(payload.base))
    requires ToUpper(normalizeCode(code)) != ToUpper(Trim(payload.base))
    ensures var rates := NormalizedRates(payload);
            ComputeCrossRate(rates, code, payload.base, normalizeCode)
            == Ok(RoundDp(1.0 / rates[ToUpper(normalizeCode(code))], 12))
  {
  }

  /** The service's unit test: HKD at 7.8 and CNY at 7.2 per USD give 0.923077 HKD→CNY to six places. */
  lemma HkdToCnyExample(rates: map<string, real>, normalizeCode: string -> string)
    requires rates == map["USD" := 1.0, "HKD" := 7.8, "CNY" := 7.2]
    requires normalizeCode("HKD") == "HKD" && normalizeCode("CNY") == "CNY"
    ensures ComputeCrossRate(rates, "HKD", "CNY", normalizeCode).Ok?
    ensures RoundDp(ComputeCrossRate(rates, "HKD", "CNY", normalizeCode).value, 6) == 0.923077
  {
    assert ToUpper("HKD") == "HKD";
    assert ToUpper("CNY") == "CNY";
    var r := RoundDp(7.2 / 7.8, 12);
    assert Pow10Real(12) == 1000000000000.0;
    assert Pow10Real(6) == 1000000.0;
    assert RoundHalfEven(7.2 / 7.8 * 1000000000000.0) == 923076923077 by {
      assert (7.2 / 7.8 * 1000000000000.0).Floor == 923076923076;
    }
    assert r == 923076923077.0 / 1000000000000.0;
    assert RoundHalfEven(r * 1000000.0) == 923077 by {
      assert (r * 1000000.0).Floor == 923076;
    }
  }

  /** The service's unit test: a currency converts to itself at exactly 1, even with no rates at all. */
  lemma SameCurrencyExample(normalizeCode: string -> string)
    ensures ComputeCrossRate(map[], "USD", "USD", normalizeCode) == Ok(1.0)
  {
  }
}
