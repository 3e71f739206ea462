/**
 * Quotes, provider errors and the helpers both Chinese market-data providers
 * share (src-core/src/market_data/providers/tiantian_fund_provider.rs and
 * eastmoney_cn_provider.rs). Decimals are modelled as `real`; instants as
 * milliseconds since the Unix epoch, UTC; calendar days as days since the epoch.
 */
module MarketQuotes {
  import opened Wrappers
  import opened Strings

  /** Milliseconds since 1970-01-01T00:00:00Z. */
  type Timestamp = int

  /** Days since 1970-01-01 (a `NaiveDate`). */
  type Day = int

  const MillisPerDay: int := 86_400_000

  /** `timestamp.date_naive()`: the UTC calendar day of an instant. */
  function DayOf(t: Timestamp): (d: Day)
    ensures d * MillisPerDay <= t < (d + 1) * MillisPerDay
  {
    t / MillisPerDay
  }

  /** `day.and_hms_opt(h, 0, 0)` read as a UTC instant. */
  function AtHour(d: Day, h: nat): (t: Timestamp)
    requires h < 24
    ensures DayOf(t) == d
  {
    d * MillisPerDay + h * 3_600_000
  }

  datatype DataSource = Manual | TiantianFund | EastMoneyCn | OpenExchangeRates

  /** A stored quote; `created_at` (the wall clock) is not modelled. */
  datatype Quote = Quote(
    id: string,
    dataSource: DataSource,
    timestamp: Timestamp,
    symbol: string,
    open: real,
    high: real,
    low: real,
    close: real,
    adjclose: real,
    volume: real,
    currency: string)

  datatype MarketDataError =
    | NoData
    | ProviderError(message: string)
    | ParsingError(message: string)
    | NetworkError(message: string)

  /** A quote whose prices keep open and close inside [low, high]. */
  predicate HasConsistentRange(q: Quote) {
    q.low <= q.open <= q.high && q.low <= q.close <= q.high
  }

  /**
   * Both providers' `fallback_currency`: a blank or whitespace-only currency
   * becomes "CNY", anything else is kept as given.
   */
  function FallbackCurrency(currency: string): (r: string)
    ensures Trim(r) != []
    ensures Trim(currency) != [] ==> r == currency
  {
    if Trim(currency) == [] then "CNY" else currency
  }

  /** Applying the fallback twice is applying it once. */
  lemma FallbackCurrencyIdempotent(currency: string)
    ensures FallbackCurrency(FallbackCurrency(currency)) == FallbackCurrency(currency)
  {
  }

  predicate SortedByTimestamp(s: seq<Quote>) {
    forall k, l :: 0 <= k < l < |s| ==> s[k].timestamp <= s[l].timestamp
  }

  /** The first `n` quotes of `a` are in timestamp order. */
  predicate SortedPrefix(a: array<Quote>, n: int)
    reads a
    requires 0 <= n <= a.Length
  {
    forall k, l :: 0 <= k < l < n ==> a[k].timestamp <= a[l].timestamp
  }

  /** `quotes.sort_by_key(|quote| quote.timestamp)`, in place. */
  method SortByTimestamp(a: array<Quote>)
    modifies a
    ensures SortedByTimestamp(a[..])
    ensures multiset(a[..]) == multiset(old(a[..]))
  {
    var i := 0;
    while i < a.Length
      invariant 0 <= i <= a.Length
      invariant SortedPrefix(a, i)
      invariant multiset(a[..]) == multiset(old(a[..]))
    {
      InsertIntoPrefix(a, i);
      i := i + 1;
    }
  }

  /** Moves `a[i]` down into the sorted prefix before it. */
  method InsertIntoPrefix(a: array<Quote>, i: int)
    requires 0 <= i < a.Length && SortedPrefix(a, i)
    modifies a
    ensures SortedPrefix(a, i + 1)
    ensures multiset(a[..]) == multiset(old(a[..]))
  {
    var j := i;
    while j > 0 && a[j - 1].timestamp > a[j].timestamp
      invariant 0 <= j <= i
      invariant multiset(a[..]) == multiset(old(a[..]))
      invariant forall k, l :: 0 <= k < l <= i && k != j && l != j ==> a[k].timestamp <= a[l].timestamp
      invariant forall k, l :: 0 <= k < j < l <= i ==> a[k].timestamp <= a[l].timestamp
      invariant forall l :: j < l <= i ==> a[j].timestamp <= a[l].timestamp
    {
      SwapAdjacent(a, j - 1);
      j := j - 1;
    }
  }

  /** Exchanges `a[p]` and `a[p + 1]`, leaving every other element where it was. */
  method SwapAdjacent(a: array<Quote>, p: int)
    requires 0 <= p < a.Length - 1
    modifies a
    ensures a[p] == old(a[p + 1]) && a[p + 1] == old(a[p])
    ensures forall k :: 0 <= k < a.Length && k != p && k != p + 1 ==> a[k] == old(a[k])
    ensures multiset(a[..]) == multiset(old(a[..]))
  {
    a[p], a[p + 1] := a[p + 1], a[p];
  }

  // ---------------------------------------------------------------------
  // Bulk history fetches: split the requests into supported and
  // unsupported symbols, fetch each supported one, and collect the quotes
  // and the failures in request order.
  // ---------------------------------------------------------------------

  /** A (symbol, fallback currency) pair. */
  type Request = (string, string)

  function Supported(rs: seq<Request>, isSupported: string -> bool): (r: seq<Request>)
    ensures forall x :: x in r <==> x in rs && isSupported(x.0)
    decreases |rs|
  {
    if rs == [] then []
    else Supported(rs[..|rs| - 1], isSupported)
         + (if isSupported(rs[|rs| - 1].0) then [rs[|rs| - 1]] else [])
  }

  function Unsupported(rs: seq<Request>, isSupported: string -> bool): (r: seq<Request>)
    ensures forall x :: x in r <==> x in rs && !isSupported(x.0)
    decreases |rs|
  {
    if rs == [] then []
    else Unsupported(rs[..|rs| - 1], isSupported)
         + (if isSupported(rs[|rs| - 1].0) then [] else [rs[|rs| - 1]])
  }

  /** Whether a failed fetch is reported: a provider may treat "no data" as success with nothing. */
  predicate Reported(e: MarketDataError, reportNoData: bool) {
    reportNoData || !e.NoData?
  }

  /** The quotes of every successful fetch, in request order. */
  function FetchedQuotes(rs: seq<Request>, history: Request -> Result<seq<Quote>, MarketDataError>): seq<Quote>
    decreases |rs|
  {
    if rs == [] then []
    else FetchedQuotes(rs[..|rs| - 1], history)
         + (match history(rs[|rs| - 1]) case Ok(q) => q case Err(_) => [])
  }

  /** The requests whose fetch failed with a reported error, in request order. */
  function FetchFailures(rs: seq<Request>, history: Request -> Result<seq<Quote>, MarketDataError>, reportNoData: bool): (r: seq<Request>)
    ensures forall x :: x in r <==> x in rs && history(x).Err? && Reported(history(x).error, reportNoData)
    decreases |rs|
  {
    if rs == [] then []
    else
      FetchFailures(rs[..|rs| - 1], history, reportNoData)
      + (match history(rs[|rs| - 1])
         case Err(e) => if Reported(e, reportNoData) then [rs[|rs| - 1]] else []
         case Ok(_) => [])
  }

  /** Every request is either supported or unsupported, never both and never lost. */
  lemma {:induction false} SupportPartition(rs: seq<Request>, isSupported: string -> bool)
    ensures multiset(Supported(rs, isSupported)) + multiset(Unsupported(rs, isSupported)) == multiset(rs)
    decreases |rs|
  {
    if rs != [] {
      SupportPartition(rs[..|rs| - 1], isSupported);
      assert rs == rs[..|rs| - 1] + [rs[|rs| - 1]];
    }
  }

  /**
   * The bulk fetch of both providers: nothing for no requests or an empty
   * window; otherwise the quotes of every supported symbol fetched, and as
   * failures the unsupported symbols followed by the reported fetch errors.
   * `history` stands for the provider's own single-symbol fetch.
   */
  method FetchHistoryBulk(
    requests: seq<Request>, start: Timestamp, end: Timestamp,
    isSupported: string -> bool,
    history: Request -> Result<seq<Quote>, MarketDataError>,
    reportNoData: bool)
    returns (quotes: seq<Quote>, failed: seq<Request>)
    ensures requests == [] || start >= end ==> quotes == [] && failed == []
    ensures requests != [] && start < end ==>
              var supported := Supported(requests, isSupported);
              quotes == FetchedQuotes(supported, history)
              && failed == Unsupported(requests, isSupported) + FetchFailures(supported, history, reportNoData)
  {
    if requests == [] || start >= end {
      return [], [];
    }
    var supported, unsupported := PartitionRequests(requests, isSupported);
    var fetchFailures;
    quotes, fetchFailures := FetchAll(supported, history, reportNoData);
    failed := unsupported + fetchFailures;
  }

  /** The loop that routes each request to the supported or the failed list. */
  method PartitionRequests(requests: seq<Request>, isSupported: string -> bool)
    returns (supported: seq<Request>, unsupported: seq<Request>)
    ensures supported == Supported(requests, isSupported)
    ensures unsupported == Unsupported(requests, isSupported)
  {
    supported := [];
    unsupported := [];
    for i := 0 to |requests|
      invariant supported == Supported(requests[..i], isSupported)
      invariant unsupported == Unsupported(requests[..i], isSupported)
    {
      assert requests[..i + 1][..i] == requests[..i];
      if isSupported(requests[i].0) {
        supported := supported + [requests[i]];
      } else {
        unsupported := unsupported + [requests[i]];
      }
    }
    assert requests[..|requests|] == requests;
  }

  /** The loop that fetches every supported request in turn. */
  method FetchAll(supported: seq<Request>, history: Request -> Result<seq<Quote>, MarketDataError>,
                  reportNoData: bool)
    returns (quotes: seq<Quote>, failed: seq<Request>)
    ensures quotes == FetchedQuotes(supported, history)
    ensures failed == FetchFailures(supported, history, reportNoData)
  {
    quotes := [];
    failed := [];
    for i := 0 to |supported|
      invariant quotes == FetchedQuotes(supported[..i], history)
      invariant failed == FetchFailures(supported[..i], history, reportNoData)
    {
      assert supported[..i + 1][..i] == supported[..i];
      match history(supported[i])
      case Ok(q) =>
        quotes := quotes + q;
      case Err(e) =>
        if Reported(e, reportNoData) {
          failed := failed + [supported[i]];
        }
    }
    assert supported[..|supported|] == supported;
  }

  /**
   * A failed request was either unsupported or fetched with a reported
   * error; every unsupported request is among the failures.
   */
  lemma BulkFailures(requests: seq<Request>, isSupported: string -> bool,
                     history: Request -> Result<seq<Quote>, MarketDataError>, reportNoData: bool, x: Request)
    ensures var failed := Unsupported(requests, isSupported)
                          + FetchFailures(Supported(requests, isSupported), history, reportNoData);
            x in failed <==> x in requests
                             && (!isSupported(x.0) || (history(x).Err? && Reported(history(x).error, reportNoData)))
  {
  }
}
