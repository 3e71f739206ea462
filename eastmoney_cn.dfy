/**
 * The EastMoney provider for Shanghai and Shenzhen listings
 * (src-core/src/market_data/providers/eastmoney_cn_provider.rs): symbol
 * to security id, the asset sub-class guess, epoch readings, k-line rows,
 * and the history and bulk-history rules. HTTP and JSON decoding are
 * inputs; decimal and date parsing are parameters.
 */
module EastmoneyCnProvider {
  import opened Wrappers
  import opened Strings
  import opened MarketQuotes
  import SymbolNormalizer

  // ---------------------------------------------------------------------
  // Symbols
  // ---------------------------------------------------------------------

  /**
   * `parse_cn_symbol`: the trimmed, upper-cased symbol and its security id,
   * "1.<code>" for Shanghai and "0.<code>" for Shenzhen; any other shape,
   * SS included, is refused.
   */
  function ParseCnSymbol(symbol: string): (r: Option<(string, string)>)
    ensures r.Some? ==> r.value.0 == SymbolNormalizer.Canonical(symbol)
    ensures r.Some? ==> |r.value.1| == 8 && r.value.1[0] in "01" && r.value.1[1] == '.' && IsSixDigitCode(r.value.1[2..])
  {
    var n := SymbolNormalizer.Canonical(symbol);
    match SplitOnce(n, '.')
    case None => None
    case Some((code, market)) =>
      if !IsSixDigitCode(code) then None
      else if market == "SH" then Some((n, "1." + code))
      else if market == "SZ" then Some((n, "0." + code))
      else None
  }

  /** The exchange a security id names. */
  function SecidMarket(secid: string): string
    requires |secid| >= 1
  {
    if secid[0] == '1' then "SH" else "SZ"
  }

  /** The security id determines the symbol: its code and exchange rebuild it. */
  lemma SecidInverse(symbol: string)
    requires ParseCnSymbol(symbol).Some?
    ensures var (n, secid) := ParseCnSymbol(symbol).value;
            n == SymbolNormalizer.WithMarket(secid[2..], SecidMarket(secid))
  {
    var n := SymbolNormalizer.Canonical(symbol);
    var (code, market) := SplitOnce(n, '.').value;
    var secid := ParseCnSymbol(symbol).value.1;
    assert secid[2..] == code;
  }

  /** Exactly "<six digits>.SH" and "<six digits>.SZ" are accepted, after trimming and upper-casing. */
  lemma CnSymbolAccepted(symbol: string)
    ensures var n := SymbolNormalizer.Canonical(symbol);
            ParseCnSymbol(symbol).Some?
            <==> SymbolNormalizer.CodeWithMarket(n, "SH") || SymbolNormalizer.CodeWithMarket(n, "SZ")
  {
    var n := SymbolNormalizer.Canonical(symbol);
    if ParseCnSymbol(symbol).Some? {
      var (code, market) := SplitOnce(n, '.').value;
      assert n == code + "." + market;
      assert n[..6] == code && n[7..] == market;
    }
    forall m | m in ["SH", "SZ"] && SymbolNormalizer.CodeWithMarket(n, m) ensures ParseCnSymbol(symbol).Some? {
      SymbolNormalizer.CodeWithMarketIsWithMarket(n, m);
      SymbolNormalizer.DigitsFreeOf(n[..6], '.');
      SplitOnceOfJoin(n[..6], '.', m);
    }
  }

  /** Every accepted symbol is one the normaliser routes to the EastMoney source. */
  lemma AcceptedSymbolsAreRouted(symbol: string)
    requires ParseCnSymbol(symbol).Some?
    ensures SymbolNormalizer.InferPanoramaDataSource(symbol) == Some(SymbolNormalizer.EastmoneyCn)
  {
    CnSymbolAccepted(symbol);
    SymbolNormalizer.InferDataSourceExact(symbol);
  }

  /** A six-digit code followed by a market word: SH and SZ give their ids, every other word is refused. */
  lemma ParseCodeWithMarket(code: string, market: string)
    requires IsSixDigitCode(code) && SymbolNormalizer.IsUpperWord(market)
    ensures var s := SymbolNormalizer.WithMarket(code, market);
            ParseCnSymbol(s) == if market == "SH" then Some((s, "1." + code))
                                else if market == "SZ" then Some((s, "0." + code))
                                else None
  {
    var s := SymbolNormalizer.WithMarket(code, market);
    SymbolNormalizer.WithMarketFacts(code, market);
    SymbolNormalizer.CanonicalOfCanonical(s);
  }

  /** Only the trimmed, upper-cased form of a symbol matters. */
  lemma ParseDependsOnCanonical(symbol: string, s: string)
    requires SymbolNormalizer.Canonical(symbol) == s
    requires SymbolNormalizer.IsCanonical(s)
    ensures ParseCnSymbol(symbol) == ParseCnSymbol(s)
  {
    SymbolNormalizer.CanonicalOfCanonical(s);
  }

  /**
   * A symbol the normaliser routes here, once normalised, is accepted: the
   * normaliser turns SS into SH, which this parser alone would refuse.
   */
  lemma NormalizedRoutedSymbolsAreAccepted(symbol: string, options: SymbolNormalizer.NormalizationOptions)
    requires SymbolNormalizer.InferPanoramaDataSource(symbol) == Some(SymbolNormalizer.EastmoneyCn)
    ensures ParseCnSymbol(SymbolNormalizer.NormalizePanoramaSymbol(symbol, options)).Some?
  {
    var n := SymbolNormalizer.Canonical(symbol);
    SymbolNormalizer.InferDataSourceExact(symbol);
    var m := n[7..];
    var code := n[..6];
    assert SymbolNormalizer.CodeWithMarket(n, m) && m in ["SH", "SS", "SZ"];
    SymbolNormalizer.CodeWithMarketIsWithMarket(n, m);
    assert SymbolNormalizer.IsUpperWord(m) by {
      if m == "SH" {} else if m == "SS" {} else {}
    }
    SymbolNormalizer.WithMarketFacts(code, m);
    SymbolNormalizer.MarketSymbolShape(code, m);
    var m' := SymbolNormalizer.CanonicalMarket(m);
    assert SymbolNormalizer.NormalizePanoramaSymbol(symbol, options) == SymbolNormalizer.WithMarket(code, m');
    ParseCodeWithMarket(code, m');
  }

  /** "600519.SH" has id "1.600519". */
  lemma ShanghaiSymbolExample()
    ensures ParseCnSymbol("600519.SH") == Some(("600519.SH", "1.600519"))
  {
    assert SymbolNormalizer.IsUpperWord("SH");
    assert SymbolNormalizer.WithMarket("600519", "SH") == "600519.SH";
    ParseCodeWithMarket("600519", "SH");
    assert "1." + "600519" == "1.600519";
  }

  /** "000001.sz" has id "0.000001". */
  lemma ShenzhenSymbolExample()
    ensures ParseCnSymbol("000001.sz") == Some(("000001.SZ", "0.000001"))
  {
    assert SymbolNormalizer.IsUpperWord("SZ");
    SymbolNormalizer.WithMarketFacts("000001", "SZ");
    assert SymbolNormalizer.WithMarket("000001", "SZ") == "000001.SZ";
    LowerShenzhenCanonical();
    ParseDependsOnCanonical("000001.sz", "000001.SZ");
    ParseCodeWithMarket("000001", "SZ");
    assert "0." + "000001" == "0.000001";
  }

  lemma LowerShenzhenCanonical()
    ensures SymbolNormalizer.Canonical("000001.sz") == "000001.SZ"
  {
    SymbolNormalizer.CanonicalOfTrimmed("000001.sz");
    var u := ToUpper("000001.sz");
    assert u[7] == 'S' && u[8] == 'Z';
    assert u == "000001.SZ";
  }

  /** A fund symbol is refused. */
  lemma FundSymbolExample()
    ensures ParseCnSymbol("161039.FUND").None?
  {
    assert SymbolNormalizer.IsUpperWord("FUND");
    assert SymbolNormalizer.WithMarket("161039", "FUND") == "161039.FUND";
    ParseCodeWithMarket("161039", "FUND");
  }

  /** A US listing is refused. */
  lemma UsSymbolExample()
    ensures ParseCnSymbol("AAPL.US").None?
  {
    var s := "AAPL.US";
    assert SymbolNormalizer.IsCanonical(s) by {
      assert s[0] == 'A' && s[6] == 'S';
      forall i | 0 <= i < |s| ensures !IsAsciiLower(s[i]) {}
    }
    SymbolNormalizer.CanonicalOfCanonical(s);
    assert s == "AAPL" + "." + "US";
    SplitOnceOfJoin("AAPL", '.', "US");
  }

  /** A three-digit Hong Kong code is refused. */
  lemma HkSymbolExample()
    ensures ParseCnSymbol("700.HK").None?
  {
    assert SymbolNormalizer.IsUpperWord("HK");
    SymbolNormalizer.WithMarketFacts("700", "HK");
    assert SymbolNormalizer.WithMarket("700", "HK") == "700.HK";
    SymbolNormalizer.CanonicalOfCanonical("700.HK");
  }

  /**
   * `infer_asset_sub_class`: "ETF" when the code before the first dot
   * starts with 5, 15 or 16, otherwise, and for a symbol without a dot,
   * "Stock".
   */
  function InferAssetSubClass(symbol: string): (r: string)
    ensures r == "ETF" || r == "Stock"
    ensures '.' !in symbol ==> r == "Stock"
    ensures r == "ETF" ==> |symbol| >= 1 && (symbol[0] == '5' || (|symbol| >= 2 && symbol[0] == '1' && symbol[1] in "56"))
    ensures ('.' in symbol && |symbol| >= 1 && (symbol[0] == '5' || (|symbol| >= 2 && symbol[0] == '1' && symbol[1] in "56")))
            ==> r == "ETF"
  {
    match SplitOnce(symbol, '.')
    case None => "Stock"
    case Some((code, _)) =>
      assert symbol[..|code|] == code;
      assert |code| < |symbol| && symbol[|code|] == '.';
      if StartsWith(code, "5") || StartsWith(code, "15") || StartsWith(code, "16") then "ETF" else "Stock"
  }

  /** The sub-class depends on the code alone, never on the market suffix. */
  lemma SubClassIgnoresMarket(code: string, market: string, market': string)
    requires '.' !in code
    ensures InferAssetSubClass(code + "." + market) == InferAssetSubClass(code + "." + market')
  {
    SplitOnceOfJoin(code, '.', market);
    SplitOnceOfJoin(code, '.', market');
  }

  /** A Shanghai and a Shenzhen exchange-traded fund. */
  lemma SubClassExamples()
    ensures InferAssetSubClass("510300.SH") == "ETF"
    ensures InferAssetSubClass("159915.SZ") == "ETF"
  {
    assert "510300.SH"[6] == '.' && "159915.SZ"[6] == '.';
  }

  /** An ordinary Shanghai share. */
  lemma StockSubClassExample()
    ensures InferAssetSubClass("600519.SH") == "Stock"
  {
    SymbolNormalizer.DigitsFreeOf("600519", '.');
    SplitOnceOfJoin("600519", '.', "SH");
    assert "600519.SH" == "600519" + "." + "SH";
  }

  // ---------------------------------------------------------------------
  // Epochs and k-line rows
  // ---------------------------------------------------------------------

  /** Readings above this are milliseconds; positive readings up to it are seconds. */
  const MillisThreshold: int := 1_000_000_000_000

  /**
   * The last millisecond the date library can represent: the end of
   * 31 December 262142, the latest date it supports. A reading in seconds
   * never reaches it, since those stop at 10^12.
   */
  const MaxMillis: int := 8_210_266_876_799_999

  /**
   * `parse_timestamp`: a positive reading above 10^12 is milliseconds, any
   * other positive reading is seconds; a missing or non-positive reading,
   * or milliseconds past the last representable instant, is the clock
   * reading `now`.
   */
  function ParseTimestamp(epoch: Option<int>, now: Timestamp): (t: Timestamp)
    ensures epoch.None? || epoch.value <= 0 ==> t == now
    ensures epoch.Some? && MillisThreshold < epoch.value <= MaxMillis ==> t == epoch.value
    ensures epoch.Some? && epoch.value > MaxMillis ==> t == now
    ensures epoch.Some? && 0 < epoch.value <= MillisThreshold ==> t == epoch.value * 1000
    ensures 0 < t <= MaxMillis || t == now
  {
    match epoch
    case Some(ts) =>
      if ts <= 0 then now
      else if ts > MillisThreshold then (if ts <= MaxMillis then ts else now)
      else ts * 1000
    case None => now
  }

  /**
   * An instant after 2001-09-09 read in seconds and the same instant read in
   * milliseconds give the same time; so does any positive reading once
   * converted.
   */
  lemma SecondsAndMillisAgree(seconds: int, now: Timestamp)
    requires MillisThreshold / 1000 < seconds <= MillisThreshold
    ensures ParseTimestamp(Some(seconds), now) == ParseTimestamp(Some(seconds * 1000), now)
  {
  }

  /** What every k-line quote of one request shares. */
  datatype KlineContext = KlineContext(
    symbol: string, currency: string,
    date: string -> Option<Day>, decimal: string -> Option<real>, ymd: Day -> string)

  /**
   * `parse_history_line`: the comma-separated row date, open, close, high,
   * low, volume (further fields ignored). Fewer than six fields, or a date
   * or price that does not parse, is no quote; an unreadable volume is 0.
   * Times are midnight UTC of the row's date; adjusted close is close.
   */
  function ParseHistoryLine(line: string, c: KlineContext): (r: Option<Quote>)
    ensures var f := Split(line, ',');
            r.Some? <==> |f| >= 6 && c.date(f[0]).Some? && c.decimal(f[1]).Some? && c.decimal(f[2]).Some?
                         && c.decimal(f[3]).Some? && c.decimal(f[4]).Some?
    ensures var f := Split(line, ',');
            r.Some? ==> DayOf(r.value.timestamp) == c.date(f[0]).value && r.value.timestamp % MillisPerDay == 0
                        && r.value.open == c.decimal(f[1]).value && r.value.close == c.decimal(f[2]).value
                        && r.value.high == c.decimal(f[3]).value && r.value.low == c.decimal(f[4]).value
                        && r.value.volume == (if c.decimal(f[5]).Some? then c.decimal(f[5]).value else 0.0)
                        && r.value.adjclose == r.value.close
    ensures r.Some? ==> r.value.dataSource == EastMoneyCn && r.value.symbol == c.symbol && r.value.currency == c.currency
                        && r.value.id == c.ymd(DayOf(r.value.timestamp)) + "_" + c.symbol
  {
    var f := Split(line, ',');
    if |f| < 6 then None
    else
      match c.date(f[0])
      case None => None
      case Some(d) =>
        match (c.decimal(f[1]), c.decimal(f[2]), c.decimal(f[3]), c.decimal(f[4]))
        case (Some(open), Some(close), Some(high), Some(low)) =>
          var volume := if c.decimal(f[5]).Some? then c.decimal(f[5]).value else 0.0;
          var t := AtHour(d, 0);
          Some(Quote(c.ymd(DayOf(t)) + "_" + c.symbol, EastMoneyCn, t, c.symbol,
                     open, high, low, close, close, volume, c.currency))
        case _ => None
  }

  /**
   * Rows written as comma-joined fields read back field by field: a row of
   * at least six fields whose date and four prices parse is a quote with
   * exactly those values; a shorter row is never one.
   */
  lemma HistoryLineOfFields(fields: seq<string>, c: KlineContext)
    requires |fields| >= 1 && forall i :: 0 <= i < |fields| ==> ',' !in fields[i]
    ensures |fields| < 6 ==> ParseHistoryLine(Join(fields, ','), c).None?
    ensures |fields| >= 6 && c.date(fields[0]).Some? && c.decimal(fields[1]).Some? && c.decimal(fields[2]).Some?
            && c.decimal(fields[3]).Some? && c.decimal(fields[4]).Some? ==>
              var q := ParseHistoryLine(Join(fields, ','), c);
              q.Some? && DayOf(q.value.timestamp) == c.date(fields[0]).value
              && q.value.open == c.decimal(fields[1]).value && q.value.close == c.decimal(fields[2]).value
              && q.value.high == c.decimal(fields[3]).value && q.value.low == c.decimal(fields[4]).value
  {
    SplitOfJoin(fields, ',');
  }

  // ---------------------------------------------------------------------
  // History
  // ---------------------------------------------------------------------

  /** The quotes of the rows that parse, in row order (the `filter_map`). */
  function KlineQuotes(lines: seq<string>, c: KlineContext): seq<Quote>
    decreases |lines|
  {
    if lines == [] then []
    else KlineQuotes(lines[..|lines| - 1], c)
         + (match ParseHistoryLine(lines[|lines| - 1], c) case Some(q) => [q] case None => [])
  }

  /** No more quotes than rows, each one of this request's symbol and currency. */
  lemma {:induction false} KlineQuotesBelongToRequest(lines: seq<string>, c: KlineContext)
    ensures |KlineQuotes(lines, c)| <= |lines|
    ensures forall q :: q in KlineQuotes(lines, c) ==>
              q.symbol == c.symbol && q.currency == c.currency && q.dataSource == EastMoneyCn
    decreases |lines|
  {
    if lines != [] {
      KlineQuotesBelongToRequest(lines[..|lines| - 1], c);
    }
  }

  /** The `filter_map` over the k-line rows, one row at a time. */
  method ParseKlines(lines: seq<string>, c: KlineContext) returns (quotes: seq<Quote>)
    ensures quotes == KlineQuotes(lines, c)
  {
    quotes := [];
    for i := 0 to |lines|
      invariant quotes == KlineQuotes(lines[..i], c)
    {
      assert lines[..i + 1][..i] == lines[..i];
      match ParseHistoryLine(lines[i], c)
      case Some(q) => quotes := quotes + [q];
      case None =>
    }
    assert lines[..|lines|] == lines;
  }

  /**
   * `get_historical_quotes`. `response` is the decoded k-line payload: its
   * `data.klines`, `None` when `data` is absent, or the transport, status or
   * decoding error met.
   */
  method GetHistoricalQuotes(
    symbol: string, start: Timestamp, end: Timestamp, fallbackCurrency: string,
    response: Result<Option<seq<string>>, MarketDataError>,
    date: string -> Option<Day>, decimal: string -> Option<real>, ymd: Day -> string)
    returns (r: Result<seq<Quote>, MarketDataError>)
    ensures ParseCnSymbol(symbol).None? ==> r.Err? && r.error.ProviderError?
    ensures ParseCnSymbol(symbol).Some? && start >= end ==> r == Ok([])
    ensures ParseCnSymbol(symbol).Some? && start < end ==>
              var c := KlineContext(ParseCnSymbol(symbol).value.0, FallbackCurrency(fallbackCurrency), date, decimal, ymd);
              (response.Err? ==> r == Err(response.error))
              && (response == Ok(None) ==> r == Err(NoData))
              && (response.Ok? && response.value.Some? ==>
                    var qs := KlineQuotes(response.value.value, c);
                    (qs == [] ==> r == Err(NoData))
                    && (qs != [] ==> r.Ok? && SortedByTimestamp(r.value) && multiset(r.value) == multiset(qs)))
  {
    var parsed := ParseCnSymbol(symbol);
    if parsed.None? {
      return Err(ProviderError("EASTMONEY_CN only supports 6-digit .SH/.SZ symbols, got: " + symbol));
    }
    if start >= end {
      return Ok([]);
    }
    var c := KlineContext(parsed.value.0, FallbackCurrency(fallbackCurrency), date, decimal, ymd);
    if response.Err? {
      return Err(response.error);
    }
    if response.value.None? {
      return Err(NoData);
    }
    var quotes := ParseKlines(response.value.value, c);
    if quotes == [] {
      return Err(NoData);
    }
    var a := new Quote[|quotes|](i requires 0 <= i < |quotes| => quotes[i]);
    assert a[..] == quotes;
    SortByTimestamp(a);
    return Ok(a[..]);
  }

  /** The partition test of the bulk fetch. */
  predicate AcceptedSymbol(symbol: string) {
    ParseCnSymbol(symbol).Some?
  }

  /**
   * `get_historical_quotes_bulk`: every symbol `ParseCnSymbol` refuses is a
   * failure; each accepted one is fetched through `history`, and a NoData
   * answer is silently empty while every other error is a failure.
   */
  method GetHistoricalQuotesBulk(
    requests: seq<Request>, start: Timestamp, end: Timestamp,
    history: Request -> Result<seq<Quote>, MarketDataError>)
    returns (quotes: seq<Quote>, failed: seq<Request>)
    ensures requests == [] || start >= end ==> quotes == [] && failed == []
    ensures requests != [] && start < end ==>
              forall x :: x in failed <==>
                x in requests && (ParseCnSymbol(x.0).None? || (history(x).Err? && history(x).error != NoData))
    ensures requests != [] && start < end ==>
              quotes == FetchedQuotes(Supported(requests, AcceptedSymbol), history)
  {
    quotes, failed := FetchHistoryBulk(requests, start, end, AcceptedSymbol, history, false);
    if requests != [] && start < end {
      forall x ensures x in failed <==>
                x in requests && (ParseCnSymbol(x.0).None? || (history(x).Err? && history(x).error != NoData)) {
        BulkFailures(requests, AcceptedSymbol, history, false, x);
      }
    }
  }
}
